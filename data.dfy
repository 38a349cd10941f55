/**
 * Flow aggregation (src/data.ts): weighted paths become one link per ordered pair of
 * consecutive nodes, coloured by the colour rules, plus the node list and the
 * highlighted-value lookup of a selection.
 */
module Data {
  import opened Common
  import opened Seqs
  import Types
  import Labels

  /** One recorded path through the nodes, seen `instances` times. */
  datatype PathData = PathData(nodes: seq<string>, instances: real)

  /** A colour rule for the link from `sourceId` to `targetId`. */
  datatype ColorConfig = ColorConfig(sourceId: string, targetId: string, color: string)

  /** The input of the diagram: paths, colour rules and, optionally, saved vertical positions. */
  datatype SSData = SSData(paths: seq<PathData>, colorConfig: seq<ColorConfig>, nodePositions: Option<map<string, real>>)

  /** An aggregated link. */
  datatype LinkData = LinkData(sourceId: string, targetId: string, value: real, color: string)

  /** What `generateData` returns, apart from the highlight lookup (see LinkToHighlightedValue). */
  datatype GeneratedData = GeneratedData(data: Types.SerializedData, nodePositions: Option<map<string, real>>)

  /** The key of an ordered pair: the two ids joined by '|'. */
  function LinkKey(sourceId: string, targetId: string): string {
    sourceId + "|" + targetId
  }

  /** The predicate that accepts every path. */
  function AlwaysTrue(): seq<string> -> bool {
    _ => true
  }

  /** A path contains every selected id somewhere. */
  predicate HasAll(selected: set<string>, path: seq<string>) {
    forall n :: n in selected ==> n in path
  }

  /** The predicate of a selection: the path contains every selected id. */
  function ContainsAll(selected: set<string>): seq<string> -> bool {
    path => HasAll(selected, path)
  }

  // ---------------------------------------------------------------------------
  // The specification of generateLinks: a scan of steps into an ordered table.

  /** One contribution of the scan: `instances` added to the pair (sourceId, targetId). */
  datatype Step = Step(sourceId: string, targetId: string, instances: real)

  /** The contributions of one path: one per node after the first, from its predecessor to it. */
  function PathSteps(nodes: seq<string>, instances: real): (r: seq<Step>)
    ensures |r| == if |nodes| == 0 then 0 else |nodes| - 1
    ensures forall j :: 0 <= j < |r| ==> r[j] == Step(nodes[j], nodes[j + 1], instances)
  {
    if |nodes| == 0 then [] else seq(|nodes| - 1, j requires 0 <= j < |nodes| - 1 => Step(nodes[j], nodes[j + 1], instances))
  }

  /** The contributions of the accepted paths, in the order they are scanned. */
  function Steps(paths: seq<PathData>, pred: seq<string> -> bool): seq<Step> {
    if paths == [] then []
    else
      var last := paths[|paths| - 1];
      Steps(paths[..|paths| - 1], pred) + (if pred(last.nodes) then PathSteps(last.nodes, last.instances) else [])
  }

  /** The key of a colour rule's pair. */
  function RuleKey(rule: ColorConfig): string {
    LinkKey(rule.sourceId, rule.targetId)
  }

  /** The position of the last colour rule with key `key`, if there is one. */
  function LastRule(rules: seq<ColorConfig>, key: string): (r: Option<nat>)
    ensures r.None? ==> forall j :: 0 <= j < |rules| ==> RuleKey(rules[j]) != key
    ensures r.Some? ==> r.value < |rules| && RuleKey(rules[r.value]) == key
    ensures r.Some? ==> forall j :: r.value < j < |rules| ==> RuleKey(rules[j]) != key
  {
    if rules == [] then None
    else if RuleKey(rules[|rules| - 1]) == key then Some(|rules| - 1)
    else
      var init := rules[..|rules| - 1];
      assert forall j :: 0 <= j < |init| ==> init[j] == rules[j];
      LastRule(init, key)
  }

  /** The colour rules as a map from pair key to colour: the last rule for a key wins. */
  function ColorTable(rules: seq<ColorConfig>): (m: map<string, string>)
    ensures forall key :: key in m <==> LastRule(rules, key).Some?
    ensures forall key :: key in m ==> m[key] == rules[LastRule(rules, key).value].color
  {
    if rules == [] then map[]
    else
      var init := rules[..|rules| - 1];
      var m := ColorTable(init);
      m[RuleKey(rules[|rules| - 1]) := rules[|rules| - 1].color]
  }

  /** The colour a new link gets: its rule's colour, unless there is none or it is empty. */
  function ColorFor(colors: map<string, string>, key: string): (c: string)
    ensures c != ""
  {
    if key in colors && colors[key] != "" then colors[key] else Types.Gray
  }

  /** The map being filled, with its insertion order (a JavaScript Map iterates in that order). */
  datatype Table = Table(order: seq<string>, entries: map<string, LinkData>)

  /** The order lists each key of the map once, and each entry is stored under its own pair's key. */
  ghost predicate WellFormed(t: Table) {
    && Distinct(t.order)
    && (forall key :: key in t.order <==> key in t.entries)
    && forall key :: key in t.entries ==> LinkKey(t.entries[key].sourceId, t.entries[key].targetId) == key
  }

  /** One step of the scan: get or create the entry of the pair (value 0, rule colour), then add the instances. */
  function AddStep(colors: map<string, string>, t: Table, st: Step): Table {
    var key := LinkKey(st.sourceId, st.targetId);
    var created :=
      if key in t.entries then t
      else Table(t.order + [key], t.entries[key := LinkData(st.sourceId, st.targetId, 0.0, ColorFor(colors, key))]);
    var d := created.entries[key];
    Table(created.order, created.entries[key := d.(value := d.value + st.instances)])
  }

  /** The table after scanning `steps`. */
  function Acc(colors: map<string, string>, steps: seq<Step>): (t: Table)
    ensures WellFormed(t)
  {
    if steps == [] then Table([], map[])
    else
      var t := Acc(colors, steps[..|steps| - 1]);
      var st := steps[|steps| - 1];
      var key := LinkKey(st.sourceId, st.targetId);
      assert key !in t.entries ==> Distinct(t.order + [key]);
      AddStep(colors, t, st)
  }

  /** The links a scan produces, in the table's order. */
  function Links(t: Table): (links: seq<LinkData>)
    requires WellFormed(t)
    ensures |links| == |t.order|
    ensures forall k :: 0 <= k < |t.order| ==> links[k] == t.entries[t.order[k]]
  {
    seq(|t.order|, k requires 0 <= k < |t.order| => t.entries[t.order[k]])
  }

  /** What generateLinks returns for the paths `pred` accepts. */
  function Aggregate(input: SSData, pred: seq<string> -> bool): seq<LinkData> {
    Links(Acc(ColorTable(input.colorConfig), Steps(input.paths, pred)))
  }

  /** The keys of the steps, in scan order. */
  function StepKeys(steps: seq<Step>): (keys: seq<string>)
    ensures |keys| == |steps|
    ensures forall i :: 0 <= i < |steps| ==> keys[i] == LinkKey(steps[i].sourceId, steps[i].targetId)
  {
    seq(|steps|, i requires 0 <= i < |steps| => LinkKey(steps[i].sourceId, steps[i].targetId))
  }

  /** The sum of the instances of the steps with key `key`. */
  function KeyTotal(steps: seq<Step>, key: string): real {
    if steps == [] then 0.0
    else
      var st := steps[|steps| - 1];
      KeyTotal(steps[..|steps| - 1], key) + (if LinkKey(st.sourceId, st.targetId) == key then st.instances else 0.0)
  }

  // ---------------------------------------------------------------------------
  // The reference definition of a pair's flow, on the paths themselves.

  /** How many times `a` is immediately followed by `b` in `nodes`. */
  function PairCount(nodes: seq<string>, a: string, b: string): nat {
    if |nodes| < 2 then 0
    else PairCount(nodes[..|nodes| - 1], a, b) + (if nodes[|nodes| - 2] == a && nodes[|nodes| - 1] == b then 1 else 0)
  }

  /** `x` added up `n` times. */
  function Times(x: real, n: nat): real {
    if n == 0 then 0.0 else Times(x, n - 1) + x
  }

  /** The sum, over the paths `pred` accepts, of their instances times the number of times a is followed by b. */
  function FlowSum(paths: seq<PathData>, pred: seq<string> -> bool, a: string, b: string): real {
    if paths == [] then 0.0
    else
      var last := paths[|paths| - 1];
      FlowSum(paths[..|paths| - 1], pred, a, b) + (if pred(last.nodes) then Times(last.instances, PairCount(last.nodes, a, b)) else 0.0)
  }

  /** No node id of any path contains '|'. */
  ghost predicate BarFree(paths: seq<PathData>) {
    forall p, n :: p in paths && n in p.nodes ==> '|' !in n
  }

  // ---------------------------------------------------------------------------
  // Facts about the scan.

  lemma AccSnoc(colors: map<string, string>, steps: seq<Step>, st: Step)
    ensures Acc(colors, steps + [st]) == AddStep(colors, Acc(colors, steps), st)
  {
    assert (steps + [st])[..|steps|] == steps;
  }

  lemma StepsSnoc(paths: seq<PathData>, pred: seq<string> -> bool, p: PathData)
    ensures Steps(paths + [p], pred) == Steps(paths, pred) + (if pred(p.nodes) then PathSteps(p.nodes, p.instances) else [])
  {
    assert (paths + [p])[..|paths|] == paths;
  }

  lemma KeyTotalSnoc(steps: seq<Step>, st: Step, key: string)
    ensures KeyTotal(steps + [st], key) == KeyTotal(steps, key) + (if LinkKey(st.sourceId, st.targetId) == key then st.instances else 0.0)
  {
    assert (steps + [st])[..|steps|] == steps;
  }

  lemma {:induction false} KeyTotalAppend(xs: seq<Step>, ys: seq<Step>, key: string)
    ensures KeyTotal(xs + ys, key) == KeyTotal(xs, key) + KeyTotal(ys, key)
    decreases |ys|
  {
    if ys != [] {
      var init, last := ys[..|ys| - 1], ys[|ys| - 1];
      assert xs + ys == (xs + init) + [last];
      assert ys == init + [last];
      KeyTotalSnoc(xs + init, last, key);
      KeyTotalSnoc(init, last, key);
      KeyTotalAppend(xs, init, key);
    } else {
      assert xs + ys == xs;
    }
  }

  /** A key that no step has totals zero. */
  lemma {:induction false} KeyTotalAbsent(steps: seq<Step>, key: string)
    requires key !in StepKeys(steps)
    ensures KeyTotal(steps, key) == 0.0
  {
    if steps != [] {
      var init := steps[..|steps| - 1];
      assert forall i :: 0 <= i < |init| ==> StepKeys(init)[i] == StepKeys(steps)[i];
      assert StepKeys(steps)[|steps| - 1] in StepKeys(steps);
      KeyTotalAbsent(init, key);
    }
  }

  /** AddStep changes only the entry of the step's key: created if new, then its value raised by the instances. */
  lemma AddStepFacts(colors: map<string, string>, t: Table, st: Step)
    ensures AddStep(colors, t, st).order == if LinkKey(st.sourceId, st.targetId) in t.entries then t.order else t.order + [LinkKey(st.sourceId, st.targetId)]
    ensures AddStep(colors, t, st).entries.Keys == t.entries.Keys + {LinkKey(st.sourceId, st.targetId)}
    ensures forall key :: key in t.entries && key != LinkKey(st.sourceId, st.targetId) ==> AddStep(colors, t, st).entries[key] == t.entries[key]
    ensures AddStep(colors, t, st).entries[LinkKey(st.sourceId, st.targetId)] ==
      var d := if LinkKey(st.sourceId, st.targetId) in t.entries then t.entries[LinkKey(st.sourceId, st.targetId)]
               else LinkData(st.sourceId, st.targetId, 0.0, ColorFor(colors, LinkKey(st.sourceId, st.targetId)));
      d.(value := d.value + st.instances)
  {
  }

  /** A key is in the table exactly when some step has it. */
  lemma AccKeys(colors: map<string, string>, steps: seq<Step>)
    ensures forall key :: key in Acc(colors, steps).entries <==> key in StepKeys(steps)
  {
    AccOrder(colors, steps);
  }

  /** Each entry's value is the total of the steps with its key. */
  lemma {:induction false} AccValue(colors: map<string, string>, steps: seq<Step>)
    ensures forall key :: key in Acc(colors, steps).entries ==> Acc(colors, steps).entries[key].value == KeyTotal(steps, key)
  {
    if steps != [] {
      var init, st := steps[..|steps| - 1], steps[|steps| - 1];
      var t0 := Acc(colors, init);
      var key0 := LinkKey(st.sourceId, st.targetId);
      AccValue(colors, init);
      AddStepFacts(colors, t0, st);
      if key0 !in t0.entries {
        AccKeys(colors, init);
        KeyTotalAbsent(init, key0);
      }
      forall key | key in Acc(colors, steps).entries
        ensures Acc(colors, steps).entries[key].value == KeyTotal(steps, key)
      {
        assert KeyTotal(steps, key) == KeyTotal(init, key) + (if key0 == key then st.instances else 0.0);
      }
    }
  }

  /** Each entry's colour is the one its key's rule gives. */
  lemma {:induction false} AccColor(colors: map<string, string>, steps: seq<Step>)
    ensures forall key :: key in Acc(colors, steps).entries ==> Acc(colors, steps).entries[key].color == ColorFor(colors, key)
  {
    if steps != [] {
      var init := steps[..|steps| - 1];
      AccColor(colors, init);
      AddStepFacts(colors, Acc(colors, init), steps[|steps| - 1]);
    }
  }

  /** The keys of one more step are those of the earlier steps followed by its key. */
  lemma StepKeysSnoc(steps: seq<Step>, st: Step)
    ensures StepKeys(steps + [st]) == StepKeys(steps) + [LinkKey(st.sourceId, st.targetId)]
  {
    assert forall i :: 0 <= i < |steps| ==> (steps + [st])[i] == steps[i];
  }

  /** The table's order is the sequence of step keys, each at its first occurrence. */
  lemma {:induction false} AccOrder(colors: map<string, string>, steps: seq<Step>)
    ensures Acc(colors, steps).order == FirstSeen(StepKeys(steps))
  {
    if steps != [] {
      var init, st := steps[..|steps| - 1], steps[|steps| - 1];
      var key := LinkKey(st.sourceId, st.targetId);
      assert steps == init + [st];
      AccOrder(colors, init);
      AccSnoc(colors, init, st);
      StepKeysSnoc(init, st);
      FirstSeenSnoc(StepKeys(init), key);
      var t0 := Acc(colors, init);
      assert key in t0.entries <==> key in FirstSeen(StepKeys(init));
      assert AddStep(colors, t0, st).order == if key in t0.entries then t0.order else t0.order + [key];
    }
  }

  /** The ordered pairs of the steps, in scan order. */
  function StepPairs(steps: seq<Step>): (pairs: seq<(string, string)>)
    ensures |pairs| == |steps|
    ensures forall i :: 0 <= i < |steps| ==> pairs[i] == (steps[i].sourceId, steps[i].targetId)
  {
    seq(|steps|, i requires 0 <= i < |steps| => (steps[i].sourceId, steps[i].targetId))
  }

  /** The pairs of one more step are those of the earlier steps followed by its pair. */
  lemma StepPairsSnoc(steps: seq<Step>, st: Step)
    ensures StepPairs(steps + [st]) == StepPairs(steps) + [(st.sourceId, st.targetId)]
  {
    assert forall i :: 0 <= i < |steps| ==> (steps + [st])[i] == steps[i];
  }

  /** Each entry carries the ids of a step, the one that created it. */
  lemma {:induction false} AccEnds(colors: map<string, string>, steps: seq<Step>)
    ensures forall key :: key in Acc(colors, steps).entries ==>
      (Acc(colors, steps).entries[key].sourceId, Acc(colors, steps).entries[key].targetId) in StepPairs(steps)
  {
    if steps != [] {
      var init, st := steps[..|steps| - 1], steps[|steps| - 1];
      assert steps == init + [st];
      AccEnds(colors, init);
      AddStepFacts(colors, Acc(colors, init), st);
      StepPairsSnoc(init, st);
    }
  }

  /** With '|'-free sources, two pairs have the same key only when they are the same pair. */
  lemma LinkKeyInjective(s: string, t: string, s': string, t': string)
    requires '|' !in s && '|' !in s'
    requires LinkKey(s, t) == LinkKey(s', t')
    ensures s == s' && t == t'
  {
    var k := LinkKey(s, t);
    BarAfter(s, t);
    BarAfter(s', t');
    assert |s| == |s'|;
    assert s == k[..|s|] == s';
    assert t == k[|s| + 1..] == t';
  }

  /** In a key whose source has no '|', the first '|' is the one just after the source. */
  lemma BarAfter(s: string, t: string)
    requires '|' !in s
    ensures LinkKey(s, t)[|s|] == '|'
    ensures forall i :: 0 <= i < |s| ==> LinkKey(s, t)[i] != '|'
  {
    forall i | 0 <= i < |s| ensures LinkKey(s, t)[i] != '|' {
      assert LinkKey(s, t)[i] == s[i];
      assert s[i] in s;
    }
  }

  /** With '|' inside ids, two different pairs share a key, so the scan merges them. */
  lemma KeysCollide()
    ensures LinkKey("a|b", "c") == LinkKey("a", "b|c")
    ensures ("a|b", "c") != ("a", "b|c")
  {
  }

  /** The steps of the accepted paths only join node ids of those paths. */
  lemma {:induction false} StepsBarFree(paths: seq<PathData>, pred: seq<string> -> bool)
    requires BarFree(paths)
    ensures forall st :: st in Steps(paths, pred) ==> '|' !in st.sourceId && '|' !in st.targetId
  {
    if paths != [] {
      var init, last := paths[..|paths| - 1], paths[|paths| - 1];
      assert forall p :: p in init ==> p in paths;
      StepsBarFree(init, pred);
      assert last in paths;
      forall st | st in PathSteps(last.nodes, last.instances) ensures '|' !in st.sourceId && '|' !in st.targetId {
        var j :| 0 <= j < |PathSteps(last.nodes, last.instances)| && PathSteps(last.nodes, last.instances)[j] == st;
        assert last.nodes[j] in last.nodes && last.nodes[j + 1] in last.nodes;
      }
    }
  }

  /** One path contributes its instances once for every time a is followed by b. */
  lemma {:induction false} PathKeyTotal(nodes: seq<string>, instances: real, a: string, b: string)
    requires forall i :: 0 <= i < |nodes| ==> '|' !in nodes[i]
    requires '|' !in a
    ensures KeyTotal(PathSteps(nodes, instances), LinkKey(a, b)) == Times(instances, PairCount(nodes, a, b))
  {
    if |nodes| >= 2 {
      var init := nodes[..|nodes| - 1];
      var st := Step(nodes[|nodes| - 2], nodes[|nodes| - 1], instances);
      PathStepsExtend(nodes, |nodes| - 1, instances);
      assert nodes[..|nodes|] == nodes;
      PathKeyTotal(init, instances, a, b);
      KeyTotalSnoc(PathSteps(init, instances), st, LinkKey(a, b));
      StepKeyMatch(st.sourceId, st.targetId, a, b);
      var c := PairCount(init, a, b);
      var total := KeyTotal(PathSteps(nodes, instances), LinkKey(a, b));
      if st.sourceId == a && st.targetId == b {
        assert PairCount(nodes, a, b) == c + 1;

      } else {
        assert PairCount(nodes, a, b) == c;

      }
    } else {
      assert PathSteps(nodes, instances) == [];
    }
  }

  /** A step adds to the key of (a, b) exactly when it is the pair (a, b). */
  lemma StepKeyMatch(s: string, t: string, a: string, b: string)
    requires '|' !in s && '|' !in a
    ensures LinkKey(s, t) == LinkKey(a, b) <==> s == a && t == b
  {
    if LinkKey(s, t) == LinkKey(a, b) {
      LinkKeyInjective(s, t, a, b);
    }
  }

  /** The total of a pair's steps is the flow of that pair through the accepted paths. */
  lemma {:induction false} StepsTotalIsFlow(paths: seq<PathData>, pred: seq<string> -> bool, a: string, b: string)
    requires BarFree(paths) && '|' !in a
    ensures KeyTotal(Steps(paths, pred), LinkKey(a, b)) == FlowSum(paths, pred, a, b)
  {
    if paths != [] {
      var init, last := paths[..|paths| - 1], paths[|paths| - 1];
      assert forall p :: p in init ==> p in paths;
      StepsTotalIsFlow(init, pred, a, b);
      var extra := if pred(last.nodes) then PathSteps(last.nodes, last.instances) else [];
      KeyTotalAppend(Steps(init, pred), extra, LinkKey(a, b));
      if pred(last.nodes) {
        assert last in paths;
        PathKeyTotal(last.nodes, last.instances, a, b);
      }
    }
  }

  // ---------------------------------------------------------------------------
  // Properties of generateLinks, stated on Aggregate.

  /**
   * The value of the link of a pair is the sum of the instances of the accepted paths, once per
   * position where a is immediately followed by b; a pair without a link has no such flow.
   */
  lemma AggregateValueIsFlow(input: SSData, pred: seq<string> -> bool, a: string, b: string)
    requires BarFree(input.paths) && '|' !in a
    ensures forall i :: 0 <= i < |Aggregate(input, pred)| && Aggregate(input, pred)[i].sourceId == a && Aggregate(input, pred)[i].targetId == b ==>
      Aggregate(input, pred)[i].value == FlowSum(input.paths, pred, a, b)
    ensures (forall i :: 0 <= i < |Aggregate(input, pred)| ==> (Aggregate(input, pred)[i].sourceId, Aggregate(input, pred)[i].targetId) != (a, b)) ==>
      FlowSum(input.paths, pred, a, b) == 0.0
  {
    var colors := ColorTable(input.colorConfig);
    var steps := Steps(input.paths, pred);
    var t := Acc(colors, steps);
    var links := Aggregate(input, pred);
    var key := LinkKey(a, b);
    AccValue(colors, steps);
    StepsTotalIsFlow(input.paths, pred, a, b);
    if key in t.entries {
      var k :| 0 <= k < |t.order| && t.order[k] == key;
      assert links[k] == t.entries[key];
      EntrySourceBarFree(colors, input.paths, pred, key);
      LinkKeyInjective(links[k].sourceId, links[k].targetId, a, b);
    } else {
      AccKeys(colors, steps);
      KeyTotalAbsent(steps, key);
    }
  }

  /** The source of every entry of the scan is a node id of a path, so it has no '|'. */
  lemma EntrySourceBarFree(colors: map<string, string>, paths: seq<PathData>, pred: seq<string> -> bool, key: string)
    requires BarFree(paths) && key in Acc(colors, Steps(paths, pred)).entries
    ensures '|' !in Acc(colors, Steps(paths, pred)).entries[key].sourceId
  {
    var steps := Steps(paths, pred);
    var d := Acc(colors, steps).entries[key];
    AccEnds(colors, steps);
    var i :| 0 <= i < |steps| && StepPairs(steps)[i] == (d.sourceId, d.targetId);
    StepsBarFree(paths, pred);
    assert steps[i] in steps;
  }

  /** No two links share an ordered pair. */
  lemma AggregateOnePerPair(input: SSData, pred: seq<string> -> bool)
    ensures forall i, j :: 0 <= i < j < |Aggregate(input, pred)| ==>
      (Aggregate(input, pred)[i].sourceId, Aggregate(input, pred)[i].targetId) != (Aggregate(input, pred)[j].sourceId, Aggregate(input, pred)[j].targetId)
  {
    var t := Acc(ColorTable(input.colorConfig), Steps(input.paths, pred));
    var links := Aggregate(input, pred);
    forall i, j | 0 <= i < j < |links| ensures (links[i].sourceId, links[i].targetId) != (links[j].sourceId, links[j].targetId) {
      assert t.order[i] != t.order[j];
    }
  }

  /**
   * The links come in the order their pairs are first met, scanning the accepted paths in input
   * order and each path from left to right: their keys are the scan's keys, each kept at its first occurrence.
   */
  lemma AggregateFirstSeenOrder(input: SSData, pred: seq<string> -> bool)
    ensures |Aggregate(input, pred)| == |FirstSeen(StepKeys(Steps(input.paths, pred)))|
    ensures forall i :: 0 <= i < |Aggregate(input, pred)| ==>
      LinkKey(Aggregate(input, pred)[i].sourceId, Aggregate(input, pred)[i].targetId) == FirstSeen(StepKeys(Steps(input.paths, pred)))[i]
    ensures forall i, j :: 0 <= i < j < |Aggregate(input, pred)| ==>
      FirstIndex(StepKeys(Steps(input.paths, pred)), FirstSeen(StepKeys(Steps(input.paths, pred)))[i]) <
      FirstIndex(StepKeys(Steps(input.paths, pred)), FirstSeen(StepKeys(Steps(input.paths, pred)))[j])
  {
    AccOrder(ColorTable(input.colorConfig), Steps(input.paths, pred));
    FirstSeenOrder(StepKeys(Steps(input.paths, pred)));
  }

  /** A link's colour is that of the last colour rule for its pair, or gray when there is none or it is empty. */
  lemma AggregateColor(input: SSData, pred: seq<string> -> bool)
    ensures forall i :: 0 <= i < |Aggregate(input, pred)| ==>
      Aggregate(input, pred)[i].color == ColorFor(ColorTable(input.colorConfig), LinkKey(Aggregate(input, pred)[i].sourceId, Aggregate(input, pred)[i].targetId))
  {
    var colors := ColorTable(input.colorConfig);
    var t := Acc(colors, Steps(input.paths, pred));
    AccColor(colors, Steps(input.paths, pred));
    assert forall i :: 0 <= i < |t.order| ==> t.order[i] in t.entries;
  }

  /** Link i is coloured by the last colour rule for its pair when that rule's colour is non-empty, and gray otherwise. */
  lemma LinkColorIsLastRule(input: SSData, pred: seq<string> -> bool, i: nat)
    requires i < |Aggregate(input, pred)|
    ensures var key := LinkKey(Aggregate(input, pred)[i].sourceId, Aggregate(input, pred)[i].targetId);
      var last := LastRule(input.colorConfig, key);
      Aggregate(input, pred)[i].color ==
        if last.Some? && input.colorConfig[last.value].color != "" then input.colorConfig[last.value].color else Types.Gray
  {
    AggregateColor(input, pred);
  }

  /** A path the predicate rejects, or one with fewer than two nodes, changes nothing when left out. */
  lemma RejectedPathAddsNothing(input: SSData, pred: seq<string> -> bool, k: nat)
    requires k < |input.paths|
    requires !pred(input.paths[k].nodes) || |input.paths[k].nodes| < 2
    ensures Aggregate(input.(paths := input.paths[..k] + input.paths[k + 1..]), pred) == Aggregate(input, pred)
  {
    var paths := input.paths;
    var rest := paths[..k] + paths[k + 1..];
    SkipPath(paths, pred, k, |paths|);
    assert paths[..|paths|] == paths && rest[..|paths| - 1] == rest;
    SameStepsSameLinks(input, input.(paths := rest), pred);
  }

  /** Leaving out path k, which adds no steps, gives the same steps for every prefix reaching past it. */
  lemma {:induction false} SkipPath(paths: seq<PathData>, pred: seq<string> -> bool, k: nat, j: nat)
    requires k < j <= |paths|
    requires !pred(paths[k].nodes) || |paths[k].nodes| < 2
    ensures Steps(paths[..j], pred) == Steps((paths[..k] + paths[k + 1..])[..j - 1], pred)
    decreases j
  {
    var rest := paths[..k] + paths[k + 1..];
    assert paths[..j] == paths[..j - 1] + [paths[j - 1]];
    StepsSnoc(paths[..j - 1], pred, paths[j - 1]);
    if j == k + 1 {
      if pred(paths[k].nodes) {
        assert PathSteps(paths[k].nodes, paths[k].instances) == [];
      }
      assert rest[..k] == paths[..k];
    } else {
      SkipPath(paths, pred, k, j - 1);
      assert rest[..j - 1] == rest[..j - 2] + [paths[j - 1]];
      StepsSnoc(rest[..j - 2], pred, paths[j - 1]);
    }
  }

  /** Inputs with the same colour rules and the same accepted steps aggregate to the same links. */
  lemma SameStepsSameLinks(input: SSData, input': SSData, pred: seq<string> -> bool)
    requires input.colorConfig == input'.colorConfig
    requires Steps(input.paths, pred) == Steps(input'.paths, pred)
    ensures Aggregate(input, pred) == Aggregate(input', pred)
  {
  }

  // ---------------------------------------------------------------------------
  // The imperative operations.

  lemma PathStepsExtend(nodes: seq<string>, i: nat, instances: real)
    requires 0 < i < |nodes|
    ensures PathSteps(nodes[..i + 1], instances) == PathSteps(nodes[..i], instances) + [Step(nodes[i - 1], nodes[i], instances)]
  {
  }

  /** The first loop of `generateLinks`: one map entry per colour rule, later rules overwriting earlier ones. */
  method BuildColorMap(rules: seq<ColorConfig>) returns (keyToColor: map<string, string>)
    ensures keyToColor == ColorTable(rules)
  {
    keyToColor := map[];
    var c := 0;
    while c < |rules|
      invariant 0 <= c <= |rules|
      invariant keyToColor == ColorTable(rules[..c])
    {
      assert rules[..c + 1][..c] == rules[..c];
      keyToColor := keyToColor[RuleKey(rules[c]) := rules[c].color];
      c := c + 1;
    }
    assert rules[..c] == rules;
  }

  /** `getOrCreateLinkData` followed by `d.value += instances`, on the map and its insertion order. */
  method AddToLink(keyToColor: map<string, string>, order: seq<string>, entries: map<string, LinkData>,
                   sourceId: string, targetId: string, instances: real)
    returns (order': seq<string>, entries': map<string, LinkData>)
    ensures Table(order', entries') == AddStep(keyToColor, Table(order, entries), Step(sourceId, targetId, instances))
  {
    order', entries' := order, entries;
    var key := LinkKey(sourceId, targetId);
    var d: LinkData;
    if key in entries' {
      d := entries'[key];
    } else {
      d := LinkData(sourceId, targetId, 0.0, ColorFor(keyToColor, key));
      entries' := entries'[key := d];
      order' := order' + [key];
    }
    d := d.(value := d.value + instances);
    entries' := entries'[key := d];
  }

  /** Scanning node i of a path, for i > 0, adds the step of the pair ending in it to what the earlier nodes gave. */
  lemma ScanStep(colors: map<string, string>, before: seq<Step>, nodes: seq<string>, instances: real, i: nat)
    requires 0 < i < |nodes|
    ensures Acc(colors, before + PathSteps(nodes[..i + 1], instances)) ==
      AddStep(colors, Acc(colors, before + PathSteps(nodes[..i], instances)), Step(nodes[i - 1], nodes[i], instances))
  {
    var st := Step(nodes[i - 1], nodes[i], instances);
    PathStepsExtend(nodes, i, instances);
    assert before + PathSteps(nodes[..i + 1], instances) == (before + PathSteps(nodes[..i], instances)) + [st];
    AccSnoc(colors, before + PathSteps(nodes[..i], instances), st);
  }

  /** A path's first node adds no step. */
  lemma ScanFirst(before: seq<Step>, nodes: seq<string>, instances: real)
    ensures before + PathSteps(nodes[..0], instances) == before
    ensures |nodes| > 0 ==> before + PathSteps(nodes[..1], instances) == before
  {
    assert PathSteps(nodes[..0], instances) == [];
    if |nodes| > 0 {
      assert PathSteps(nodes[..1], instances) == [];
    }
  }

  /** The inner loop of `generateLinks`: every node after the first adds the path's instances to the pair ending in it. */
  method ScanPath(keyToColor: map<string, string>, order: seq<string>, entries: map<string, LinkData>,
                  path: PathData, ghost before: seq<Step>)
    returns (order': seq<string>, entries': map<string, LinkData>)
    requires Table(order, entries) == Acc(keyToColor, before)
    ensures Table(order', entries') == Acc(keyToColor, before + PathSteps(path.nodes, path.instances))
  {
    order', entries' := order, entries;
    ScanFirst(before, path.nodes, path.instances);
    var i := 0;
    while i < |path.nodes|
      invariant 0 <= i <= |path.nodes|
      invariant Table(order', entries') == Acc(keyToColor, before + PathSteps(path.nodes[..i], path.instances))
    {
      if i > 0 {
        ScanStep(keyToColor, before, path.nodes, path.instances, i);
        order', entries' := AddToLink(keyToColor, order', entries', path.nodes[i - 1], path.nodes[i], path.instances);
      }
      i := i + 1;
    }
    assert path.nodes[..i] == path.nodes;
  }

  /** The loop of `input.paths.forEach`: scans every accepted path, pair by pair, into the map of links. */
  method ScanPaths(keyToColor: map<string, string>, paths: seq<PathData>, pred: seq<string> -> bool)
    returns (order: seq<string>, entries: map<string, LinkData>)
    ensures Table(order, entries) == Acc(keyToColor, Steps(paths, pred))
  {
    order, entries := [], map[];
    ghost var done: seq<Step> := [];
    var p := 0;
    while p < |paths|
      invariant 0 <= p <= |paths|
      invariant done == Steps(paths[..p], pred)
      invariant Table(order, entries) == Acc(keyToColor, done)
    {
      var path := paths[p];
      assert paths[..p + 1] == paths[..p] + [path];
      StepsSnoc(paths[..p], pred, path);
      if pred(path.nodes) {
        order, entries := ScanPath(keyToColor, order, entries, path, done);
        done := done + PathSteps(path.nodes, path.instances);
      } else {
        assert done + [] == done;
      }
      p := p + 1;
    }
    assert paths[..p] == paths;
  }

  /** `generateLinks`: fills the colour map, scans the accepted paths, and returns the links in insertion order. */
  method GenerateLinks(input: SSData, pred: seq<string> -> bool) returns (links: seq<LinkData>)
    ensures links == Aggregate(input, pred)
  {
    var keyToColor := BuildColorMap(input.colorConfig);
    var order, entries := ScanPaths(keyToColor, input.paths, pred);
    links := seq(|order|, k requires 0 <= k < |order| => entries[order[k]]);
  }

  // ---------------------------------------------------------------------------
  // getNodesFromLinks.

  /** The ids the links name, source then target, link by link. */
  function Endpoints(links: seq<LinkData>): (ends: seq<string>)
    ensures |ends| == 2 * |links|
    ensures forall k :: 0 <= k < |links| ==> ends[2 * k] == links[k].sourceId && ends[2 * k + 1] == links[k].targetId
  {
    if links == [] then []
    else Endpoints(links[..|links| - 1]) + [links[|links| - 1].sourceId, links[|links| - 1].targetId]
  }

  /** The node list of the links: each endpoint once, in first-appearance order, labelled without its annotation. */
  function NodeList(links: seq<LinkData>): (nodes: seq<Types.SerializedNode>)
    ensures |nodes| == |FirstSeen(Endpoints(links))|
    ensures forall i :: 0 <= i < |nodes| ==>
      nodes[i] == Types.SerializedNode(Some(FirstSeen(Endpoints(links))[i]), Labels.Label(FirstSeen(Endpoints(links))[i]))
  {
    var ids := FirstSeen(Endpoints(links));
    seq(|ids|, i requires 0 <= i < |ids| => Types.SerializedNode(Some(ids[i]), Labels.Label(ids[i])))
  }

  /**
   * The node list names every endpoint and nothing else, each once, with an explicit id, in the order
   * the endpoints first appear (a link's source before its target), labelled by the annotation-free id.
   */
  lemma NodeListFacts(links: seq<LinkData>)
    ensures forall i :: 0 <= i < |NodeList(links)| ==>
      NodeList(links)[i].id.Some? && NodeList(links)[i].caption == Labels.Label(NodeList(links)[i].id.value)
    ensures forall x :: x in Endpoints(links) <==> exists i :: 0 <= i < |NodeList(links)| && NodeList(links)[i].id == Some(x)
    ensures forall i, j :: 0 <= i < j < |NodeList(links)| ==> NodeList(links)[i].id != NodeList(links)[j].id
    ensures forall i, j :: 0 <= i < j < |NodeList(links)| ==>
      FirstIndex(Endpoints(links), NodeList(links)[i].id.value) < FirstIndex(Endpoints(links), NodeList(links)[j].id.value)
  {
    var ids := FirstSeen(Endpoints(links));
    FirstSeenOrder(Endpoints(links));
    forall x | x in Endpoints(links) ensures exists i :: 0 <= i < |NodeList(links)| && NodeList(links)[i].id == Some(x) {
      var i :| 0 <= i < |ids| && ids[i] == x;
      assert NodeList(links)[i].id == Some(x);
    }
  }

  /** `Set.add` on an insertion-ordered set: the id is appended unless it is already there. */
  method AddId(nodeIds: set<string>, inOrder: seq<string>, id: string, ghost seen: seq<string>)
    returns (nodeIds': set<string>, inOrder': seq<string>)
    requires inOrder == FirstSeen(seen)
    requires forall x :: x in nodeIds <==> x in inOrder
    ensures inOrder' == FirstSeen(seen + [id])
    ensures forall x :: x in nodeIds' <==> x in inOrder'
  {
    FirstSeenSnoc(seen, id);
    nodeIds', inOrder' := nodeIds, inOrder;
    if id !in nodeIds {
      nodeIds' := nodeIds + {id};
      inOrder' := inOrder + [id];
    }
  }

  /** `getNodesFromLinks`: adds each link's source, then its target, to an insertion-ordered set, then labels the ids. */
  method GetNodesFromLinks(links: seq<LinkData>) returns (nodes: seq<Types.SerializedNode>)
    ensures nodes == NodeList(links)
  {
    var nodeIds: set<string> := {};
    var inOrder: seq<string> := [];
    ghost var seen: seq<string> := [];
    var k := 0;
    while k < |links|
      invariant 0 <= k <= |links|
      invariant seen == Endpoints(links[..k])
      invariant inOrder == FirstSeen(seen)
      invariant forall x :: x in nodeIds <==> x in inOrder
    {
      var l := links[k];
      assert links[..k + 1][..k] == links[..k];
      nodeIds, inOrder := AddId(nodeIds, inOrder, l.sourceId, seen);
      seen := seen + [l.sourceId];
      nodeIds, inOrder := AddId(nodeIds, inOrder, l.targetId, seen);
      seen := seen + [l.targetId];
      k := k + 1;
    }
    assert links[..k] == links;
    nodes := seq(|inOrder|, i requires 0 <= i < |inOrder| => Types.SerializedNode(Some(inOrder[i]), Labels.Label(inOrder[i])));
  }

  // ---------------------------------------------------------------------------
  // linkToHighlightedValue.

  /** The lookup `linkToHighlightedValue` returns: constant zero, or a map from pair key to value. */
  datatype Highlighter = NoHighlight | Lookup(keyToValue: map<string, real>)

  /** The highlighted value of a pair: a key missing from the map reads as 0. */
  function HighlightedValue(h: Highlighter, sourceId: string, targetId: string): real {
    match h
    case NoHighlight => 0.0
    case Lookup(m) => if LinkKey(sourceId, targetId) in m then m[LinkKey(sourceId, targetId)] else 0.0
  }

  /** The links' values by key; a later link with the same key overwrites an earlier one. */
  function KeyToValue(links: seq<LinkData>): (m: map<string, real>)
    ensures forall key :: key in m <==> key in LinkKeys(links)
  {
    if links == [] then map[]
    else
      var init, last := links[..|links| - 1], links[|links| - 1];
      assert LinkKeys(links) == LinkKeys(init) + [LinkKey(last.sourceId, last.targetId)];
      KeyToValue(init)[LinkKey(last.sourceId, last.targetId) := last.value]
  }

  /** The keys of the links, in order. */
  function LinkKeys(links: seq<LinkData>): (keys: seq<string>)
    ensures |keys| == |links|
    ensures forall i :: 0 <= i < |links| ==> keys[i] == LinkKey(links[i].sourceId, links[i].targetId)
  {
    seq(|links|, i requires 0 <= i < |links| => LinkKey(links[i].sourceId, links[i].targetId))
  }

  /** What `linkToHighlightedValue` returns for a selection. */
  function Highlight(input: SSData, selected: set<string>): Highlighter {
    if selected == {} then NoHighlight
    else Lookup(KeyToValue(Aggregate(input, ContainsAll(selected))))
  }

  /** The map of the first k + 1 links sets link k's value under its key. */
  lemma KeyToValueSnoc(links: seq<LinkData>, k: nat)
    requires k < |links|
    ensures KeyToValue(links[..k + 1]) == KeyToValue(links[..k])[LinkKey(links[k].sourceId, links[k].targetId) := links[k].value]
  {
    var pre1 := links[..k + 1];
    assert pre1[..|pre1| - 1] == links[..k] && pre1[|pre1| - 1] == links[k];
  }

  /** `linkToHighlightedValue`: zero for an empty selection, else the values of a re-aggregation of the paths holding every selected id. */
  method LinkToHighlightedValue(input: SSData, selected: set<string>) returns (h: Highlighter)
    ensures h == Highlight(input, selected)
  {
    if |selected| == 0 {
      return NoHighlight;
    }
    var links := GenerateLinks(input, ContainsAll(selected));
    var keyToValue: map<string, real> := map[];
    var k := 0;
    while k < |links|
      invariant 0 <= k <= |links|
      invariant keyToValue == KeyToValue(links[..k])
    {
      KeyToValueSnoc(links, k);
      keyToValue := keyToValue[LinkKey(links[k].sourceId, links[k].targetId) := links[k].value];
      k := k + 1;
    }
    assert links[..k] == links;
    h := Lookup(keyToValue);
  }

  /** In links with distinct keys, each key maps to its own link's value. */
  lemma {:induction false} KeyToValueAt(links: seq<LinkData>)
    requires Distinct(LinkKeys(links))
    ensures forall i :: 0 <= i < |links| ==> KeyToValue(links)[LinkKey(links[i].sourceId, links[i].targetId)] == links[i].value
  {
    if links != [] {
      var init, last := links[..|links| - 1], links[|links| - 1];
      assert forall i :: 0 <= i < |init| ==> LinkKeys(init)[i] == LinkKeys(links)[i];
      KeyToValueAt(init);
    }
  }

  /** The links of a scan and its table agree: same keys in the same order, each link's value its key's total. */
  lemma AggregateKeys(input: SSData, pred: seq<string> -> bool)
    ensures LinkKeys(Aggregate(input, pred)) == FirstSeen(StepKeys(Steps(input.paths, pred)))
    ensures Distinct(LinkKeys(Aggregate(input, pred)))
  {
    AccOrder(ColorTable(input.colorConfig), Steps(input.paths, pred));
  }

  /** With an empty selection every pair's highlighted value is 0. */
  lemma HighlightEmptyIsZero(input: SSData, selected: set<string>, sourceId: string, targetId: string)
    requires selected == {}
    ensures HighlightedValue(Highlight(input, selected), sourceId, targetId) == 0.0
  {
  }

  /** The highlighted value of a key is the total of the accepted steps with that key. */
  lemma HighlightIsKeyTotal(input: SSData, selected: set<string>, key: string)
    requires selected != {}
    ensures Highlight(input, selected).Lookup?
    ensures (if key in Highlight(input, selected).keyToValue then Highlight(input, selected).keyToValue[key] else 0.0) ==
      KeyTotal(Steps(input.paths, ContainsAll(selected)), key)
  {
    var pred := ContainsAll(selected);
    var colors := ColorTable(input.colorConfig);
    var steps := Steps(input.paths, pred);
    var t := Acc(colors, steps);
    var links := Aggregate(input, pred);
    AggregateKeys(input, pred);
    AccKeys(colors, steps);
    AccValue(colors, steps);
    KeyToValueAt(links);
    if key in KeyToValue(links) {
      var i :| 0 <= i < |links| && LinkKeys(links)[i] == key;
      assert links[i] == t.entries[t.order[i]];
    } else {
      KeyTotalAbsent(steps, key);
    }
  }

  /**
   * With a non-empty selection, the highlighted value of (a, b) is the flow of (a, b) through the paths
   * that contain every selected id somewhere; so a pair no such path has reads as 0.
   */
  lemma HighlightIsFlow(input: SSData, selected: set<string>, a: string, b: string)
    requires selected != {}
    requires BarFree(input.paths) && '|' !in a
    ensures HighlightedValue(Highlight(input, selected), a, b) == FlowSum(input.paths, ContainsAll(selected), a, b)
  {
    HighlightIsKeyTotal(input, selected, LinkKey(a, b));
    StepsTotalIsFlow(input.paths, ContainsAll(selected), a, b);
  }

  /** The steps of the paths a predicate accepts are among the steps of all paths. */
  lemma {:induction false} StepsWithin(paths: seq<PathData>, pred: seq<string> -> bool)
    ensures forall st :: st in Steps(paths, pred) ==> st in Steps(paths, AlwaysTrue())
  {
    if paths != [] {
      StepsWithin(paths[..|paths| - 1], pred);
    }
  }

  /** A pair with no link in the full diagram has highlighted value 0 under every selection. */
  lemma HighlightOutsideLinksIsZero(input: SSData, selected: set<string>, sourceId: string, targetId: string)
    requires LinkKey(sourceId, targetId) !in LinkKeys(Aggregate(input, AlwaysTrue()))
    ensures HighlightedValue(Highlight(input, selected), sourceId, targetId) == 0.0
  {
    if selected != {} {
      var key := LinkKey(sourceId, targetId);
      AggregateKeys(input, AlwaysTrue());
      HighlightIsKeyTotal(input, selected, key);
      StepsWithin(input.paths, ContainsAll(selected));
      var hs := Steps(input.paths, ContainsAll(selected));
      forall i | 0 <= i < |hs| ensures StepKeys(hs)[i] != key {
        assert hs[i] in Steps(input.paths, AlwaysTrue());
        var j :| 0 <= j < |Steps(input.paths, AlwaysTrue())| && Steps(input.paths, AlwaysTrue())[j] == hs[i];
        assert StepKeys(Steps(input.paths, AlwaysTrue()))[j] == StepKeys(hs)[i];
      }
      KeyTotalAbsent(hs, key);
    }
  }

  /** A non-negative amount added up any number of times is non-negative. */
  lemma {:induction false} TimesNonNegative(x: real, n: nat)
    requires x >= 0.0
    ensures Times(x, n) >= 0.0
  {
    if n > 0 {
      TimesNonNegative(x, n - 1);
    }
  }

  /** With non-negative instances, a predicate that accepts fewer paths gives no more flow. */
  lemma {:induction false} FlowSumMonotone(paths: seq<PathData>, pred: seq<string> -> bool, pred': seq<string> -> bool, a: string, b: string)
    requires forall p :: p in paths ==> p.instances >= 0.0
    requires forall p :: p in paths && pred(p.nodes) ==> pred'(p.nodes)
    ensures 0.0 <= FlowSum(paths, pred, a, b) <= FlowSum(paths, pred', a, b)
  {
    if paths != [] {
      var init, last := paths[..|paths| - 1], paths[|paths| - 1];
      assert forall p :: p in init ==> p in paths;
      FlowSumMonotone(init, pred, pred', a, b);
      assert last in paths;
      TimesNonNegative(last.instances, PairCount(last.nodes, a, b));
    }
  }

  /** Steps with non-negative instances total a non-negative amount for every key. */
  lemma {:induction false} KeyTotalNonNegative(steps: seq<Step>, key: string)
    requires forall j :: 0 <= j < |steps| ==> steps[j].instances >= 0.0
    ensures KeyTotal(steps, key) >= 0.0
  {
    if steps != [] {
      var init := steps[..|steps| - 1];
      assert forall j :: 0 <= j < |init| ==> init[j] == steps[j];
      KeyTotalNonNegative(init, key);
    }
  }

  /**
   * With non-negative instances, the steps of the paths that a predicate accepts total no more,
   * for any key, than those of a predicate that accepts at least those paths, and no less than 0.
   */
  lemma {:induction false} StepsKeyTotalMonotone(paths: seq<PathData>, pred: seq<string> -> bool, pred': seq<string> -> bool, key: string)
    requires forall p :: p in paths ==> p.instances >= 0.0
    requires forall p :: p in paths && pred(p.nodes) ==> pred'(p.nodes)
    ensures 0.0 <= KeyTotal(Steps(paths, pred), key) <= KeyTotal(Steps(paths, pred'), key)
  {
    if paths != [] {
      var init, last := paths[..|paths| - 1], paths[|paths| - 1];
      assert forall p :: p in init ==> p in paths;
      assert last in paths;
      StepsKeyTotalMonotone(init, pred, pred', key);
      var own := PathSteps(last.nodes, last.instances);
      KeyTotalNonNegative(own, key);
      var x := if pred(last.nodes) then own else [];
      var x' := if pred'(last.nodes) then own else [];
      KeyTotalAppend(Steps(init, pred), x, key);
      KeyTotalAppend(Steps(init, pred'), x', key);
    }
  }

  /** With non-negative instances, a link's highlighted value is between 0 and its full value. */
  lemma HighlightWithinLink(input: SSData, selected: set<string>, i: nat)
    requires forall p :: p in input.paths ==> p.instances >= 0.0
    requires i < |Aggregate(input, AlwaysTrue())|
    ensures 0.0 <= HighlightedValue(Highlight(input, selected), Aggregate(input, AlwaysTrue())[i].sourceId, Aggregate(input, AlwaysTrue())[i].targetId)
      <= Aggregate(input, AlwaysTrue())[i].value
  {
    var links := Aggregate(input, AlwaysTrue());
    var colors := ColorTable(input.colorConfig);
    var steps := Steps(input.paths, AlwaysTrue());
    var t := Acc(colors, steps);
    var key := t.order[i];
    assert links[i] == t.entries[key];
    assert LinkKey(links[i].sourceId, links[i].targetId) == key;
    AccValue(colors, steps);
    StepsKeyTotalMonotone(input.paths, AlwaysTrue(), AlwaysTrue(), key);
    if selected != {} {
      HighlightIsKeyTotal(input, selected, key);
      StepsKeyTotalMonotone(input.paths, ContainsAll(selected), AlwaysTrue(), key);
    }
  }

  // ---------------------------------------------------------------------------
  // generateData.

  /** The links as serialized links: every one keeps its colour. */
  function SerializedLinks(links: seq<LinkData>): (r: seq<Types.SerializedLink>)
    ensures |r| == |links|
    ensures forall k :: 0 <= k < |links| ==> r[k] == Types.SerializedLink(links[k].sourceId, links[k].targetId, links[k].value, Some(links[k].color))
  {
    seq(|links|, k requires 0 <= k < |links| => Types.SerializedLink(links[k].sourceId, links[k].targetId, links[k].value, Some(links[k].color)))
  }

  /** What `generateData` returns: all paths aggregated, their node list, and the saved positions passed through. */
  function Generated(input: SSData): GeneratedData {
    var links := Aggregate(input, AlwaysTrue());
    GeneratedData(Types.SerializedData(NodeList(links), SerializedLinks(links)), input.nodePositions)
  }

  /** `generateData`: aggregates every path, then derives the nodes from the links. */
  method GenerateData(input: SSData) returns (g: GeneratedData)
    ensures g == Generated(input)
  {
    var links := GenerateLinks(input, AlwaysTrue());
    var nodes := GetNodesFromLinks(links);
    g := GeneratedData(Types.SerializedData(nodes, SerializedLinks(links)), input.nodePositions);
  }

  /** The validator sees the same endpoints in the serialized links as the node list was built from. */
  lemma {:induction false} SerializedEndpoints(links: seq<LinkData>)
    ensures Types.LinkEndpoints(SerializedLinks(links)) == Endpoints(links)
  {
    if links != [] {
      var init := links[..|links| - 1];
      assert SerializedLinks(links)[..|links| - 1] == SerializedLinks(init);
      SerializedEndpoints(init);
    }
  }

  /** The node list's ids, as the validator normalises them, are the first-seen endpoints. */
  lemma NodeListIds(links: seq<LinkData>)
    ensures Types.NodeIds(NodeList(links)) == FirstSeen(Endpoints(links))
  {
  }

  /**
   * What `generateData` produces always passes validation: its node ids are distinct and every link
   * endpoint is one of them; validation keeps the links' colours (they are never empty).
   */
  lemma GeneratedDataIsValid(input: SSData)
    ensures Types.FullData(Generated(input).data).Success?
    ensures |Types.FullData(Generated(input).data).value.links| == |Aggregate(input, AlwaysTrue())|
    ensures forall k :: 0 <= k < |Aggregate(input, AlwaysTrue())| ==>
      Types.FullData(Generated(input).data).value.links[k].color == Aggregate(input, AlwaysTrue())[k].color
  {
    GeneratedDataPasses(input);
    Types.FullDataSuccess(Generated(input).data);
    AggregateColor(input, AlwaysTrue());
  }

  /** The nodes `generateData` derives have distinct ids and cover every link endpoint, so validation passes. */
  lemma GeneratedDataPasses(input: SSData)
    ensures Distinct(Types.NodeIds(Generated(input).data.nodes))
    ensures forall x :: x in Types.LinkEndpoints(Generated(input).data.links) ==> x in Types.NodeIds(Generated(input).data.nodes)
    ensures Types.FullData(Generated(input).data).Success?
  {
    var links := Aggregate(input, AlwaysTrue());
    var sd := Generated(input).data;
    NodeListIds(links);
    SerializedEndpoints(links);
    assert Distinct(Types.NodeIds(sd.nodes));
    assert forall x :: x in Types.LinkEndpoints(sd.links) ==> x in Types.NodeIds(sd.nodes);
    Types.FullDataDuplicate(sd);
    Types.FullDataMissing(sd);
  }
}
