/**
 * Display labels: a node's id with its bracketed annotation removed, as
 * `id.replace(/\s*\[.*\]/g, "")` does in JavaScript. A match is a run of white space,
 * a '[', then as many characters as possible up to the last ']' before the next line
 * terminator (`.` does not match line terminators); matching is leftmost and global.
 */
module Labels {
  import opened Common

  /** JavaScript's `\s` class: white space and line terminators. */
  predicate IsSpace(c: char) {
    || c == ' ' || c == '\t' || c == '\n' || c == '\U{000B}' || c == '\U{000C}' || c == '\r'
    || c == '\U{00A0}' || c == '\U{1680}' || ('\U{2000}' <= c <= '\U{200A}')
    || c == '\U{2028}' || c == '\U{2029}' || c == '\U{202F}' || c == '\U{205F}'
    || c == '\U{3000}' || c == '\U{FEFF}'
  }

  /** The characters JavaScript's `.` does not match. */
  predicate IsLineTerminator(c: char) {
    c == '\n' || c == '\r' || c == '\U{2028}' || c == '\U{2029}'
  }

  /** Where the line that position `k` is on ends: the first line terminator at or after `k`, or the end of `s`. */
  function LineEnd(s: string, k: nat): (e: nat)
    decreases |s| - k
    ensures k <= e && (k <= |s| ==> e <= |s|)
    ensures forall i :: k <= i < e ==> i < |s| && !IsLineTerminator(s[i])
    ensures e < |s| ==> IsLineTerminator(s[e])
  {
    if k >= |s| || IsLineTerminator(s[k]) then k else LineEnd(s, k + 1)
  }

  /** The last ']' at or after `k` that comes before the next line terminator: where `.*\]` ends. */
  function LastClose(s: string, k: nat): (r: Option<nat>)
    decreases |s| - k
    ensures r.Some? ==> k <= r.value < LineEnd(s, k) && s[r.value] == ']'
    ensures r.Some? ==> forall i :: r.value < i < LineEnd(s, k) ==> s[i] != ']'
    ensures r.None? ==> forall i :: k <= i < LineEnd(s, k) ==> s[i] != ']'
  {
    if k >= |s| || IsLineTerminator(s[k]) then None
    else
      match LastClose(s, k + 1)
      case Some(e) => Some(e)
      case None => if s[k] == ']' then Some(k) else None
  }

  /** Position `i` holds a '[' that some later ']' on its line closes: where a match of the regex can begin its bracket. */
  predicate Closable(s: string, i: nat) {
    i < |s| && s[i] == '[' && LastClose(s, i + 1).Some?
  }

  /** The first '[' at or after `k` that some ']' later on its line closes. */
  function FirstOpen(s: string, k: nat): (r: Option<nat>)
    decreases |s| - k
    ensures r.Some? ==> k <= r.value < |s| && Closable(s, r.value)
    ensures r.Some? ==> forall i :: k <= i < r.value ==> !Closable(s, i)
    ensures r.None? ==> forall i :: k <= i < |s| ==> !Closable(s, i)
  {
    if k >= |s| then None
    else if s[k] == '[' && LastClose(s, k + 1).Some? then Some(k)
    else FirstOpen(s, k + 1)
  }

  /** Where the run of white space that ends just before `q` begins: where `\s*` starts. */
  function SpaceStart(s: string, q: nat): (p: nat)
    requires q <= |s|
    ensures p <= q && forall i :: p <= i < q ==> IsSpace(s[i])
    ensures p == 0 || !IsSpace(s[p - 1])
  {
    if q == 0 || !IsSpace(s[q - 1]) then q else SpaceStart(s, q - 1)
  }

  /** The display label of a node id: every match removed, scanning on from the end of each match. */
  function Label(id: string): (text: string)
    decreases |id|
    ensures |text| <= |id|
  {
    match FirstOpen(id, 0)
    case None => id
    case Some(q) =>
      var e := LastClose(id, q + 1).value;
      id[..SpaceStart(id, q)] + Label(id[e + 1..])
  }

  /** With no '[' before `q`, the search for an opening bracket starting at `k` goes straight on to `q`. */
  lemma {:induction false} FirstOpenSkips(s: string, k: nat, q: nat)
    requires k <= q <= |s|
    requires forall i :: k <= i < q ==> s[i] != '['
    ensures FirstOpen(s, k) == FirstOpen(s, q)
    decreases q - k
  {
    if k < q {
      FirstOpenSkips(s, k + 1, q);
    }
  }

  /** A line that runs on to a final ']' is closed by that ']'. */
  lemma {:induction false} LastCloseAtEnd(s: string, k: nat)
    requires k < |s| && s[|s| - 1] == ']'
    requires forall i :: k <= i < |s| ==> !IsLineTerminator(s[i])
    ensures LastClose(s, k) == Some(|s| - 1)
    decreases |s| - k
  {
    if k + 1 < |s| {
      LastCloseAtEnd(s, k + 1);
    }
  }

  /** An id without '[' is its own label. */
  lemma {:induction false} LabelWithoutBracket(id: string)
    requires '[' !in id
    ensures Label(id) == id
  {
    FirstOpenSkips(id, 0, |id|);
  }

  /**
   * A trailing " [note]" annotation on one line is stripped: the label is the part before it,
   * provided that part has no '[' and does not itself end in white space.
   */
  lemma LabelStripsAnnotation(base: string, note: string)
    requires '[' !in base
    requires base == [] || !IsSpace(base[|base| - 1])
    requires forall i :: 0 <= i < |note| ==> !IsLineTerminator(note[i])
    ensures Label(base + ([' ', '['] + note + [']'])) == base
  {
    var rest := [' ', '['] + note + [']'];
    var s := base + rest;
    var q := |base| + 1;
    assert s[q] == '[' && s[q - 1] == ' ' && s[|s| - 1] == ']';
    NoOpenBefore(base, rest);
    AnnotationOnOneLine(base, note);
    LabelOfSingleMatch(s, |base|);
    PrefixOfAppend(base, rest);
  }

  /**
   * When the only '[' at or before position `p + 1` is there, preceded by one space that follows a
   * non-space, and everything after it up to a final ']' is on one line, the label is `s[..p]`.
   */
  lemma LabelOfSingleMatch(s: string, p: nat)
    requires p + 2 < |s| && s[p] == ' ' && s[p + 1] == '[' && s[|s| - 1] == ']'
    requires p == 0 || !IsSpace(s[p - 1])
    requires forall i :: 0 <= i <= p ==> s[i] != '['
    requires forall i :: p + 2 <= i < |s| ==> !IsLineTerminator(s[i])
    ensures Label(s) == s[..p]
  {
    LastCloseAtEnd(s, p + 2);
    FirstOpenSkips(s, 0, p + 1);
    assert FirstOpen(s, 0) == Some(p + 1);
    assert SpaceStart(s, p) == p;
    assert SpaceStart(s, p + 1) == p;
    assert s[|s|..] == [];
  }

  lemma NoOpenBefore(base: string, rest: string)
    requires '[' !in base && |rest| > 0 && rest[0] == ' '
    ensures forall i :: 0 <= i <= |base| ==> (base + rest)[i] != '['
  {
    forall i | 0 <= i <= |base| ensures (base + rest)[i] != '[' {
      if i < |base| {
        assert (base + rest)[i] == base[i];
        assert base[i] in base;
      } else {
        assert (base + rest)[i] == rest[0];
      }
    }
  }

  lemma AnnotationOnOneLine(base: string, note: string)
    requires forall i :: 0 <= i < |note| ==> !IsLineTerminator(note[i])
    ensures forall i :: |base| + 2 <= i < |base| + |note| + 3 ==> !IsLineTerminator((base + ([' ', '['] + note + [']']))[i])
  {
    var s := base + ([' ', '['] + note + [']']);
    forall i | |base| + 2 <= i < |s| ensures !IsLineTerminator(s[i]) {
      if i < |s| - 1 { assert s[i] == note[i - |base| - 2]; }
    }
  }

  lemma PrefixOfAppend(a: string, b: string)
    ensures (a + b)[..|a|] == a
  {
  }

  /** "Checkout [drop]" is shown as "Checkout". */
  lemma CheckoutLabel()
    ensures Label("Checkout [drop]") == "Checkout"
  {
    assert "Checkout" + ([' ', '['] + "drop" + [']']) == "Checkout [drop]";
    assert '[' !in "Checkout" && !IsSpace("Checkout"[7]) by {
      assert forall i :: 0 <= i < 8 ==> "Checkout"[i] != '[';
    }
    assert forall i :: 0 <= i < 4 ==> !IsLineTerminator("drop"[i]);
    LabelStripsAnnotation("Checkout", "drop");
  }
}
