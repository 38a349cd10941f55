/** Facts about sequences used to state first-seen order and uniqueness. */
module Seqs {
  import opened Common

  /** No element of `xs` occurs twice. */
  ghost predicate Distinct<T>(xs: seq<T>) {
    forall i, j :: 0 <= i < j < |xs| ==> xs[i] != xs[j]
  }

  /** The position of the first occurrence of `x` in `xs`. */
  function FirstIndex<T(==)>(xs: seq<T>, x: T): (k: nat)
    requires x in xs
    ensures k < |xs| && xs[k] == x && x !in xs[..k]
  {
    if xs[0] == x then 0
    else
      var k := 1 + FirstIndex(xs[1..], x);
      assert xs[..k] == [xs[0]] + xs[1..][..k - 1];
      k
  }

  /** A position where `x` occurs and before which it does not is the first one. */
  lemma FirstIndexIs<T>(xs: seq<T>, x: T, k: nat)
    requires k < |xs| && xs[k] == x && x !in xs[..k]
    ensures FirstIndex(xs, x) == k
  {
    var f := FirstIndex(xs, x);
  }

  /** Appending to a sequence does not move the first occurrence of what was already there. */
  lemma FirstIndexAppend<T>(xs: seq<T>, ys: seq<T>, x: T)
    requires x in xs
    ensures x in xs + ys && FirstIndex(xs + ys, x) == FirstIndex(xs, x)
  {
    var k := FirstIndex(xs, x);
    assert (xs + ys)[..k] == xs[..k];
    FirstIndexIs(xs + ys, x, k);
  }

  /** The elements of `xs`, each kept at its first occurrence only (the iteration order of a JavaScript Set). */
  function FirstSeen<T(==,!new)>(xs: seq<T>): (r: seq<T>)
    ensures forall x :: x in r <==> x in xs
    ensures Distinct(r)
  {
    if xs == [] then []
    else
      var r := FirstSeen(xs[..|xs| - 1]);
      assert forall x :: x in xs <==> x in xs[..|xs| - 1] || x == xs[|xs| - 1] by {
        assert xs == xs[..|xs| - 1] + [xs[|xs| - 1]];
      }
      if xs[|xs| - 1] in r then r else r + [xs[|xs| - 1]]
  }

  /** Appending an element adds it to FirstSeen unless it was already seen. */
  lemma FirstSeenSnoc<T(!new)>(xs: seq<T>, x: T)
    ensures FirstSeen(xs + [x]) == if x in FirstSeen(xs) then FirstSeen(xs) else FirstSeen(xs) + [x]
  {
    assert (xs + [x])[..|xs|] == xs;
  }

  /** FirstSeen lists the distinct elements in the order of their first occurrence. */
  lemma {:induction false} FirstSeenOrder<T(!new)>(xs: seq<T>)
    ensures forall i, j :: 0 <= i < j < |FirstSeen(xs)| ==>
      FirstIndex(xs, FirstSeen(xs)[i]) < FirstIndex(xs, FirstSeen(xs)[j])
  {
    if xs != [] {
      var init, last := xs[..|xs| - 1], xs[|xs| - 1];
      assert xs == init + [last];
      FirstSeenOrder(init);
      var r := FirstSeen(init);
      forall x | x in init ensures FirstIndex(xs, x) == FirstIndex(init, x) {
        FirstIndexAppend(init, [last], x);
      }
      if last !in r {
        assert last !in init;
        FirstIndexIs(xs, last, |init|);
        forall i | 0 <= i < |r| ensures FirstIndex(xs, r[i]) < |init| {
          assert r[i] in init;
        }
      }
    }
  }

  /** The position of the first element that repeats an earlier one (a JavaScript Set grown element by element). */
  function FirstRepeat<T(==)>(xs: seq<T>): (r: Option<nat>)
    ensures r.None? <==> Distinct(xs)
    ensures r.Some? ==> r.value < |xs| && xs[r.value] in xs[..r.value] && Distinct(xs[..r.value])
  {
    if xs == [] then None
    else
      var init := xs[..|xs| - 1];
      assert xs[..|xs| - 1] == init;
      var r := FirstRepeat(init);
      if r.Some? then
        assert xs[..r.value] == init[..r.value];
        r
      else if xs[|xs| - 1] in init then
        Some(|xs| - 1)
      else
        assert Distinct(xs) by {
          forall i, j | 0 <= i < j < |xs| ensures xs[i] != xs[j] {
            if j < |xs| - 1 { assert xs[i] == init[i] && xs[j] == init[j]; }
            else { assert xs[i] in init; }
          }
        }
        None
  }

  /** The repeat found by FirstRepeat is the first one: no shorter prefix has one. */
  lemma FirstRepeatIs<T>(xs: seq<T>, k: nat)
    requires k < |xs| && xs[k] in xs[..k] && Distinct(xs[..k])
    ensures FirstRepeat(xs) == Some(k)
  {
    var r := FirstRepeat(xs);
    assert !Distinct(xs) by {
      var i :| 0 <= i < k && xs[..k][i] == xs[k];
      assert xs[i] == xs[k];
    }
  }

  /** The position of the first element of `xs` that is not in `s`. */
  function FirstOutside<T(==,!new)>(xs: seq<T>, s: set<T>): (r: Option<nat>)
    ensures r.None? <==> forall x :: x in xs ==> x in s
    ensures r.Some? ==> r.value < |xs| && xs[r.value] !in s && forall x :: x in xs[..r.value] ==> x in s
  {
    if xs == [] then None
    else if xs[0] !in s then
      assert xs[..0] == [];
      Some(0)
    else
      var r := FirstOutside(xs[1..], s);
      assert forall x :: x in xs <==> x == xs[0] || x in xs[1..] by {
        assert xs == [xs[0]] + xs[1..];
      }
      if r.None? then None
      else
        assert xs[..r.value + 1] == [xs[0]] + xs[1..][..r.value];
        Some(r.value + 1)
  }

  /** A member outside `s` before which everything is in `s` is the one FirstOutside finds. */
  lemma FirstOutsideIs<T(!new)>(xs: seq<T>, s: set<T>, k: nat)
    requires k < |xs| && xs[k] !in s && forall x :: x in xs[..k] ==> x in s
    ensures FirstOutside(xs, s) == Some(k)
  {
    var r := FirstOutside(xs, s);
    assert xs[k] in xs;
  }

  /** When `p + e` is a prefix of `f`, the slice of `f` from `i` = |p| to `j` = |p| + |e| is `e`. */
  lemma SliceOfPrefix<T>(f: seq<T>, p: seq<T>, e: seq<T>, i: nat, j: nat)
    requires p + e <= f && i == |p| && j == |p| + |e|
    ensures i <= j <= |f| && f[i..j] == e
  {
    assert forall n :: 0 <= n < |e| ==> f[i + n] == (p + e)[i + n] == e[n];
  }

  /** A new array holding the elements of `s`. */
  method ToArray<T>(s: seq<T>) returns (a: array<T>)
    ensures fresh(a) && a[..] == s
  {
    a := new T[|s|](i requires 0 <= i < |s| => s[i]);
  }
}
