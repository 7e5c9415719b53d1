/**
 * The JavaScript array operations the game relies on, over Dafny sequences:
 * `indexOf`, `splice(i, 1)` after an `indexOf` (the way both `removeTarget`
 * and three.js's `Object3D.remove` drop one child), and the filtering a ray
 * query performs over the live-target array.
 */
module Seqs {

  import opened Wrappers

  /** `Array.prototype.indexOf`: the first position holding `x`, or -1. */
  function IndexOf<T(==)>(s: seq<T>, x: T): (i: int)
    ensures -1 <= i < |s|
    ensures i == -1 <==> x !in s
    ensures 0 <= i ==> s[i] == x && x !in s[..i]
  {
    if s == [] then -1
    else if s[0] == x then 0
    else
      var j := IndexOf(s[1..], x);
      if j == -1 then -1
      else
        assert s[..j + 1] == [s[0]] + s[1..][..j];
        j + 1
  }

  /**
   * `s` without its first occurrence of `x` (`indexOf` followed by
   * `splice(index, 1)` when the index is not -1).
   */
  function RemoveFirst<T(==)>(s: seq<T>, x: T): (r: seq<T>)
    ensures x !in s ==> r == s
    ensures x in s ==> |r| == |s| - 1
    ensures multiset(r) == multiset(s) - multiset{x}
  {
    var i := IndexOf(s, x);
    if i == -1 then s
    else
      assert s == s[..i] + [s[i]] + s[i + 1..];
      s[..i] + s[i + 1..]
  }

  /**
   * The members of `s` that lie in `keep`, in their order in `s`: what a
   * ray query returns when `keep` is the set of objects the ray meets.
   */
  function KeepIn<T>(s: seq<T>, keep: set<T>): (r: seq<T>)
    ensures |r| <= |s|
    ensures forall i :: 0 <= i < |r| ==> r[i] in s && r[i] in keep
    ensures forall i :: 0 <= i < |s| && s[i] in keep ==> s[i] in r
  {
    if s == [] then []
    else (if s[0] in keep then [s[0]] else []) + KeepIn(s[1..], keep)
  }

  /** No element occurs twice. */
  predicate Distinct<T(==)>(s: seq<T>)
  {
    forall i, j :: 0 <= i < j < |s| ==> s[i] != s[j]
  }

  /** The elements at the odd positions 1, 3, ..., 2k - 1 of `s`, in order. */
  function OddsUpTo<T>(s: seq<T>, k: nat): (r: seq<T>)
    requires 2 * k <= |s|
    ensures |r| == k
    ensures forall i :: 0 <= i < k ==> r[i] == s[2 * i + 1]
  {
    if k == 0 then [] else OddsUpTo(s, k - 1) + [s[2 * k - 1]]
  }

  /** The elements at the even positions 0, 2, ..., 2k - 2 of `s`, in order. */
  function EvensUpTo<T>(s: seq<T>, k: nat): (r: seq<T>)
    requires 2 * k <= |s| + 1
    ensures |r| == k
    ensures forall i :: 0 <= i < k ==> r[i] == s[2 * i]
  {
    if k == 0 then [] else EvensUpTo(s, k - 1) + [s[2 * k - 2]]
  }

  /** Taking one more odd position moves `s[2k + 1]` from the rest onto the odd prefix. */
  lemma OddsShift<T>(s: seq<T>, k: nat)
    requires 2 * k + 2 <= |s|
    ensures OddsUpTo(s, k) + s[2 * k + 1..] == OddsUpTo(s, k + 1) + s[2 * k + 2..]
  {
    var front := OddsUpTo(s, k);
    var x := s[2 * k + 1];
    var rest := s[2 * k + 2..];
    assert s[2 * k + 1..] == [x] + rest;
    assert front + ([x] + rest) == (front + [x]) + rest;
  }

  /** Taking one more even position adds `s[2k]` to the even prefix. */
  lemma EvensShift<T>(s: seq<T>, k: nat)
    requires 2 * k < |s|
    ensures multiset(EvensUpTo(s, k + 1)) == multiset(EvensUpTo(s, k)) + multiset{s[2 * k]}
  {
    assert EvensUpTo(s, k + 1) == EvensUpTo(s, k) + [s[2 * k]];
  }

  /** Taking away `b` and then `c` takes away `b + c`. */
  lemma SubtractTwice<T>(a: multiset<T>, b: multiset<T>, c: multiset<T>)
    ensures (a - b) - c == a - (b + c)
  {
  }

  /** Taking away equal sequences leaves equal multisets. */
  lemma SubtractSame<T>(whole: multiset<T>, x: seq<T>, y: seq<T>)
    requires x == y
    ensures whole - multiset(x) == whole - multiset(y)
  {
  }

  /**
   * Taking `s[2k]` away from what is left once the even prefix of length `k`
   * is gone leaves what is left once the even prefix of length `k + 1` is.
   */
  lemma SubtractNextEven<T>(s: seq<T>, k: nat, whole: multiset<T>, before: multiset<T>, after: multiset<T>)
    requires 2 * k < |s|
    requires before == whole - multiset(EvensUpTo(s, k))
    requires after == before - multiset{s[2 * k]}
    ensures after == whole - multiset(EvensUpTo(s, k + 1))
  {
    EvensShift(s, k);
    SubtractTwice(whole, multiset(EvensUpTo(s, k)), multiset{s[2 * k]});
  }

  /** Once the odd prefix reaches the end of `s`, nothing is left after it. */
  lemma OddsReachEnd<T>(s: seq<T>, m: nat, from: nat)
    requires 2 * m <= from == |s|
    ensures OddsUpTo(s, m) + s[from..] == OddsUpTo(s, m)
  {
    assert s[from..] == [];
  }

  /**
   * A scene after showing `next` in place of `prev`: the previous object,
   * when there is one, leaves the scene and `next` is added at the end.
   */
  function Swapped<T(==)>(scene: seq<T>, prev: Option<T>, next: T): (r: seq<T>)
    ensures |r| > 0 && r[|r| - 1] == next
    ensures prev.None? ==> r[..|r| - 1] == scene
    ensures prev.Some? && prev.value !in scene ==> r[..|r| - 1] == scene
  {
    var kept := if prev.Some? then RemoveFirst(scene, prev.value) else scene;
    assert (kept + [next])[..|kept|] == kept;
    kept + [next]
  }

  /** Removing the previous object and then appending `next`, step by step, is `Swapped`. */
  lemma SwappedInSteps<T>(scene: seq<T>, prev: Option<T>, kept: seq<T>, next: T)
    requires kept == if prev.Some? then RemoveFirst(scene, prev.value) else scene
    ensures kept + [next] == Swapped(scene, prev, next)
  {
  }

  /** Swapping takes one occurrence of the previous object out of the scene and adds one of `next`. */
  lemma SwappedCounts<T>(scene: seq<T>, prev: Option<T>, next: T)
    ensures prev.Some? ==>
              multiset(Swapped(scene, prev, next)) == multiset(scene) - multiset{prev.value} + multiset{next}
    ensures prev.None? ==> multiset(Swapped(scene, prev, next)) == multiset(scene) + multiset{next}
  {
  }

  /** When `x` first occurs at `k`, `RemoveFirst` cuts out exactly position `k`. */
  lemma RemoveFirstAt<T>(s: seq<T>, x: T, k: nat)
    requires k < |s| && s[k] == x && x !in s[..k]
    ensures RemoveFirst(s, x) == s[..k] + s[k + 1..]
  {
  }

  /**
   * In a sequence without repeats, `s[2k]` does not occur among the odd
   * positions before it, so removing its first occurrence from the odd
   * prefix followed by `s[2k..]` drops exactly it.
   */
  lemma RemoveFirstAfterOdds<T>(s: seq<T>, k: nat)
    requires Distinct(s) && 2 * k < |s|
    ensures RemoveFirst(OddsUpTo(s, k) + s[2 * k..], s[2 * k]) == OddsUpTo(s, k) + s[2 * k + 1..]
  {
    var x := s[2 * k];
    var front := OddsUpTo(s, k);
    var t := front + s[2 * k..];
    assert t[..k] == front;
    assert x !in front by {
      forall i | 0 <= i < k ensures front[i] != x {
        assert front[i] == s[2 * i + 1];
      }
    }
    RemoveFirstAt(t, x, k);
    assert t[k + 1..] == s[2 * k + 1..];
  }
}
