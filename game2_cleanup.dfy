/**
 * What the `forEach` pass of `cleanup` in game2.js does to an array it
 * splices while iterating: over distinct targets, it removes exactly those
 * at even starting positions and leaves the odd ones listed.
 */
module Game2Cleanup {

  import opened Seqs
  import opened Game2Targets
  import opened Game2Session

  /**
   * `r` is what the splicing `forEach` of `cleanup` leaves after its first
   * `k` visits over the distinct targets of `s`: the entries that started at
   * positions 0, 2, ..., 2k - 2 are gone from the scene, and the array holds
   * those that started at 1, 3, ..., 2k - 1 followed by the untouched rest.
   */
  predicate HalfCleared(s: Session, k: nat, r: Session)
    requires 2 * k <= |s.targets|
  {
    && r.targets == OddsUpTo(s.targets, k) + s.targets[2 * k..]
    && multiset(r.scene) == multiset(s.scene) - multiset(EvensUpTo(s.targets, k))
  }

  /**
   * `r` is what the `forEach` leaves once it has passed the middle of the
   * distinct targets of `s`, `m` of which sit at odd positions and `e` at
   * even ones: the entries that started at even positions are gone from the
   * scene, and the array holds exactly those that started at odd positions.
   */
  predicate FullyCleared(s: Session, m: nat, e: nat, r: Session)
    requires m + e == |s.targets| && 2 * m <= |s.targets| <= 2 * m + 1
  {
    && r.targets == OddsUpTo(s.targets, m)
    && multiset(r.scene) == multiset(s.scene) - multiset(EvensUpTo(s.targets, e))
  }

  /** Before the first visit nothing is removed. */
  lemma HalfClearedAtStart(s: Session)
    ensures HalfCleared(s, 0, s)
  {
    assert s.targets[0..] == s.targets;
  }

  /** Visit `k` meets `a[2k]` when the array holds the odd-position entries before `a[2k..]`. */
  lemma VisitMeets(cur: Session, a: seq<Target>, k: nat)
    requires 2 * k < |a| && cur.targets == OddsUpTo(a, k) + a[2 * k..]
    ensures ForEachStep(cur, k) == Removed(cur, a[2 * k])
  {
    assert cur.targets[k] == a[2 * k];
  }

  /**
   * Visit `k` of the `forEach`, on an array holding the odd-position entries
   * of the distinct `a` before `a[2k..]`, removes `a[2k]` from the array and
   * from the scene.
   */
  lemma VisitNext(cur: Session, a: seq<Target>, k: nat)
    requires Distinct(a) && 2 * k < |a|
    requires cur.targets == OddsUpTo(a, k) + a[2 * k..]
    ensures ForEachStep(cur, k).targets == OddsUpTo(a, k) + a[2 * k + 1..]
    ensures multiset(ForEachStep(cur, k).scene) == multiset(cur.scene) - multiset{a[2 * k]}
  {
    VisitMeets(cur, a, k);
    RemoveFirstAfterOdds(a, k);
    RemovedDropsOne(cur, a[2 * k]);
  }

  /** One more visit, while the array still reaches the next odd entry, keeps the description. */
  lemma VisitKeepsHalfCleared(s: Session, k: nat, cur: Session)
    requires Distinct(s.targets) && 2 * k + 2 <= |s.targets|
    requires HalfCleared(s, k, cur)
    ensures HalfCleared(s, k + 1, ForEachStep(cur, k))
  {
    var a := s.targets;
    VisitNext(cur, a, k);
    OddsShift(a, k);
    SubtractNextEven(a, k, multiset(s.scene), multiset(cur.scene), multiset(ForEachStep(cur, k).scene));
  }

  /** With an even number of targets, the first half of the visits clears the array's even entries. */
  lemma EvenHalfCleared(s: Session, m: nat, e: nat, cur: Session)
    requires 2 * m == |s.targets| && e == m && HalfCleared(s, e, cur)
    ensures FullyCleared(s, m, e, cur)
  {
    OddsReachEnd(s.targets, e, 2 * e);
  }

  /** With an odd number of targets, one visit past the first half removes the last even entry. */
  lemma OddLastVisit(s: Session, m: nat, e: nat, cur: Session)
    requires Distinct(s.targets) && 2 * m + 1 == |s.targets| && e == m + 1 && HalfCleared(s, m, cur)
    ensures FullyCleared(s, m, e, ForEachStep(cur, m))
  {
    var a := s.targets;
    VisitNext(cur, a, m);
    OddsReachEnd(a, m, 2 * m + 1);
    SubtractNextEven(a, m, multiset(s.scene), multiset(cur.scene), multiset(ForEachStep(cur, m).scene));
    SubtractSame(multiset(s.scene), EvensUpTo(a, m + 1), EvensUpTo(a, e));
  }

  /** A visit at a position the shortened array no longer reaches changes nothing. */
  lemma VisitPastEnd(s: Session, m: nat, e: nat, k: nat, cur: Session)
    requires m + e == |s.targets| && 2 * m <= |s.targets| <= 2 * m + 1 && m <= k
    requires FullyCleared(s, m, e, cur)
    ensures FullyCleared(s, m, e, ForEachStep(cur, k))
  {
  }

  /** `RemoveEach` takes its visits one at a time. */
  lemma RemoveEachNext(s: Session, k: nat)
    ensures RemoveEach(s, k + 1) == ForEachStep(RemoveEach(s, k), k)
  {
  }

  /** From visit `k` on, while the array still reaches position `n`, the description carries forward. */
  lemma {:induction false} RemoveEachHalfClears(s: Session, k: nat, n: nat)
    requires Distinct(s.targets) && k <= n && 2 * n <= |s.targets|
    requires HalfCleared(s, k, RemoveEach(s, k))
    ensures HalfCleared(s, n, RemoveEach(s, n))
    decreases n - k
  {
    if k < n {
      RemoveEachNext(s, k);
      VisitKeepsHalfCleared(s, k, RemoveEach(s, k));
      RemoveEachHalfClears(s, k + 1, n);
    }
  }

  /** Once past the middle, the remaining visits up to `n` keep the array and the scene as they are. */
  lemma {:induction false} RemoveEachStaysCleared(s: Session, m: nat, e: nat, k: nat, n: nat)
    requires m + e == |s.targets| && 2 * m <= |s.targets| <= 2 * m + 1 && m <= k <= n
    requires FullyCleared(s, m, e, RemoveEach(s, k))
    ensures FullyCleared(s, m, e, RemoveEach(s, n))
    decreases n - k
  {
    if k < n {
      RemoveEachNext(s, k);
      VisitPastEnd(s, m, e, k, RemoveEach(s, k));
      RemoveEachStaysCleared(s, m, e, k + 1, n);
    }
  }

  /** With an even number of targets, every even entry is gone after the first half of the visits. */
  lemma RemoveEachClearsEvenHalf(s: Session, m: nat, e: nat)
    requires Distinct(s.targets) && 2 * m == |s.targets| && e == m
    ensures FullyCleared(s, m, e, RemoveEach(s, e))
  {
    HalfClearedAtStart(s);
    RemoveEachHalfClears(s, 0, e);
    EvenHalfCleared(s, m, e, RemoveEach(s, e));
  }

  /** With an odd number of targets, every even entry is gone after the first half of the visits, rounded up. */
  lemma RemoveEachClearsOddHalf(s: Session, m: nat, e: nat)
    requires Distinct(s.targets) && 2 * m + 1 == |s.targets| && e == m + 1
    ensures FullyCleared(s, m, e, RemoveEach(s, m + 1))
  {
    HalfClearedAtStart(s);
    RemoveEachHalfClears(s, 0, m);
    RemoveEachNext(s, m);
    OddLastVisit(s, m, e, RemoveEach(s, m));
  }

  /**
   * The splicing `forEach` of `cleanup` over distinct targets removes
   * exactly those that start at the even positions 0, 2, 4, ... of the
   * array, from the array and from the scene; those at the odd positions
   * stay listed, in order.
   */
  lemma RemoveEachRemovesEvens(s: Session)
    requires Distinct(s.targets)
    ensures RemoveEach(s, |s.targets|).targets == OddsUpTo(s.targets, |s.targets| / 2)
    ensures multiset(RemoveEach(s, |s.targets|).scene)
              == multiset(s.scene) - multiset(EvensUpTo(s.targets, (|s.targets| + 1) / 2))
  {
    var n := |s.targets|;
    var m := n / 2;
    var e := (n + 1) / 2;
    if 2 * m == n {
      RemoveEachClearsEvenHalf(s, m, e);
      RemoveEachStaysCleared(s, m, e, e, n);
    } else {
      RemoveEachClearsOddHalf(s, m, e);
      RemoveEachStaysCleared(s, m, e, m + 1, n);
    }
  }
}
