/**
 * The ranking that `endGame` in game/game.js keeps under the storage key
 * "gameRanking": read the stored list (a missing key or a falsy stored
 * value reads as the empty list), push the finished session, sort by
 * descending score with `Array.prototype.sort`, and store the first ten
 * entries.
 *
 * Section 23.1.3.30 of ECMA-262 (ES2023) requires that sort to be stable,
 * and the comparator `(a, b) => b.score - a.score` orders by descending
 * score. `SortByScore` is one stable sort (insertion from the back);
 * `StableSortIsUnique` shows that every sorted, tie-order-preserving
 * arrangement equals it, so the result does not depend on which algorithm
 * the engine runs.
 */
module Ranking {

  import opened Wrappers

  /** One stored result: `{name, score, hits}`. */
  datatype Entry = Entry(name: string, score: int, hits: int)

  /** How many entries survive `slice(0, 10)`. */
  const MaxEntries: nat := 10

  /**
   * `JSON.parse(localStorage.getItem("gameRanking")) || []`: `None` stands
   * for a missing key (`getItem` gives `null`, which parses to `null`) and
   * for any falsy stored value (`null`, `false`, `0`, `""`); each reads as
   * the empty list.
   */
  function Loaded(stored: Option<seq<Entry>>): seq<Entry>
  {
    if stored.Some? then stored.value else []
  }

  /** Non-increasing scores from front to back. */
  predicate SortedByScore(s: seq<Entry>)
  {
    forall i, j :: 0 <= i < j < |s| ==> s[i].score >= s[j].score
  }

  /** The entries of `s` whose score is `k`, in their order in `s`. */
  function WithScore(s: seq<Entry>, k: int): seq<Entry>
  {
    if s == [] then []
    else (if s[0].score == k then [s[0]] else []) + WithScore(s[1..], k)
  }

  lemma {:induction false} WithScoreMember(s: seq<Entry>, k: int, x: Entry)
    requires x in WithScore(s, k)
    ensures x in s && x.score == k
  {
    if s[0] != x || s[0].score != k {
      WithScoreMember(s[1..], k, x);
    }
  }

  lemma WithScoreHead(s: seq<Entry>)
    requires s != []
    ensures WithScore(s, s[0].score) != []
  {
  }

  lemma {:induction false} WithScoreAppend(a: seq<Entry>, b: seq<Entry>, k: int)
    ensures WithScore(a + b, k) == WithScore(a, k) + WithScore(b, k)
  {
    if a == [] {
      assert a + b == b;
    } else {
      var head := if a[0].score == k then [a[0]] else [];
      assert (a + b)[0] == a[0];
      assert (a + b)[1..] == a[1..] + b;
      WithScoreAppend(a[1..], b, k);
      assert WithScore(a + b, k) == head + (WithScore(a[1..], k) + WithScore(b, k));
    }
  }

  lemma {:induction false} WithScoreAbsent(s: seq<Entry>, k: int)
    requires forall i :: 0 <= i < |s| ==> s[i].score != k
    ensures WithScore(s, k) == []
  {
    if s != [] {
      WithScoreAbsent(s[1..], k);
    }
  }

  /** In a sorted list no entry outscores the head. */
  lemma SortedHeadIsMax(s: seq<Entry>, e: Entry)
    requires SortedByScore(s) && e in s
    ensures e.score <= s[0].score
  {
    var i :| 0 <= i < |s| && s[i] == e;
    if i > 0 {
      assert s[0].score >= s[i].score;
    }
  }

  /**
   * Place `e` into the sorted `t` after every entry scoring at least as
   * much: the new, later entry goes behind its ties.
   */
  function InsertByScore(t: seq<Entry>, e: Entry): (r: seq<Entry>)
    ensures |r| == |t| + 1
    ensures multiset(r) == multiset(t) + multiset{e}
  {
    if t == [] then [e]
    else if t[0].score >= e.score then
      assert t == [t[0]] + t[1..];
      [t[0]] + InsertByScore(t[1..], e)
    else
      [e] + t
  }

  /** Putting an entry that scores at least as much as all of a sorted list in front keeps it sorted. */
  lemma ConsSorted(x: Entry, rest: seq<Entry>)
    requires SortedByScore(rest)
    requires forall j :: 0 <= j < |rest| ==> rest[j].score <= x.score
    ensures SortedByScore([x] + rest)
  {
    var r := [x] + rest;
    forall i, j | 0 <= i < j < |r| ensures r[i].score >= r[j].score {
      assert r[j] == rest[j - 1];
      if i > 0 {
        assert r[i] == rest[i - 1];
      }
    }
  }

  lemma {:induction false} InsertBounded(t: seq<Entry>, e: Entry, m: int)
    requires forall j :: 0 <= j < |t| ==> t[j].score <= m
    requires e.score <= m
    ensures forall j :: 0 <= j < |InsertByScore(t, e)| ==> InsertByScore(t, e)[j].score <= m
  {
    if t != [] && t[0].score >= e.score {
      InsertBounded(t[1..], e, m);
    }
  }

  lemma {:induction false} InsertSorted(t: seq<Entry>, e: Entry)
    requires SortedByScore(t)
    ensures SortedByScore(InsertByScore(t, e))
  {
    if t == [] {
    } else if t[0].score >= e.score {
      SortedTail(t);
      InsertSorted(t[1..], e);
      forall j | 0 <= j < |t[1..]| ensures t[1..][j].score <= t[0].score {
        assert t[1..][j] == t[j + 1];
      }
      InsertBounded(t[1..], e, t[0].score);
      ConsSorted(t[0], InsertByScore(t[1..], e));
    } else {
      forall j | 0 <= j < |t| ensures t[j].score <= e.score {
        assert j > 0 ==> t[0].score >= t[j].score;
      }
      ConsSorted(e, t);
    }
  }

  lemma SortedTail(t: seq<Entry>)
    requires SortedByScore(t) && t != []
    ensures SortedByScore(t[1..])
  {
  }

  /** A stable sort by descending score. */
  function SortByScore(s: seq<Entry>): (r: seq<Entry>)
    ensures |r| == |s|
    ensures multiset(r) == multiset(s)
    ensures SortedByScore(r)
    decreases |s|
  {
    if s == [] then []
    else
      assert s == s[..|s| - 1] + [s[|s| - 1]];
      InsertSorted(SortByScore(s[..|s| - 1]), s[|s| - 1]);
      InsertByScore(SortByScore(s[..|s| - 1]), s[|s| - 1])
  }

  lemma {:induction false} InsertKeepsTies(t: seq<Entry>, e: Entry, k: int)
    requires SortedByScore(t)
    ensures WithScore(InsertByScore(t, e), k) == WithScore(t, k) + WithScore([e], k)
  {
    if t == [] {
      assert InsertByScore(t, e) == [e];
    } else if t[0].score >= e.score {
      SortedTail(t);
      InsertKeepsTies(t[1..], e, k);
      InsertBehindKeepsTies(t, InsertByScore(t[1..], e), e, k);
    } else {
      InsertFrontKeepsTies(t, e, k);
    }
  }

  lemma InsertBehindKeepsTies(t: seq<Entry>, rest: seq<Entry>, e: Entry, k: int)
    requires t != []
    requires WithScore(rest, k) == WithScore(t[1..], k) + WithScore([e], k)
    ensures WithScore([t[0]] + rest, k) == WithScore(t, k) + WithScore([e], k)
  {
    var head := if t[0].score == k then [t[0]] else [];
    assert ([t[0]] + rest)[0] == t[0];
    assert ([t[0]] + rest)[1..] == rest;
    assert WithScore([t[0]] + rest, k) == head + WithScore(rest, k);
    assert WithScore(t, k) == head + WithScore(t[1..], k);
  }

  lemma InsertFrontKeepsTies(t: seq<Entry>, e: Entry, k: int)
    requires SortedByScore(t) && t != [] && t[0].score < e.score
    ensures WithScore([e] + t, k) == WithScore(t, k) + WithScore([e], k)
  {
    WithScoreAppend([e], t, k);
    if e.score == k {
      forall i | 0 <= i < |t| ensures t[i].score != k {
        assert i > 0 ==> t[0].score >= t[i].score;
      }
      WithScoreAbsent(t, k);
    }
  }

  /** Stability: among equal scores, the sorted list keeps the input's order. */
  lemma {:induction false} SortKeepsTies(s: seq<Entry>, k: int)
    ensures WithScore(SortByScore(s), k) == WithScore(s, k)
    decreases |s|
  {
    if s != [] {
      var init, last := s[..|s| - 1], s[|s| - 1];
      var sorted := SortByScore(init);
      SortKeepsTies(init, k);
      InsertKeepsTies(sorted, last, k);
      SplitLast(s, k);
      calc {
        WithScore(SortByScore(s), k);
        { SortByScoreLast(s); }
        WithScore(InsertByScore(sorted, last), k);
        WithScore(sorted, k) + WithScore([last], k);
        WithScore(init, k) + WithScore([last], k);
        WithScore(s, k);
      }
    }
  }

  lemma SplitLast(s: seq<Entry>, k: int)
    requires s != []
    ensures WithScore(s, k) == WithScore(s[..|s| - 1], k) + WithScore([s[|s| - 1]], k)
  {
    assert s == s[..|s| - 1] + [s[|s| - 1]];
    WithScoreAppend(s[..|s| - 1], [s[|s| - 1]], k);
  }

  lemma SortByScoreLast(s: seq<Entry>)
    requires s != []
    ensures SortByScore(s) == InsertByScore(SortByScore(s[..|s| - 1]), s[|s| - 1])
  {
  }

  /**
   * Any arrangement that is sorted by descending score and keeps each
   * score's entries in the same order as `s` is the one `SortByScore`
   * produces.
   */
  lemma {:induction false} StableSortIsUnique(s: seq<Entry>, r: seq<Entry>)
    requires SortedByScore(r)
    requires forall k :: WithScore(r, k) == WithScore(s, k)
    ensures r == SortByScore(s)
  {
    var t := SortByScore(s);
    forall k ensures WithScore(r, k) == WithScore(t, k) {
      SortKeepsTies(s, k);
    }
    SortedTiesDetermine(r, t);
  }

  lemma {:induction false} SortedTiesDetermine(a: seq<Entry>, b: seq<Entry>)
    requires SortedByScore(a) && SortedByScore(b)
    requires forall k :: WithScore(a, k) == WithScore(b, k)
    ensures a == b
    decreases |a|
  {
    if a == [] && b != [] {
      WithScoreHead(b);
      assert false;
    } else if a != [] && b == [] {
      WithScoreHead(a);
      assert false;
    } else if a != [] {
      var ka, kb := a[0].score, b[0].score;
      var wa := WithScore(a, ka);
      assert wa[0] == a[0];
      WithScoreMember(b, ka, wa[0]);
      SortedHeadIsMax(b, wa[0]);
      var wb := WithScore(b, kb);
      assert wb[0] == b[0];
      WithScoreMember(a, kb, wb[0]);
      SortedHeadIsMax(a, wb[0]);
      assert ka == kb;
      assert a[0] == b[0];
      forall k ensures WithScore(a[1..], k) == WithScore(b[1..], k) {
        TailTies(a, b, k);
      }
      SortedTail(a);
      SortedTail(b);
      SortedTiesDetermine(a[1..], b[1..]);
      assert a == [a[0]] + a[1..];
      assert b == [b[0]] + b[1..];
    }
  }

  lemma TailTies(a: seq<Entry>, b: seq<Entry>, k: int)
    requires a != [] && b != [] && a[0] == b[0]
    requires WithScore(a, k) == WithScore(b, k)
    ensures WithScore(a[1..], k) == WithScore(b[1..], k)
  {
    var p := if a[0].score == k then [a[0]] else [];
    assert WithScore(a, k) == p + WithScore(a[1..], k);
    assert WithScore(b, k) == p + WithScore(b[1..], k);
    assert WithScore(a[1..], k) == (p + WithScore(a[1..], k))[|p|..];
    assert WithScore(b[1..], k) == (p + WithScore(b[1..], k))[|p|..];
  }

  /** How many entries `slice(0, 10)` keeps of a list of length `n`. */
  function Kept(n: nat): nat
  {
    if n < MaxEntries then n else MaxEntries
  }

  /** A cut through a sorted list: the front stays sorted, and nothing behind the cut outscores anything before it. */
  lemma SortedCut(s: seq<Entry>, m: nat)
    requires SortedByScore(s) && m <= |s|
    ensures SortedByScore(s[..m])
    ensures forall i, j :: 0 <= i < m <= j < |s| ==> s[i].score >= s[j].score
  {
  }

  /** Cutting a list cuts each score's entries to a prefix. */
  lemma CutKeepsTiePrefix(s: seq<Entry>, m: nat, k: int)
    requires m <= |s|
    ensures WithScore(s[..m], k) <= WithScore(s, k)
  {
    assert s == s[..m] + s[m..];
    WithScoreAppend(s[..m], s[m..], k);
  }

  /** The list `endGame` stores: the old ranking plus `e`, sorted by descending score, cut to ten. */
  function Ranked(stored: Option<seq<Entry>>, e: Entry): (saved: seq<Entry>)
    ensures |saved| <= MaxEntries
    ensures |saved| == Kept(|Loaded(stored)| + 1)
    ensures SortedByScore(saved)
    ensures multiset(saved) <= multiset(Loaded(stored) + [e])
    ensures |Loaded(stored)| < MaxEntries ==> e in saved
  {
    var sorted := SortByScore(Loaded(stored) + [e]);
    SortedCut(sorted, Kept(|sorted|));
    CutFacts(sorted, Kept(|sorted|));
    assert e in multiset(sorted);
    sorted[..Kept(|sorted|)]
  }

  lemma CutFacts(s: seq<Entry>, m: nat)
    requires m <= |s|
    ensures multiset(s[..m]) <= multiset(s)
    ensures m == |s| ==> s[..m] == s
  {
    assert s == s[..m] + s[m..];
  }

  /** Equal scores keep insertion order: each score's entries in the stored list are a prefix of that score's entries, oldest first. */
  lemma RankedKeepsTieOrder(stored: Option<seq<Entry>>, e: Entry, k: int)
    ensures WithScore(Ranked(stored, e), k) <= WithScore(Loaded(stored) + [e], k)
  {
    var all := Loaded(stored) + [e];
    var sorted := SortByScore(all);
    assert Ranked(stored, e) == sorted[..Kept(|sorted|)];
    CutKeepsTiePrefix(sorted, Kept(|sorted|), k);
    SortKeepsTies(all, k);
  }

  /** Only the lowest scores are dropped: every stored entry scores at least as much as every entry cut off. */
  lemma RankedKeepsBest(stored: Option<seq<Entry>>, e: Entry, x: Entry, y: Entry)
    requires x in Ranked(stored, e)
    requires y in multiset(Loaded(stored) + [e]) - multiset(Ranked(stored, e))
    ensures x.score >= y.score
  {
    var sorted := SortByScore(Loaded(stored) + [e]);
    assert Ranked(stored, e) == sorted[..Kept(|sorted|)];
    CutKeepsBest(sorted, Kept(|sorted|), x, y);
  }

  lemma CutKeepsBest(s: seq<Entry>, m: nat, x: Entry, y: Entry)
    requires SortedByScore(s) && m <= |s|
    requires x in s[..m]
    requires y in multiset(s) - multiset(s[..m])
    ensures x.score >= y.score
  {
    var front, back := s[..m], s[m..];
    assert s == front + back;
    assert multiset(s) == multiset(front) + multiset(back);
    assert y in multiset(back);
    var i :| 0 <= i < m && front[i] == x;
    var j :| 0 <= j < |back| && back[j] == y;
    assert s[i] == x && s[m + j] == y;
  }
}
