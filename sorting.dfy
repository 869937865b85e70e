/**
 * Python's `sorted(items, key=lambda item: item[1], reverse=True)` on the
 * items of a dict of scores: a stable sort by score, highest first. Entries
 * with equal scores keep the order they had in the input.
 *
 * `SortByScoreDesc` is a reference definition (an insertion sort); the
 * lemmas state what Python promises of the call: the result is a
 * permutation of the input, it is non-increasing in score, and for every
 * score the entries carrying it appear in their input order.
 * `StableOrderUnique` shows that these promises determine the result.
 */
module Sorting {

  /** One item of the dict: a recipe name and its score. */
  type Entry = (string, real)

  predicate NonIncreasing(s: seq<Entry>)
  {
    forall i, j :: 0 <= i < j < |s| ==> s[i].1 >= s[j].1
  }

  /** The entries of `s` whose score is `v`, in their order in `s`. */
  function WithScore(s: seq<Entry>, v: real): seq<Entry>
  {
    if s == [] then []
    else (if s[0].1 == v then [s[0]] else []) + WithScore(s[1..], v)
  }

  /** Puts `x` in front of the first entry of `t` whose score is not above its own. */
  function Insert(x: Entry, t: seq<Entry>): (r: seq<Entry>)
    ensures |r| == |t| + 1
  {
    if t == [] || x.1 >= t[0].1 then [x] + t
    else [t[0]] + Insert(x, t[1..])
  }

  /** The reference stable sort, highest score first: one entry out per entry in. */
  function SortByScoreDesc(s: seq<Entry>): (r: seq<Entry>)
    ensures |r| == |s|
  {
    if s == [] then [] else Insert(s[0], SortByScoreDesc(s[1..]))
  }

  lemma {:induction false} WithScoreMembers(s: seq<Entry>, v: real, e: Entry)
    requires e in WithScore(s, v)
    ensures e in s && e.1 == v
  {
    if s != [] {
      if e in WithScore(s[1..], v) {
        WithScoreMembers(s[1..], v, e);
      }
    }
  }

  lemma {:induction false} InsertPermutation(x: Entry, t: seq<Entry>)
    ensures multiset(Insert(x, t)) == multiset(t) + multiset{x}
  {
    if t != [] && x.1 < t[0].1 {
      InsertPermutation(x, t[1..]);
      assert t == [t[0]] + t[1..];
    }
  }

  /** Every score in `s` is at most `b`. */
  predicate AllAtMost(s: seq<Entry>, b: real)
  {
    forall k :: 0 <= k < |s| ==> s[k].1 <= b
  }

  lemma ConsNonIncreasing(h: Entry, s: seq<Entry>)
    requires NonIncreasing(s) && AllAtMost(s, h.1)
    ensures NonIncreasing([h] + s)
  {
  }

  lemma {:induction false} InsertAtMost(x: Entry, t: seq<Entry>, b: real)
    requires x.1 <= b && AllAtMost(t, b)
    ensures AllAtMost(Insert(x, t), b)
  {
    if t == [] || x.1 >= t[0].1 {
      var r := [x] + t;
      forall k | 0 < k < |r| ensures r[k].1 <= b {
        assert r[k] == t[k - 1];
      }
    } else {
      var rest := Insert(x, t[1..]);
      InsertAtMost(x, t[1..], b);
      var r := [t[0]] + rest;
      forall k | 0 < k < |r| ensures r[k].1 <= b {
        assert r[k] == rest[k - 1];
      }
    }
  }

  lemma {:induction false} InsertNonIncreasing(x: Entry, t: seq<Entry>)
    requires NonIncreasing(t)
    ensures NonIncreasing(Insert(x, t))
  {
    if t == [] || x.1 >= t[0].1 {
      assert AllAtMost(t, x.1) by {
        forall k | 0 < k < |t| ensures t[k].1 <= x.1 {
          assert t[0].1 >= t[k].1;
        }
      }
      ConsNonIncreasing(x, t);
    } else {
      var tail := t[1..];
      assert NonIncreasing(tail) by {
        forall i, j | 0 <= i < j < |tail| ensures tail[i].1 >= tail[j].1 {
          assert tail[i] == t[i + 1] && tail[j] == t[j + 1];
        }
      }
      assert AllAtMost(tail, t[0].1) by {
        forall k | 0 <= k < |tail| ensures tail[k].1 <= t[0].1 {
          assert tail[k] == t[k + 1];
        }
      }
      InsertNonIncreasing(x, tail);
      InsertAtMost(x, tail, t[0].1);
      ConsNonIncreasing(t[0], Insert(x, tail));
    }
  }

  /** The entries of `[e] + s` with score `v`. */
  lemma WithScoreCons(e: Entry, s: seq<Entry>, v: real)
    ensures WithScore([e] + s, v) == (if e.1 == v then [e] else []) + WithScore(s, v)
  {
  }

  lemma {:induction false} InsertWithScore(x: Entry, t: seq<Entry>, v: real)
    ensures WithScore(Insert(x, t), v) == (if x.1 == v then [x] else []) + WithScore(t, v)
  {
    var only := (if x.1 == v then [x] else []);
    if t == [] || x.1 >= t[0].1 {
      WithScoreCons(x, t, v);
    } else {
      var first := (if t[0].1 == v then [t[0]] else []);
      assert first == [] || only == [];
      WithScoreCons(t[0], Insert(x, t[1..]), v);
      InsertWithScore(x, t[1..], v);
      calc {
        WithScore(Insert(x, t), v);
        first + (only + WithScore(t[1..], v));
        only + (first + WithScore(t[1..], v));
        only + WithScore(t, v);
      }
    }
  }

  lemma {:induction false} SortPermutation(s: seq<Entry>)
    ensures multiset(SortByScoreDesc(s)) == multiset(s)
  {
    if s != [] {
      SortPermutation(s[1..]);
      InsertPermutation(s[0], SortByScoreDesc(s[1..]));
      assert s == [s[0]] + s[1..];
    }
  }

  lemma {:induction false} SortNonIncreasing(s: seq<Entry>)
    ensures NonIncreasing(SortByScoreDesc(s))
  {
    if s != [] {
      SortNonIncreasing(s[1..]);
      InsertNonIncreasing(s[0], SortByScoreDesc(s[1..]));
    }
  }

  /** Stability: the entries with any one score keep their input order. */
  lemma {:induction false} SortStable(s: seq<Entry>, v: real)
    ensures WithScore(SortByScoreDesc(s), v) == WithScore(s, v)
  {
    if s != [] {
      SortStable(s[1..], v);
      InsertWithScore(s[0], SortByScoreDesc(s[1..]), v);
    }
  }

  /** The first entry of `s` heads the entries with its score. */
  lemma WithScoreHead(s: seq<Entry>)
    requires s != []
    ensures WithScore(s, s[0].1) != [] && WithScore(s, s[0].1)[0] == s[0]
  {
  }

  /** Dropping the first entry drops it from the entries with its score, and only there. */
  lemma WithScoreTail(s: seq<Entry>, v: real)
    requires s != []
    ensures WithScore(s[1..], v) == WithScore(s, v)[(if s[0].1 == v then 1 else 0)..]
  {
  }

  /** In a non-increasing sequence the first score bounds every score present. */
  lemma {:induction false} HeadIsMax(s: seq<Entry>, v: real)
    requires NonIncreasing(s) && WithScore(s, v) != []
    ensures s != [] && s[0].1 >= v
  {
    WithScoreMembers(s, v, WithScore(s, v)[0]);
  }

  /**
   * Two non-increasing sequences that agree, score by score, on which
   * entries they hold and in what order are equal: non-increasing order
   * and stability leave no choice in the outcome of the sort.
   */
  lemma {:induction false} StableOrderUnique(r1: seq<Entry>, r2: seq<Entry>)
    requires NonIncreasing(r1) && NonIncreasing(r2)
    requires forall v :: WithScore(r1, v) == WithScore(r2, v)
    ensures r1 == r2
  {
    // an entry of either one makes its score's entries nonempty in both
    if r1 != [] {
      WithScoreHead(r1);
      assert WithScore(r2, r1[0].1) != [];
    }
    if r2 != [] {
      WithScoreHead(r2);
      assert WithScore(r1, r2[0].1) != [];
    }
    if r1 != [] && r2 != [] {
      var m1, m2 := r1[0].1, r2[0].1;
      HeadIsMax(r2, m1);
      HeadIsMax(r1, m2);
      assert m1 == m2;
      assert r1[0] == WithScore(r1, m1)[0] == WithScore(r2, m2)[0] == r2[0];
      forall v ensures WithScore(r1[1..], v) == WithScore(r2[1..], v) {
        WithScoreTail(r1, v);
        WithScoreTail(r2, v);
      }
      assert NonIncreasing(r1[1..]) && NonIncreasing(r2[1..]);
      StableOrderUnique(r1[1..], r2[1..]);
      assert r1 == [r1[0]] + r1[1..];
      assert r2 == [r2[0]] + r2[1..];
    }
  }
}
