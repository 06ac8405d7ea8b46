/** Ordering and truncation of the scored documents: Python's stable
    `sorted(..., key=score, reverse=True)` and the slice `ranked[:top_k]`. */
module Ranking {
  import opened Common

  /** A document with its accumulated score. */
  datatype Scored = Scored(doc: DocId, score: real)

  /** Scores never increase from one entry to the next. */
  predicate SortedDesc(s: seq<Scored>) {
    if |s| <= 1 then true else s[0].score >= s[1].score && SortedDesc(s[1..])
  }

  /** Places `x` before the first entry whose score is at most its own, so that
      `x` precedes the entries of equal score that came after it in the input. */
  function Insert(x: Scored, s: seq<Scored>): (r: seq<Scored>)
    ensures |r| == |s| + 1
  {
    if s == [] then [x]
    else if s[0].score <= x.score then [x] + s
    else [s[0]] + Insert(x, s[1..])
  }

  /** The stable descending sort, as insertion of each entry, last first,
      into the sorted rest. */
  function SortDesc(s: seq<Scored>): (r: seq<Scored>)
    ensures |r| == |s|
  {
    if s == [] then [] else Insert(s[0], SortDesc(s[1..]))
  }

  /** The entries of score `v`, in order. */
  function WithScore(s: seq<Scored>, v: real): seq<Scored> {
    if s == [] then []
    else (if s[0].score == v then [s[0]] else []) + WithScore(s[1..], v)
  }

  /** The stop index of Python's slice `s[:k]` on a sequence of length `len`:
      a negative `k` counts from the end. */
  function SliceStop(len: nat, k: int): nat {
    if k < 0 then (if len + k < 0 then 0 else len + k)
    else if k > len then len
    else k
  }

  /** Python's `s[:k]`. */
  function TakePrefix<T>(s: seq<T>, k: int): seq<T> {
    s[..SliceStop(|s|, k)]
  }

  // ---------------------------------------------------------------- lemmas: sorting

  lemma InsertHead(x: Scored, s: seq<Scored>)
    requires s != []
    ensures Insert(x, s)[0] == x || Insert(x, s)[0] == s[0]
  {
  }

  lemma {:induction false} InsertSorted(x: Scored, s: seq<Scored>)
    requires SortedDesc(s)
    ensures SortedDesc(Insert(x, s))
  {
    if s != [] && s[0].score > x.score {
      var t := s[1..];
      InsertSorted(x, t);
      if t != [] {
        InsertHead(x, t);
      }
      assert ([s[0]] + Insert(x, t))[1..] == Insert(x, t);
    }
  }

  /** The ranking is ordered by non-increasing score. */
  lemma {:induction false} SortDescSorted(s: seq<Scored>)
    ensures SortedDesc(SortDesc(s))
  {
    if s != [] {
      SortDescSorted(s[1..]);
      InsertSorted(s[0], SortDesc(s[1..]));
    }
  }

  /** Any two entries of a sorted sequence are in order, not only neighbours. */
  lemma {:induction false} SortedDescAt(s: seq<Scored>, i: nat, j: nat)
    requires SortedDesc(s) && i <= j < |s|
    ensures s[i].score >= s[j].score
  {
    if i < j {
      if i == 0 {
        SortedDescAt(s[1..], 0, j - 1);
      } else {
        SortedDescAt(s[1..], i - 1, j - 1);
      }
    }
  }

  lemma {:induction false} InsertPermutes(x: Scored, s: seq<Scored>)
    ensures multiset(Insert(x, s)) == multiset(s) + multiset{x}
  {
    if s != [] && s[0].score > x.score {
      InsertPermutes(x, s[1..]);
      assert s == [s[0]] + s[1..];
    }
  }

  /** The ranking is a permutation of the scored documents. */
  lemma {:induction false} SortDescPermutes(s: seq<Scored>)
    ensures multiset(SortDesc(s)) == multiset(s)
  {
    if s != [] {
      SortDescPermutes(s[1..]);
      InsertPermutes(s[0], SortDesc(s[1..]));
      assert s == [s[0]] + s[1..];
    }
  }

  lemma {:induction false} WithScoreAppend(a: seq<Scored>, b: seq<Scored>, v: real)
    ensures WithScore(a + b, v) == WithScore(a, v) + WithScore(b, v)
  {
    if a != [] {
      WithScoreAppend(a[1..], b, v);
      assert (a + b)[1..] == a[1..] + b;
    } else {
      assert a + b == b;
    }
  }

  lemma {:induction false} InsertStable(x: Scored, s: seq<Scored>, v: real)
    ensures WithScore(Insert(x, s), v) == WithScore([x], v) + WithScore(s, v)
  {
    if s == [] {
    } else if s[0].score <= x.score {
      WithScoreAppend([x], s, v);
    } else {
      var t := s[1..];
      InsertStable(x, t, v);
      WithScoreAppend([s[0]], Insert(x, t), v);
      WithScoreAppend([s[0]], t, v);
      assert s == [s[0]] + t;
    }
  }

  /** Stability: the entries of any one score keep their input order. */
  lemma {:induction false} SortDescStable(s: seq<Scored>, v: real)
    ensures WithScore(SortDesc(s), v) == WithScore(s, v)
  {
    if s != [] {
      SortDescStable(s[1..], v);
      InsertStable(s[0], SortDesc(s[1..]), v);
      WithScoreAppend([s[0]], s[1..], v);
      assert s == [s[0]] + s[1..];
    }
  }

  // ---------------------------------------------------------------- lemmas: truncation

  /** `s[:k]` is a prefix of `s`: for `k >= 0` it has `min(k, |s|)` entries,
      and a negative `k` drops the last `-k` entries (all of them when `-k >= |s|`). */
  lemma TakePrefixSlice<T>(s: seq<T>, k: int)
    ensures TakePrefix(s, k) <= s
    ensures 0 <= k <= |s| ==> |TakePrefix(s, k)| == k
    ensures k >= |s| ==> TakePrefix(s, k) == s
    ensures -|s| <= k < 0 ==> TakePrefix(s, k) + s[|s| + k..] == s
    ensures k < -|s| ==> TakePrefix(s, k) == []
  {
  }
}
