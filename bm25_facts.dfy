/** What the BM25 search promises: the bounds of its formulas, the score of a
    document as a sum over the query-term occurrences, the documents that can
    appear at all, and the order, stability and truncation of the results. */
module Bm25Facts {
  import opened Common
  import opened Dicts
  import opened Store
  import opened Ranking
  import opened Bm25

  // ---------------------------------------------------------------- idf

  /** The argument of the logarithm simplifies to `(N + 1) / (df + 0.5)`. */
  lemma IdfArgumentClosedForm(n: nat, df: nat)
    ensures IdfArgument(n, df) == (n as real + 1.0) / (df as real + 0.5)
  {
    var a := df as real + 0.5;
    var x := n as real - df as real + 0.5;
    assert a / a == 1.0;
    assert x / a + a / a == (x + a) / a;
    assert x + a == n as real + 1.0;
  }

  lemma QuotientAtLeastOne(x: real, a: real)
    requires a > 0.0
    ensures x / a >= 1.0 <==> x >= a
  {
    assert x / a * a == x;
    if x >= a {
      assert x / a * a >= 1.0 * a;
    }
  }

  /** The argument of the logarithm is at least 1 exactly when `df <= N`. */
  lemma IdfArgumentAtLeastOne(n: nat, df: nat)
    ensures IdfArgument(n, df) >= 1.0 <==> df <= n
  {
    IdfArgumentClosedForm(n, df);
    QuotientAtLeastOne(n as real + 1.0, df as real + 0.5);
  }

  /** The idf of a term found in at most N documents is not negative. */
  lemma IdfNonNegative(ln: real -> real, n: nat, df: nat)
    requires LogNonNegative(ln) && df <= n
    ensures Idf(ln, n, df) >= 0.0
  {
    IdfArgumentAtLeastOne(n, df);
  }

  // ---------------------------------------------------------------- one contribution

  lemma QuotientBounds(t: real, d: real)
    requires t >= 0.0 && d > t
    ensures 0.0 <= t / d < 1.0
  {
    assert t / d * d == t;
  }

  /** With a positive average length and a non-negative length and frequency, the
      denominator is positive and the contribution lies between 0 and
      `idf * (k1 + 1)`, strictly below it when the idf is positive. */
  lemma ContributionBounds(idf: real, tf: int, dl: real, avg: real)
    requires idf >= 0.0 && tf >= 0 && dl >= 0.0 && avg > 0.0
    ensures Denominator(tf, dl, avg) > tf as real
    ensures 0.0 <= Contribution(idf, tf, dl, avg) <= idf * (K1 + 1.0)
    ensures idf > 0.0 ==> Contribution(idf, tf, dl, avg) < idf * (K1 + 1.0)
  {
    var d := Denominator(tf, dl, avg);
    assert dl / avg >= 0.0 by {
      assert dl / avg * avg == dl;
    }
    assert d > tf as real;
    var t := tf as real * (K1 + 1.0);
    var q := t / d;
    assert q == (K1 + 1.0) * (tf as real / d) by {
      assert t / d * d == t;
      assert tf as real / d * d == tf as real;
    }
    QuotientBounds(tf as real, d);
    assert 0.0 <= q < K1 + 1.0;
    assert Contribution(idf, tf, dl, avg) == idf * q;
    if idf > 0.0 {
      assert idf * q < idf * (K1 + 1.0);
    }
  }

  /** A posting with frequency 0 contributes nothing. */
  lemma ZeroFrequencyContributesNothing(idf: real, dl: real, avg: real)
    requires avg != 0.0 && Denominator(0, dl, avg) != 0.0
    ensures Contribution(idf, 0, dl, avg) == 0.0
  {
  }

  // ---------------------------------------------------------------- reference sums

  /** The sum of the contributions of the postings of `ps` that are for `doc`. */
  function PostingsContribution(s: Store, idf: real, ps: seq<Posting>, doc: DocId): real
    requires AllSafe(s, ps)
  {
    if ps == [] then 0.0
    else
      var p := ps[|ps| - 1];
      assert AllSafe(s, ps[..|ps| - 1]);
      PostingsContribution(s, idf, ps[..|ps| - 1], doc) + (if p.doc == doc then PostingScore(s, idf, p) else 0.0)
  }

  /** What one occurrence of `term` in the query adds to the score of `doc`. */
  function TermContribution(s: Store, ln: real -> real, term: string, doc: DocId): real
    requires TermSafe(s, term)
  {
    var ps := PostingsOf(s, term);
    if ps == [] then 0.0 else PostingsContribution(s, TermIdf(s, ln, term), ps, doc)
  }

  /** The sum, over every occurrence of a term in the query (duplicates
      included), of that term's contribution to `doc`. */
  function QueryContribution(s: Store, ln: real -> real, terms: seq<string>, doc: DocId): real
    requires QuerySafe(s, terms)
  {
    if terms == [] then 0.0
    else
      assert QuerySafe(s, terms[..|terms| - 1]);
      QueryContribution(s, ln, terms[..|terms| - 1], doc) + TermContribution(s, ln, terms[|terms| - 1], doc)
  }

  /** The documents of a posting list, in order. */
  function Docs(ps: seq<Posting>): seq<DocId> {
    if ps == [] then [] else Docs(ps[..|ps| - 1]) + [ps[|ps| - 1].doc]
  }

  /** The documents the search visits, in visiting order, with repetitions. */
  function Visits(s: Store, terms: seq<string>): seq<DocId> {
    if terms == [] then [] else Visits(s, terms[..|terms| - 1]) + Docs(PostingsOf(s, terms[|terms| - 1]))
  }

  // ---------------------------------------------------------------- aggregation

  lemma {:induction false} AccPostingsScore(s: Store, idf: real, acc: Dict<real>, ps: seq<Posting>, doc: DocId)
    requires AllSafe(s, ps)
    ensures ScoreOf(AccPostings(s, idf, acc, ps), doc) == ScoreOf(acc, doc) + PostingsContribution(s, idf, ps, doc)
  {
    if ps != [] {
      assert AllSafe(s, ps[..|ps| - 1]);
      AccPostingsScore(s, idf, acc, ps[..|ps| - 1], doc);
    }
  }

  lemma {:induction false} AccTermsScore(s: Store, ln: real -> real, acc: Dict<real>, terms: seq<string>, doc: DocId)
    requires QuerySafe(s, terms)
    ensures ScoreOf(AccTerms(s, ln, acc, terms), doc) == ScoreOf(acc, doc) + QueryContribution(s, ln, terms, doc)
  {
    if terms != [] {
      var init := terms[..|terms| - 1];
      var t := terms[|terms| - 1];
      assert QuerySafe(s, init) && TermSafe(s, t);
      AccTermsScore(s, ln, acc, init, doc);
      var ps := PostingsOf(s, t);
      if ps != [] {
        AccPostingsScore(s, TermIdf(s, ln, t), AccTerms(s, ln, acc, init), ps, doc);
      }
    }
  }

  /** A document's accumulated score is the sum of its contributions over every
      occurrence of every query term. */
  lemma ScoreIsSum(s: Store, ln: real -> real, terms: seq<string>, doc: DocId)
    requires QuerySafe(s, terms)
    ensures ScoreOf(Scores(s, ln, terms), doc) == QueryContribution(s, ln, terms, doc)
  {
    AccTermsScore(s, ln, Empty(), terms, doc);
  }

  // ---------------------------------------------------------------- which documents, in which order

  lemma {:induction false} AccPostingsKeys(s: Store, idf: real, acc: Dict<real>, ps: seq<Posting>)
    requires AllSafe(s, ps)
    ensures AccPostings(s, idf, acc, ps).keys == AppendNew(acc.keys, Docs(ps))
  {
    if ps != [] {
      assert AllSafe(s, ps[..|ps| - 1]);
      AccPostingsKeys(s, idf, acc, ps[..|ps| - 1]);
      var d := Docs(ps);
      assert d[..|d| - 1] == Docs(ps[..|ps| - 1]);
      var prev := AccPostings(s, idf, acc, ps[..|ps| - 1]);
      assert ps[|ps| - 1].doc in prev.vals <==> ps[|ps| - 1].doc in prev.keys;
    }
  }

  lemma {:induction false} AccTermsKeys(s: Store, ln: real -> real, acc: Dict<real>, terms: seq<string>)
    requires QuerySafe(s, terms)
    ensures AccTerms(s, ln, acc, terms).keys == AppendNew(acc.keys, Visits(s, terms))
  {
    if terms != [] {
      var init := terms[..|terms| - 1];
      var t := terms[|terms| - 1];
      assert QuerySafe(s, init) && TermSafe(s, t);
      AccTermsKeys(s, ln, acc, init);
      var ps := PostingsOf(s, t);
      var prev := AccTerms(s, ln, acc, init);
      if ps != [] {
        AccPostingsKeys(s, TermIdf(s, ln, t), prev, ps);
      } else {
        assert Visits(s, terms) == Visits(s, init) + [];
      }
      AppendNewConcat(acc.keys, Visits(s, init), Docs(ps));
    }
  }

  /** The accumulator holds the visited documents once each, in the order of
      their first contribution. */
  lemma ScoresKeys(s: Store, ln: real -> real, terms: seq<string>)
    requires QuerySafe(s, terms)
    ensures Scores(s, ln, terms).keys == AppendNew([], Visits(s, terms))
  {
    AccTermsKeys(s, ln, Empty(), terms);
  }

  lemma {:induction false} ItemsOfAt(keys: seq<string>, vals: map<string, real>, i: nat)
    requires forall k :: k in keys ==> k in vals
    requires i < |keys|
    ensures |ItemsOf(keys, vals)| == |keys|
    ensures ItemsOf(keys, vals)[i] == Scored(keys[i], vals[keys[i]])
  {
    if i > 0 {
      ItemsOfAt(keys[1..], vals, i - 1);
    } else {
      ItemsOfLength(keys, vals);
    }
  }

  lemma {:induction false} ItemsOfLength(keys: seq<string>, vals: map<string, real>)
    requires forall k :: k in keys ==> k in vals
    ensures |ItemsOf(keys, vals)| == |keys|
  {
    if keys != [] {
      ItemsOfLength(keys[1..], vals);
    }
  }

  /** `scores.items()` lists each accumulated document with its score, in the
      accumulator's key order. */
  lemma ItemsAt(acc: Dict<real>, i: nat)
    requires i < |acc.keys|
    ensures |Items(acc)| == |acc.keys|
    ensures Items(acc)[i] == Scored(acc.keys[i], acc.vals[acc.keys[i]])
  {
    ItemsOfAt(acc.keys, acc.vals, i);
  }

  // ---------------------------------------------------------------- terms that match nothing

  lemma {:induction false} QuerySafeConcat(s: Store, a: seq<string>, b: seq<string>)
    ensures QuerySafe(s, a + b) <==> QuerySafe(s, a) && QuerySafe(s, b)
  {
    if QuerySafe(s, a) && QuerySafe(s, b) {
      forall i | 0 <= i < |a + b| ensures TermSafe(s, (a + b)[i]) {
        if i >= |a| {
          assert (a + b)[i] == b[i - |a|];
        }
      }
    }
    if QuerySafe(s, a + b) {
      forall i | 0 <= i < |a| ensures TermSafe(s, a[i]) {
        assert (a + b)[i] == a[i];
      }
      forall i | 0 <= i < |b| ensures TermSafe(s, b[i]) {
        assert (a + b)[|a| + i] == b[i];
      }
    }
  }

  /** Processing `a` and then `b` is processing `a + b`. */
  lemma {:induction false} AccTermsConcat(s: Store, ln: real -> real, acc: Dict<real>, a: seq<string>, b: seq<string>)
    requires QuerySafe(s, a) && QuerySafe(s, b)
    ensures QuerySafe(s, a + b)
    ensures AccTerms(s, ln, acc, a + b) == AccTerms(s, ln, AccTerms(s, ln, acc, a), b)
  {
    QuerySafeConcat(s, a, b);
    if b == [] {
      assert a + b == a;
    } else {
      var init := b[..|b| - 1];
      assert QuerySafe(s, init);
      AccTermsConcat(s, ln, acc, a, init);
      assert (a + b)[..|a + b| - 1] == a + init;
      assert (a + b)[|a + b| - 1] == b[|b| - 1];
    }
  }

  /** A query term that is absent from the index, or has no postings, changes
      nothing: the search gives the same outcome without it. */
  lemma UnmatchedTermIgnored(s: Store, ln: real -> real, a: seq<string>, t: string, b: seq<string>, topK: int)
    requires PostingsOf(s, t) == []
    ensures Bm25Results(s, ln, a + [t] + b, topK) == Bm25Results(s, ln, a + b, topK)
  {
    assert TermSafe(s, t);
    assert QuerySafe(s, [t]);
    QuerySafeConcat(s, a, [t]);
    QuerySafeConcat(s, a + [t], b);
    QuerySafeConcat(s, a, b);
    if QuerySafe(s, a) && QuerySafe(s, b) {
      AccTermsConcat(s, ln, Empty(), a, [t]);
      AccTermsConcat(s, ln, Empty(), a + [t], b);
      AccTermsConcat(s, ln, Empty(), a, b);
      assert [t][..0] == [];
      assert AccTerms(s, ln, AccTerms(s, ln, Empty(), a), [t]) == AccTerms(s, ln, Empty(), a);
    }
  }

  lemma {:induction false} NoMatchNoScores(s: Store, ln: real -> real, terms: seq<string>)
    requires forall i :: 0 <= i < |terms| ==> PostingsOf(s, terms[i]) == []
    ensures QuerySafe(s, terms)
    ensures AccTerms(s, ln, Empty(), terms).keys == []
  {
    if terms != [] {
      NoMatchNoScores(s, ln, terms[..|terms| - 1]);
    }
  }

  /** An empty index gives no results, whatever the query and `top_k`. */
  lemma EmptyIndexNoResults(s: Store, ln: real -> real, terms: seq<string>, topK: int)
    requires |s.index| == 0
    ensures Bm25Results(s, ln, terms, topK) == Hits([])
  {
  }

  /** A query of which no term has postings gives an empty list, not an error. */
  lemma NoMatchNoResults(s: Store, ln: real -> real, terms: seq<string>, topK: int)
    requires forall i :: 0 <= i < |terms| ==> PostingsOf(s, terms[i]) == []
    ensures Bm25Results(s, ln, terms, topK) == Hits([])
  {
    NoMatchNoScores(s, ln, terms);
    assert Items(Scores(s, ln, terms)) == [];
  }

  // ---------------------------------------------------------------- the results

  lemma {:induction false} EnrichAllAt(meta: map<DocId, Meta>, xs: seq<Scored>, i: nat)
    requires i < |xs|
    ensures EnrichAll(meta, xs)[i] == Enrich(meta, xs[i])
  {
    if i < |xs| - 1 {
      EnrichAllAt(meta, xs[..|xs| - 1], i);
    }
  }

  /** Each entry of the ranking is an accumulated document with its score. */
  lemma RankedEntry(s: Store, ln: real -> real, terms: seq<string>, i: nat)
    requires QuerySafe(s, terms) && i < |Ranked(s, ln, terms)|
    ensures Ranked(s, ln, terms)[i].doc in Visits(s, terms)
    ensures Ranked(s, ln, terms)[i].score == QueryContribution(s, ln, terms, Ranked(s, ln, terms)[i].doc)
  {
    var acc := Scores(s, ln, terms);
    var items := Items(acc);
    var x := Ranked(s, ln, terms)[i];
    assert x in multiset(items) by {
      SortDescPermutes(items);
      assert x in multiset(SortDesc(items));
    }
    var m :| 0 <= m < |items| && items[m] == x;
    ItemsOfLength(acc.keys, acc.vals);
    ItemsAt(acc, m);
    ScoresKeys(s, ln, terms);
    AppendNewMembers([], Visits(s, terms), x.doc);
    ScoreIsSum(s, ln, terms, x.doc);
  }

  /** Every result stands for a document of some queried posting list, carries its
      ranking score, and that score is the sum of its contributions over the query's
      term occurrences; the metadata comes from the document's row, or is
      "Untitled", "", "", null when it has none. */
  lemma ResultEntries(s: Store, ln: real -> real, terms: seq<string>, topK: int, i: nat)
    requires Bm25Results(s, ln, terms, topK).Hits? && i < |Bm25Results(s, ln, terms, topK).hits|
    ensures |s.index| > 0 ==> QuerySafe(s, terms)
    ensures var h := Bm25Results(s, ln, terms, topK).hits[i];
      && h.doc in Visits(s, terms)
      && (QuerySafe(s, terms) ==> h.score == QueryContribution(s, ln, terms, h.doc))
      && (h.doc in s.meta ==>
            (h.title, h.url, h.imageUrl, h.docLen)
            == (s.meta[h.doc].title, s.meta[h.doc].url, s.meta[h.doc].imageUrl, Some(s.meta[h.doc].docLen)))
      && (h.doc !in s.meta ==> (h.title, h.url, h.imageUrl, h.docLen) == ("Untitled", "", "", None))
  {
    var r := Ranked(s, ln, terms);
    var top := TakePrefix(r, topK);
    EnrichAllAt(s.meta, top, i);
    assert top[i] == r[i];
    RankedEntry(s, ln, terms, i);
  }

  /** The results are ordered by non-increasing score. */
  lemma ResultsSorted(s: Store, ln: real -> real, terms: seq<string>, topK: int, i: nat, j: nat)
    requires Bm25Results(s, ln, terms, topK).Hits? && i <= j < |Bm25Results(s, ln, terms, topK).hits|
    ensures Bm25Results(s, ln, terms, topK).hits[i].score >= Bm25Results(s, ln, terms, topK).hits[j].score
  {
    var r := Ranked(s, ln, terms);
    var top := TakePrefix(r, topK);
    EnrichAllAt(s.meta, top, i);
    EnrichAllAt(s.meta, top, j);
    SortDescSorted(Items(Scores(s, ln, terms)));
    SortedDescAt(r, i, j);
  }

  /** Truncation keeps the best: a ranked document left out of the results
      scores no higher than any result. */
  lemma ResultsAreTop(s: Store, ln: real -> real, terms: seq<string>, topK: int, i: nat, j: nat)
    requires |s.index| > 0 && QuerySafe(s, terms)
    requires i < |Bm25Results(s, ln, terms, topK).hits| <= j < |Ranked(s, ln, terms)|
    ensures Bm25Results(s, ln, terms, topK).hits[i].score >= Ranked(s, ln, terms)[j].score
  {
    var r := Ranked(s, ln, terms);
    var top := TakePrefix(r, topK);
    EnrichAllAt(s.meta, top, i);
    assert top[i] == r[i];
    SortDescSorted(Items(Scores(s, ln, terms)));
    SortedDescAt(r, i, j);
  }

  /** The results are the first entries of the ranking, as many as `ranked[:top_k]`
      keeps: `min(top_k, n)` for `top_k >= 0`, and `n + top_k` (at least 0) for a
      negative `top_k`, where `n` is the number of distinct documents visited. */
  lemma ResultsTruncated(s: Store, ln: real -> real, terms: seq<string>, topK: int)
    requires |s.index| > 0 && QuerySafe(s, terms)
    ensures |Ranked(s, ln, terms)| == |AppendNew([], Visits(s, terms))|
    ensures Bm25Results(s, ln, terms, topK) == Hits(EnrichAll(s.meta, TakePrefix(Ranked(s, ln, terms), topK)))
    ensures var n := |Ranked(s, ln, terms)|;
      |Bm25Results(s, ln, terms, topK).hits| == if topK >= 0 then (if topK < n then topK else n)
                                         else (if n + topK < 0 then 0 else n + topK)
    ensures topK == 0 ==> Bm25Results(s, ln, terms, topK) == Hits([])
  {
    var acc := Scores(s, ln, terms);
    ItemsOfLength(acc.keys, acc.vals);
    ScoresKeys(s, ln, terms);
  }

  /** Stability: documents of equal score are ranked in the order of their first
      contribution, which is the order of the accumulator's keys. */
  lemma RankingStable(s: Store, ln: real -> real, terms: seq<string>, v: real)
    requires QuerySafe(s, terms)
    ensures WithScore(Ranked(s, ln, terms), v) == WithScore(Items(Scores(s, ln, terms)), v)
    ensures Scores(s, ln, terms).keys == AppendNew([], Visits(s, terms))
  {
    SortDescStable(Items(Scores(s, ln, terms)), v);
    ScoresKeys(s, ln, terms);
  }

  // ---------------------------------------------------------------- non-negative scores

  /** The conditions under which every contribution is non-negative: the
      logarithm assumption, non-negative frequencies and recorded lengths, a
      positive average length, and no queried term in more than N documents. */
  ghost predicate NonNegativeSetting(s: Store, ln: real -> real, terms: seq<string>) {
    && LogNonNegative(ln)
    && AllAtLeast(s.lengths, 0)
    && AvgDl(s) > 0.0
    && (forall i :: 0 <= i < |terms| ==>
          |PostingsOf(s, terms[i])| <= EffectiveN(s)
          && (forall j :: 0 <= j < |PostingsOf(s, terms[i])| ==> PostingsOf(s, terms[i])[j].tf >= 0))
  }

  /** Under those conditions no posting divides by zero. */
  lemma NonNegativeSettingSafe(s: Store, ln: real -> real, terms: seq<string>)
    requires NonNegativeSetting(s, ln, terms)
    ensures QuerySafe(s, terms)
  {
    forall i, j | 0 <= i < |terms| && 0 <= j < |PostingsOf(s, terms[i])|
      ensures PostingSafe(s, PostingsOf(s, terms[i])[j])
    {
      var p := PostingsOf(s, terms[i])[j];
      LengthOfBounds(s, p.doc);
      ContributionBounds(0.0, p.tf, LengthOf(s, p.doc), AvgDl(s));
    }
  }

  predicate AllNonNegative(acc: Dict<real>) {
    forall k :: k in acc.vals ==> acc.vals[k] >= 0.0
  }

  lemma {:induction false} AccPostingsNonNegative(s: Store, idf: real, acc: Dict<real>, ps: seq<Posting>)
    requires AllSafe(s, ps) && AllNonNegative(acc) && idf >= 0.0
    requires AllAtLeast(s.lengths, 0) && AvgDl(s) > 0.0
    requires forall j :: 0 <= j < |ps| ==> ps[j].tf >= 0
    ensures AllNonNegative(AccPostings(s, idf, acc, ps))
  {
    if ps != [] {
      var p := ps[|ps| - 1];
      assert AllSafe(s, ps[..|ps| - 1]);
      AccPostingsNonNegative(s, idf, acc, ps[..|ps| - 1]);
      LengthOfBounds(s, p.doc);
      ContributionBounds(idf, p.tf, LengthOf(s, p.doc), AvgDl(s));
    }
  }

  lemma {:induction false} AccTermsNonNegative(s: Store, ln: real -> real, terms: seq<string>)
    requires NonNegativeSetting(s, ln, terms)
    ensures QuerySafe(s, terms)
    ensures AllNonNegative(AccTerms(s, ln, Empty(), terms))
  {
    NonNegativeSettingSafe(s, ln, terms);
    if terms != [] {
      var init := terms[..|terms| - 1];
      var t := terms[|terms| - 1];
      assert NonNegativeSetting(s, ln, init);
      AccTermsNonNegative(s, ln, init);
      var ps := PostingsOf(s, t);
      if ps != [] {
        IdfNonNegative(ln, EffectiveN(s), |ps|);
        AccPostingsNonNegative(s, TermIdf(s, ln, t), AccTerms(s, ln, Empty(), init), ps);
      }
    }
  }

  /** Under those conditions the search succeeds and every score is non-negative. */
  lemma ScoresNonNegative(s: Store, ln: real -> real, terms: seq<string>, topK: int, i: nat)
    requires |s.index| > 0 && NonNegativeSetting(s, ln, terms)
    ensures Bm25Results(s, ln, terms, topK).Hits?
    ensures i < |Bm25Results(s, ln, terms, topK).hits| ==> Bm25Results(s, ln, terms, topK).hits[i].score >= 0.0
  {
    AccTermsNonNegative(s, ln, terms);
    if i < |Bm25Results(s, ln, terms, topK).hits| {
      var acc := Scores(s, ln, terms);
      var h := Bm25Results(s, ln, terms, topK).hits[i];
      ResultEntries(s, ln, terms, topK, i);
      ScoreIsSum(s, ln, terms, h.doc);
      ScoresKeys(s, ln, terms);
      AppendNewMembers([], Visits(s, terms), h.doc);
    }
  }
}
