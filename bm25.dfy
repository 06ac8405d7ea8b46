/** `bm25_search`: Okapi BM25 ranking of the documents of the inverted index
    for a list of lower-case query terms. */
module Bm25 {
  import opened Common
  import opened Dicts
  import opened Store
  import opened Ranking

  const K1: real := 1.5
  const B: real := 0.75

  /** THE ASSUMPTION ABOUT THE LOGARITHM. The natural logarithm is a parameter
      `ln` of the model; the only property of it that any proof uses is this one,
      and each lemma that needs it says so in its `requires`. */
  ghost predicate LogNonNegative(ln: real -> real) {
    forall x: real :: x >= 1.0 ==> ln(x) >= 0.0
  }

  // ---------------------------------------------------------------- formulas

  /** The argument of the logarithm in the idf, `(N - df + 0.5) / (df + 0.5) + 1`. */
  function IdfArgument(n: nat, df: nat): real {
    (n as real - df as real + 0.5) / (df as real + 0.5) + 1.0
  }

  function Idf(ln: real -> real, n: nat, df: nat): real {
    ln(IdfArgument(n, df))
  }

  /** `tf + k1 * (1 - b + b * dl / avg_dl)`. */
  function Denominator(tf: int, dl: real, avg: real): real
    requires avg != 0.0
  {
    tf as real + K1 * (1.0 - B + B * (dl / avg))
  }

  /** One posting's contribution to its document's score. */
  function Contribution(idf: real, tf: int, dl: real, avg: real): real
    requires avg != 0.0 && Denominator(tf, dl, avg) != 0.0
  {
    idf * ((tf as real * (K1 + 1.0)) / Denominator(tf, dl, avg))
  }

  // ---------------------------------------------------------------- the collection

  /** `INVERTED_INDEX.get(term)`, with an absent term read as an empty list. */
  function PostingsOf(s: Store, term: string): seq<Posting> {
    if term in s.index then s.index[term] else []
  }

  /** Scoring `p` divides by neither a zero average length nor a zero denominator;
      either would raise ZeroDivisionError. */
  predicate PostingSafe(s: Store, p: Posting) {
    AvgDl(s) != 0.0 && Denominator(p.tf, LengthOf(s, p.doc), AvgDl(s)) != 0.0
  }

  predicate AllSafe(s: Store, ps: seq<Posting>) {
    forall i :: 0 <= i < |ps| ==> PostingSafe(s, ps[i])
  }

  predicate TermSafe(s: Store, term: string) {
    AllSafe(s, PostingsOf(s, term))
  }

  /** No posting of any query term raises ZeroDivisionError. */
  predicate QuerySafe(s: Store, terms: seq<string>) {
    forall i :: 0 <= i < |terms| ==> TermSafe(s, terms[i])
  }

  function TermIdf(s: Store, ln: real -> real, term: string): real {
    Idf(ln, EffectiveN(s), |PostingsOf(s, term)|)
  }

  function PostingScore(s: Store, idf: real, p: Posting): real
    requires PostingSafe(s, p)
  {
    Contribution(idf, p.tf, LengthOf(s, p.doc), AvgDl(s))
  }

  // ---------------------------------------------------------------- accumulation

  /** `scores[doc]` of the `defaultdict(float)`. */
  function ScoreOf(acc: Dict<real>, doc: DocId): real {
    if doc in acc.vals then acc.vals[doc] else 0.0
  }

  /** `scores[doc] += c`. */
  function AddScore(acc: Dict<real>, doc: DocId, c: real): Dict<real> {
    Put(acc, doc, ScoreOf(acc, doc) + c)
  }

  /** The accumulator after the postings `ps` of one term are added in order. */
  function AccPostings(s: Store, idf: real, acc: Dict<real>, ps: seq<Posting>): Dict<real>
    requires AllSafe(s, ps)
  {
    if ps == [] then acc
    else
      var p := ps[|ps| - 1];
      assert AllSafe(s, ps[..|ps| - 1]);
      AddScore(AccPostings(s, idf, acc, ps[..|ps| - 1]), p.doc, PostingScore(s, idf, p))
  }

  lemma AccPostingsStep(s: Store, idf: real, acc: Dict<real>, ps: seq<Posting>, j: nat)
    requires j < |ps| && AllSafe(s, ps[..j]) && PostingSafe(s, ps[j])
    ensures AllSafe(s, ps[..j + 1])
    ensures AccPostings(s, idf, acc, ps[..j + 1])
         == AddScore(AccPostings(s, idf, acc, ps[..j]), ps[j].doc, PostingScore(s, idf, ps[j]))
  {
    assert ps[..j + 1][..j] == ps[..j];
  }

  /** One term's step: a term with no postings is skipped. */
  function AccTerm(s: Store, ln: real -> real, acc: Dict<real>, term: string): Dict<real>
    requires TermSafe(s, term)
  {
    var ps := PostingsOf(s, term);
    if ps == [] then acc else AccPostings(s, TermIdf(s, ln, term), acc, ps)
  }

  /** The accumulator after the terms are processed in order. */
  function AccTerms(s: Store, ln: real -> real, acc: Dict<real>, terms: seq<string>): Dict<real>
    requires QuerySafe(s, terms)
  {
    if terms == [] then acc
    else
      assert QuerySafe(s, terms[..|terms| - 1]) && TermSafe(s, terms[|terms| - 1]);
      AccTerm(s, ln, AccTerms(s, ln, acc, terms[..|terms| - 1]), terms[|terms| - 1])
  }

  lemma AccTermsStep(s: Store, ln: real -> real, acc: Dict<real>, terms: seq<string>, i: nat)
    requires i < |terms| && QuerySafe(s, terms[..i]) && TermSafe(s, terms[i])
    ensures QuerySafe(s, terms[..i + 1])
    ensures AccTerms(s, ln, acc, terms[..i + 1]) == AccTerm(s, ln, AccTerms(s, ln, acc, terms[..i]), terms[i])
  {
    assert terms[..i + 1][..i] == terms[..i];
  }

  function Scores(s: Store, ln: real -> real, terms: seq<string>): Dict<real>
    requires QuerySafe(s, terms)
  {
    AccTerms(s, ln, Empty(), terms)
  }

  /** `scores.items()`, in the dictionary's order. */
  function ItemsOf(keys: seq<string>, vals: map<string, real>): seq<Scored>
    requires forall k :: k in keys ==> k in vals
  {
    if keys == [] then [] else [Scored(keys[0], vals[keys[0]])] + ItemsOf(keys[1..], vals)
  }

  function Items(acc: Dict<real>): seq<Scored> {
    ItemsOf(acc.keys, acc.vals)
  }

  /** The full ranking, before truncation. */
  function Ranked(s: Store, ln: real -> real, terms: seq<string>): seq<Scored>
    requires QuerySafe(s, terms)
  {
    SortDesc(Items(Scores(s, ln, terms)))
  }

  // ---------------------------------------------------------------- results

  /** One entry of the result list. */
  datatype Hit = Hit(doc: DocId, title: string, url: string, imageUrl: string,
                     docLen: Option<int>, score: real)

  /** Attaches the document's metadata, or the defaults when it has none. */
  function Enrich(meta: map<DocId, Meta>, x: Scored): Hit {
    if x.doc in meta then
      var m := meta[x.doc];
      Hit(x.doc, m.title, m.url, m.imageUrl, Some(m.docLen), x.score)
    else
      Hit(x.doc, "Untitled", "", "", None, x.score)
  }

  function EnrichAll(meta: map<DocId, Meta>, xs: seq<Scored>): (r: seq<Hit>)
    ensures |r| == |xs|
  {
    if xs == [] then [] else EnrichAll(meta, xs[..|xs| - 1]) + [Enrich(meta, xs[|xs| - 1])]
  }

  /** A search either returns its results or fails with ZeroDivisionError,
      which the handler reports as RUNTIME_ERROR. */
  datatype Outcome = Hits(hits: seq<Hit>) | ZeroDivision

  /** `bm25_search(query_terms, top_k)`. */
  function Bm25Results(s: Store, ln: real -> real, terms: seq<string>, topK: int): Outcome {
    if |s.index| == 0 then Hits([])
    else if !QuerySafe(s, terms) then ZeroDivision
    else Hits(EnrichAll(s.meta, TakePrefix(Ranked(s, ln, terms), topK)))
  }

  // ---------------------------------------------------------------- the search

  /** The search as the service runs it: a score accumulator updated posting by
      posting, term by term, then the sorted, truncated and enriched results. */
  method Bm25Search(s: Store, ln: real -> real, terms: seq<string>, topK: int) returns (r: Outcome)
    ensures r == Bm25Results(s, ln, terms, topK)
  {
    if |s.index| == 0 {
      return Hits([]);
    }
    var n := EffectiveN(s);
    var scores: Dict<real> := Empty();
    var i := 0;
    while i < |terms|
      invariant 0 <= i <= |terms|
      invariant QuerySafe(s, terms[..i])
      invariant scores == AccTerms(s, ln, Empty(), terms[..i])
    {
      var postings := PostingsOf(s, terms[i]);
      ghost var before := scores;
      if postings != [] {
        var df := |postings|;
        var idf := Idf(ln, n, df);
        var ok;
        scores, ok := AddPostings(s, idf, scores, postings);
        if !ok {
          assert !TermSafe(s, terms[i]);
          return ZeroDivision;
        }
        assert idf == TermIdf(s, ln, terms[i]);
      }
      assert TermSafe(s, terms[i]) && scores == AccTerm(s, ln, before, terms[i]);
      AccTermsStep(s, ln, Empty(), terms, i);
      i := i + 1;
    }
    assert terms[..i] == terms;
    var ranked := SortDesc(Items(scores));
    var results := EnrichRanking(s.meta, TakePrefix(ranked, topK));
    return Hits(results);
  }

  /** The inner loop of the search: each posting's contribution added to its
      document's score, or failure at the first posting that would divide by zero. */
  method AddPostings(s: Store, idf: real, scores: Dict<real>, postings: seq<Posting>)
    returns (r: Dict<real>, ok: bool)
    ensures ok <==> AllSafe(s, postings)
    ensures ok ==> r == AccPostings(s, idf, scores, postings)
  {
    var avg := AvgDl(s);
    r := scores;
    var j := 0;
    while j < |postings|
      invariant 0 <= j <= |postings|
      invariant AllSafe(s, postings[..j])
      invariant r == AccPostings(s, idf, scores, postings[..j])
    {
      var p := postings[j];
      var dl := LengthOf(s, p.doc);
      if avg == 0.0 || Denominator(p.tf, dl, avg) == 0.0 {
        assert !PostingSafe(s, postings[j]);
        return r, false;
      }
      var score := Contribution(idf, p.tf, dl, avg);
      AccPostingsStep(s, idf, scores, postings, j);
      r := AddScore(r, p.doc, score);
      j := j + 1;
    }
    assert postings[..j] == postings;
    return r, true;
  }

  /** The result loop: one enriched entry appended per ranked document. */
  method EnrichRanking(meta: map<DocId, Meta>, top: seq<Scored>) returns (results: seq<Hit>)
    ensures results == EnrichAll(meta, top)
  {
    results := [];
    var k := 0;
    while k < |top|
      invariant 0 <= k <= |top|
      invariant results == EnrichAll(meta, top[..k])
    {
      results := results + [Enrich(meta, top[k])];
      assert top[..k + 1][..k] == top[..k];
      k := k + 1;
    }
    assert top[..k] == top;
  }

}
