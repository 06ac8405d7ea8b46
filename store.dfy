/** The loaded collection the search service answers from, and the collection
    statistics BM25 derives from it: the collection size N, the average document
    length and the length used for each document. */
module Store {
  import opened Common
  import opened Dicts

  /** One entry of a posting list: a document and the term's frequency in it. */
  datatype Posting = Posting(doc: DocId, tf: int)

  /** The inverted index: each term's posting list, in the file's order. */
  type Index = map<string, seq<Posting>>

  /** The metadata of one document, as its row of the metadata table gave it. */
  datatype Meta = Meta(url: string, title: string, imageUrl: string, docLen: int)

  /** The service's loaded state: the inverted index, the metadata and length
      tables (the latter in insertion order), the document contents and the
      collection size recorded at start-up. */
  datatype Store = Store(
    index: Index,
    meta: map<DocId, Meta>,
    lengths: Dict<int>,
    content: map<DocId, string>,
    totalDocs: nat)

  /** The average length used when no document length is known. */
  const FallbackAvgDl: real := 300.0

  /** `N = TOTAL_DOCS or 1`. */
  function EffectiveN(s: Store): (n: nat)
    ensures n >= 1
  {
    if s.totalDocs == 0 then 1 else s.totalDocs
  }

  /** The mean of the known document lengths, or the fallback. */
  function AvgDl(s: Store): real {
    if Size(s.lengths) > 0 then Sum(s.lengths) as real / Size(s.lengths) as real
    else FallbackAvgDl
  }

  /** `DOC_LENGTHS.get(doc, avg_dl)`. */
  function LengthOf(s: Store, doc: DocId): real {
    if doc in s.lengths.vals then s.lengths.vals[doc] as real else AvgDl(s)
  }

  /** The documents of the posting lists of the terms `ts`. */
  function IdsOf(index: Index, ts: set<string>): set<DocId>
    requires ts <= index.Keys
  {
    set t, i | t in ts && 0 <= i < |index[t]| :: index[t][i].doc
  }

  /** Every document id that occurs in some posting list. */
  function AllIds(index: Index): set<DocId> {
    IdsOf(index, index.Keys)
  }

  /** No document occurs twice in a posting list, as in a JSON object's keys. */
  predicate DistinctDocs(ps: seq<Posting>) {
    forall i, j :: 0 <= i < j < |ps| ==> ps[i].doc != ps[j].doc
  }

  predicate WellFormedIndex(index: Index) {
    forall t :: t in index ==> DistinctDocs(index[t])
  }

  // ---------------------------------------------------------------- lemmas

  lemma QuotientAtLeast(a: real, b: real, lo: real)
    requires b > 0.0 && a >= lo * b
    ensures a / b >= lo
  {
    assert a / b * b == a;
  }

  /** With no recorded lengths the average length is the fallback 300.0;
      with non-negative lengths it is non-negative, and with positive lengths
      it is at least 1. */
  lemma AvgDlBounds(s: Store)
    ensures Size(s.lengths) == 0 ==> AvgDl(s) == FallbackAvgDl
    ensures AllAtLeast(s.lengths, 0) ==> AvgDl(s) >= 0.0
    ensures AllAtLeast(s.lengths, 1) ==> AvgDl(s) >= 1.0
  {
    if Size(s.lengths) > 0 {
      var n := Size(s.lengths) as real;
      var total := Sum(s.lengths) as real;
      assert AvgDl(s) == total / n;
      if AllAtLeast(s.lengths, 0) {
        SumAtLeast(s.lengths, 0);
        QuotientAtLeast(total, n, 0.0);
      }
      if AllAtLeast(s.lengths, 1) {
        SumAtLeast(s.lengths, 1);
        QuotientAtLeast(total, n, 1.0);
      }
    }
  }

  /** Non-negative recorded lengths, one of them positive, give a positive
      average length. */
  lemma AvgDlPositive(s: Store, doc: DocId)
    requires AllAtLeast(s.lengths, 0) && doc in s.lengths.vals && s.lengths.vals[doc] > 0
    ensures AvgDl(s) > 0.0
  {
    SumPositive(s.lengths, doc);
    assert Size(s.lengths) > 0 by {
      assert doc in s.lengths.keys;
    }
    var n := Size(s.lengths) as real;
    var total := Sum(s.lengths) as real;
    assert AvgDl(s) == total / n;
    QuotientPositive(total, n);
  }

  lemma QuotientPositive(a: real, b: real)
    requires a > 0.0 && b > 0.0
    ensures a / b > 0.0
  {
    assert a / b * b == a;
  }

  /** A document without a recorded length is given the average length, and a
      non-negative average with non-negative recorded lengths makes every
      document's length non-negative. */
  lemma LengthOfBounds(s: Store, doc: DocId)
    ensures doc !in s.lengths.vals ==> LengthOf(s, doc) == AvgDl(s)
    ensures AllAtLeast(s.lengths, 0) ==> LengthOf(s, doc) >= 0.0
  {
    AvgDlBounds(s);
  }

  /** The documents of a posting list. */
  function DocSet(ps: seq<Posting>): set<DocId> {
    if ps == [] then {} else DocSet(ps[..|ps| - 1]) + {ps[|ps| - 1].doc}
  }

  lemma {:induction false} DocSetMembers(ps: seq<Posting>, x: DocId)
    ensures x in DocSet(ps) <==> exists i :: 0 <= i < |ps| && ps[i].doc == x
  {
    if ps != [] {
      var init := ps[..|ps| - 1];
      DocSetMembers(init, x);
      if x in DocSet(init) {
        var i :| 0 <= i < |init| && init[i].doc == x;
        assert ps[i] == init[i];
      }
      if exists i :: 0 <= i < |ps| && ps[i].doc == x {
        var i :| 0 <= i < |ps| && ps[i].doc == x;
        if i < |init| {
          assert init[i] == ps[i];
        }
      }
    }
  }

  lemma {:induction false} DocSetSize(ps: seq<Posting>)
    requires DistinctDocs(ps)
    ensures |DocSet(ps)| == |ps|
  {
    if ps != [] {
      var init := ps[..|ps| - 1];
      var last := ps[|ps| - 1].doc;
      assert DistinctDocs(init) by {
        forall i, j | 0 <= i < j < |init| ensures init[i].doc != init[j].doc {
          assert init[i] == ps[i] && init[j] == ps[j];
        }
      }
      DocSetSize(init);
      assert last !in DocSet(init) by {
        DocSetMembers(init, last);
        forall i | 0 <= i < |init| ensures init[i].doc != last {
          assert init[i] == ps[i];
        }
      }
    }
  }

  /** A posting list with distinct documents is no longer than the number of
      documents it draws from. */
  lemma DfAtMost(ps: seq<Posting>, docs: set<DocId>)
    requires DistinctDocs(ps)
    requires forall i :: 0 <= i < |ps| ==> ps[i].doc in docs
    ensures |ps| <= |docs|
  {
    DocSetSize(ps);
    assert DocSet(ps) <= docs by {
      forall x | x in DocSet(ps) ensures x in docs {
        DocSetMembers(ps, x);
      }
    }
    SubsetSize(DocSet(ps), docs);
  }

  lemma SubsetSize(a: set<DocId>, b: set<DocId>)
    requires a <= b
    ensures |a| <= |b|
  {
    assert b == a + (b - a);
  }

  /** The document frequency of a term is at most the number of distinct ids
      across all posting lists, the fallback value of N. */
  lemma DfAtMostAllIds(index: Index, t: string)
    requires WellFormedIndex(index) && t in index
    ensures |index[t]| <= |AllIds(index)|
  {
    DfAtMost(index[t], AllIds(index));
  }

  /** When every posting's document has metadata, the document frequency of a
      term is at most the number of metadata rows. */
  lemma DfAtMostMeta(index: Index, meta: map<DocId, Meta>, t: string)
    requires WellFormedIndex(index) && t in index
    requires AllIds(index) <= meta.Keys
    ensures |index[t]| <= |meta|
  {
    DfAtMost(index[t], meta.Keys);
  }
}
