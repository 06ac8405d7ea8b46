/** The GET handler: the start-up error check, the detail view of one document
    (`?doc_id=`) and the search (`?q=&top_k=`). Responses are modelled by what
    they carry; the JSON encoding and the HTTP status lines are not modelled. */
module Service {
  import opened Common
  import opened Text
  import opened Store
  import opened Bm25
  import opened Loading
  import Bm25Facts

  /** The first value of each query parameter the handler reads, when present. */
  datatype Request = Request(docId: Option<string>, q: Option<string>, topK: Option<string>)

  /** The body of a detail response. */
  datatype DocRecord = DocRecord(doc: DocId, title: string, url: string, imageUrl: string,
                                 docLen: Option<int>, content: string)

  datatype Response =
    | InitFailure(fault: InitFault)                              // 500, INIT_ERROR
    | DocumentNotFound(requestedId: DocId)                       // 404, DOCUMENT_NOT_FOUND
    | DocumentDetail(record: DocRecord)                          // 200
    | MissingQuery                                               // 400, q is required
    | SearchResults(query: string, count: nat, results: seq<Hit>) // 200
    | RuntimeFailure                                             // 500, RUNTIME_ERROR

  /** The `top_k` used when the parameter is absent or is not an integer. */
  const DefaultTopK: int := 20

  // ---------------------------------------------------------------- detail mode

  /** `DOC_CONTENT.get(doc_id, "")`. */
  function ContentOf(s: Store, id: DocId): string {
    if id in s.content then s.content[id] else ""
  }

  /** The detail view of document `id`. A present metadata entry is never falsy,
      so only a missing entry with empty content is not found. */
  function DetailOf(s: Store, id: DocId): Response {
    var content := ContentOf(s, id);
    if id in s.meta then
      var m := s.meta[id];
      DocumentDetail(DocRecord(id, m.title, m.url, m.imageUrl, Some(m.docLen), content))
    else if content == "" then DocumentNotFound(id)
    else DocumentDetail(DocRecord(id, "Untitled", "", "", None, content))
  }

  /** The detail view of the document a raw `doc_id` names. */
  function Detail(s: Store, raw: string): Response {
    DetailOf(s, CanonicalId(raw))
  }

  // ---------------------------------------------------------------- search mode

  /** `int(top_k_str)` with `top_k_str` defaulting to "20", and 20 on a ValueError. */
  function TopKOf(topK: Option<string>): int {
    match ParseInt(topK.GetOr("20"))
    case Some(k) => k
    case None => DefaultTopK
  }

  /** `q.lower().split()`. */
  function QueryTerms(q: string): seq<string> {
    Split(Lower(q))
  }

  function Search(s: Store, ln: real -> real, q: string, topK: Option<string>): Response {
    match Bm25Results(s, ln, QueryTerms(q), TopKOf(topK))
    case Hits(h) => SearchResults(q, |h|, h)
    case ZeroDivision => RuntimeFailure
  }

  // ---------------------------------------------------------------- the handler

  /** `do_GET`, as a function of the start-up state and the request. */
  function Respond(l: Loaded, ln: real -> real, req: Request): Response {
    if l.initError.Some? then InitFailure(l.initError.value)
    else if req.docId.Some? then Detail(l.store, req.docId.value)
    else
      var q := Strip(req.q.GetOr(""));
      if q == "" then MissingQuery else Search(l.store, ln, q, req.topK)
  }

  /** `do_GET` as the service runs it, with the imperative search. */
  method HandleGet(l: Loaded, ln: real -> real, req: Request) returns (r: Response)
    ensures r == Respond(l, ln, req)
  {
    if l.initError.Some? {
      return InitFailure(l.initError.value);
    }
    if req.docId.Some? {
      return Detail(l.store, req.docId.value);
    }
    var q := Strip(req.q.GetOr(""));
    if q == "" {
      return MissingQuery;
    }
    var topK := TopKOf(req.topK);
    var outcome := Bm25Search(l.store, ln, QueryTerms(q), topK);
    match outcome
    case Hits(results) =>
      r := SearchResults(q, |results|, results);
    case ZeroDivision =>
      r := RuntimeFailure;
  }

  // ---------------------------------------------------------------- routing

  /** A start-up error answers every request, and only such an error gives
      that response. */
  lemma InitErrorFirst(l: Loaded, ln: real -> real, req: Request)
    ensures Respond(l, ln, req).InitFailure? <==> l.initError.Some?
    ensures l.initError.Some? ==> Respond(l, ln, req).fault == l.initError.value
  {
  }

  /** With `doc_id` present the request is a detail request: `q` and `top_k`
      are not read. */
  lemma DocIdPrecedesQuery(l: Loaded, ln: real -> real, id: string, q1: Option<string>,
                           k1: Option<string>, q2: Option<string>, k2: Option<string>)
    ensures Respond(l, ln, Request(Some(id), q1, k1)) == Respond(l, ln, Request(Some(id), q2, k2))
    ensures l.initError.None? ==> Respond(l, ln, Request(Some(id), q1, k1)) == Detail(l.store, id)
  {
  }

  /** A search request is rejected before ranking exactly when `q` is absent or
      whitespace only. */
  lemma MissingQueryIff(l: Loaded, ln: real -> real, req: Request)
    requires l.initError.None? && req.docId.None?
    ensures Respond(l, ln, req) == MissingQuery <==> req.q.None? || AllSpace(req.q.value)
  {
    StripBlankIff(req.q.GetOr(""));
    if req.q.Some? && !AllSpace(req.q.value) {
      var q := Strip(req.q.value);
      assert Search(l.store, ln, q, req.topK) != MissingQuery;
    }
  }

  /** A search answers with the stripped query, the results of the ranking of
      its lower-cased words and their count, or with a runtime error exactly
      when the ranking divides by zero. */
  lemma SearchResponse(l: Loaded, ln: real -> real, req: Request)
    requires l.initError.None? && req.docId.None?
    requires req.q.Some? && !AllSpace(req.q.value)
    ensures var q := Strip(req.q.value);
      var outcome := Bm25Results(l.store, ln, LowerAll(Split(q)), TopKOf(req.topK));
      var r := Respond(l, ln, req);
      && (r == RuntimeFailure <==> outcome == ZeroDivision)
      && (r.SearchResults? <==> outcome.Hits?)
      && (r.SearchResults? ==> r.query == q && r.results == outcome.hits && r.count == |r.results|)
  {
    StripBlankIff(req.q.value);
    SplitLower(Strip(req.q.value));
  }

  /** A `top_k` that is absent or not an integer is read as 20. */
  lemma TopKDefault(topK: Option<string>)
    requires topK.None? || ParseInt(topK.value).None?
    ensures TopKOf(topK) == DefaultTopK
  {
    if topK.None? {
      assert ParseInt("20") == Some(20) by {
        assert IntStrip("20") == "20" by { IntStripOfText("20"); }
        assert DigitString("20") by { DigitTailOfDigits("0"); }
        assert DigitsValue("20") == 20 by { assert "20"[..1] == "2"; }
        ParseIntUnsigned("20");
      }
    }
  }

  /** Every spelling of the integer `k` as `top_k` ranks with `k`. */
  lemma TopKOfInteger(k: int, raw: string)
    requires ParseInt(raw) == Some(k)
    ensures TopKOf(Some(raw)) == k
  {
  }

  // ---------------------------------------------------------------- detail view

  /** The detail view reports not found exactly when the canonical identifier
      has neither metadata nor non-empty content; a found record carries the
      canonical identifier, the content, and the metadata or its defaults. */
  lemma DetailIff(s: Store, raw: string)
    ensures var id := CanonicalId(raw);
      && (Detail(s, raw).DocumentNotFound? <==> id !in s.meta && ContentOf(s, id) == "")
      && (Detail(s, raw).DocumentNotFound? ==> Detail(s, raw).requestedId == id)
      && (Detail(s, raw).DocumentDetail? <==> !Detail(s, raw).DocumentNotFound?)
  {
  }

  /** The fields of a found record. */
  lemma DetailRecord(s: Store, raw: string)
    requires Detail(s, raw).DocumentDetail?
    ensures var id, d := CanonicalId(raw), Detail(s, raw).record;
      && d.doc == id && d.content == ContentOf(s, id)
      && (id in s.meta ==> (d.title, d.url, d.imageUrl, d.docLen)
                           == (s.meta[id].title, s.meta[id].url, s.meta[id].imageUrl, Some(s.meta[id].docLen)))
      && (id !in s.meta ==> (d.title, d.url, d.imageUrl, d.docLen) == ("Untitled", "", "", None) && d.content != "")
  {
  }

  /** The detail view depends on the requested identifier only through its
      canonical form. */
  lemma DetailOfCanonical(s: Store, a: string, b: string)
    requires CanonicalId(a) == CanonicalId(b)
    ensures Detail(s, a) == Detail(s, b)
  {
  }

  /** Two spellings of the same integer ask for the same document. */
  lemma DetailOfInteger(s: Store, a: string, b: string)
    requires ParseInt(a).Some? && ParseInt(a) == ParseInt(b)
    ensures Detail(s, a) == Detail(s, b)
  {
    CanonicalIdOfInteger(a, b);
    DetailOfCanonical(s, a, b);
  }

  /** "007" asks for document "7". */
  lemma DetailLeadingZeros(s: Store)
    ensures Detail(s, "007") == Detail(s, "7")
  {
    CanonicalIdLeadingZeros();
    CanonicalIdIdempotent("007");
    DetailOfCanonical(s, "007", "7");
  }

  /** For a store whose content was loaded from `rows`, any spelling of a row
      number whose cell is not blank finds that row's text under `str(i)`. */
  lemma DetailOfContentRow(s: Store, rows: seq<Option<string>>, i: nat, raw: string)
    requires s.content == ContentFrom(rows)
    requires i < |rows| && CellText(rows[i]) != ""
    requires ParseInt(raw) == Some(i)
    ensures Detail(s, raw).DocumentDetail?
    ensures Detail(s, raw).record.doc == IntToString(i)
    ensures Detail(s, raw).record.content == CellText(rows[i])
  {
    var id := CanonicalId(raw);
    assert id == IntToString(i);
    ContentEntry(rows, i);
    assert ContentOf(s, id) == CellText(rows[i]);
    assert Detail(s, raw) == DetailOf(s, id);
  }

  /** Every result of a search is a document of some posting list of a query
      word, and the results come in order of non-increasing score. */
  lemma SearchRanked(s: Store, ln: real -> real, q: string, topK: Option<string>, i: nat, j: nat)
    requires Search(s, ln, q, topK).SearchResults?
    requires i <= j < |Search(s, ln, q, topK).results|
    ensures var hits := Search(s, ln, q, topK).results;
      && hits[i].doc in Bm25Facts.Visits(s, QueryTerms(q))
      && hits[i].score >= hits[j].score
  {
    var terms := QueryTerms(q);
    var k := TopKOf(topK);
    assert Bm25Results(s, ln, terms, k).hits == Search(s, ln, q, topK).results;
    Bm25Facts.ResultEntries(s, ln, terms, k, i);
    Bm25Facts.ResultsSorted(s, ln, terms, k, i, j);
  }

  /** A search response answers the stripped query. */
  lemma SearchResultsOfQuery(l: Loaded, ln: real -> real, req: Request)
    requires Respond(l, ln, req).SearchResults?
    ensures var q := Strip(req.q.GetOr(""));
      Respond(l, ln, req) == Search(l.store, ln, q, req.topK)
  {
  }

  /** Every result of a successful search is a document of some posting list of
      a query word, in order of non-increasing score. */
  lemma SearchResultsRanked(l: Loaded, ln: real -> real, req: Request, i: nat, j: nat)
    requires Respond(l, ln, req).SearchResults?
    requires i <= j < |Respond(l, ln, req).results|
    ensures var hits := Respond(l, ln, req).results;
      && hits[i].doc in Bm25Facts.Visits(l.store, QueryTerms(Strip(req.q.GetOr(""))))
      && hits[i].score >= hits[j].score
  {
    SearchResultsOfQuery(l, ln, req);
    SearchRanked(l.store, ln, Strip(req.q.GetOr("")), req.topK, i, j);
  }
}
