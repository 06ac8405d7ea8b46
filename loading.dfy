/** The start-up derivation of the service's tables from already-parsed rows:
    the metadata and length tables, the content table, the collection size
    and the initialisation error. */
module Loading {
  import opened Common
  import opened Text
  import opened Dicts
  import opened Store

  // ---------------------------------------------------------------- metadata rows

  /** One row of the metadata table as `csv.DictReader` gives it; `None` is a
      column the file does not have. */
  datatype MetaRow = MetaRow(
    docId: Option<string>,
    url: Option<string>,
    title: Option<string>,
    imageUrl: Option<string>,
    docLen: Option<string>)

  /** `str(row.get("doc_id"))`, or `None` for a row that is skipped because that
      string is empty or "None". */
  function RowId(row: MetaRow): Option<DocId> {
    match row.docId
    case None => None
    case Some(x) => if x == "" || x == "None" then None else Some(x)
  }

  /** `int(row.get("doc_len", 1) or 1)`; `None` when `int()` raises ValueError. */
  function RowDocLen(row: MetaRow): Option<int> {
    match row.docLen
    case None => Some(1)
    case Some(x) => if x == "" then Some(1) else ParseInt(x)
  }

  function RowMeta(row: MetaRow, docLen: int): Meta {
    Meta(row.url.GetOr(""), row.title.GetOr("Untitled"), row.imageUrl.GetOr(""), docLen)
  }

  /** The metadata and length tables, and whether loading stopped with an error. */
  datatype MetaTables = MetaTables(meta: map<DocId, Meta>, lengths: Dict<int>, failed: bool)

  /** One row's step: a skipped row changes nothing, an unparsable length stops
      the load, any other row is stored under its id, replacing an earlier one. */
  function MetaStep(t: MetaTables, row: MetaRow): MetaTables {
    match RowId(row)
    case None => t
    case Some(id) =>
      match RowDocLen(row)
      case None => t.(failed := true)
      case Some(n) => MetaTables(t.meta[id := RowMeta(row, n)], Put(t.lengths, id, n), false)
  }

  /** The tables after the rows are read in order, up to the first failure. */
  function MetaFrom(rows: seq<MetaRow>): MetaTables {
    if rows == [] then MetaTables(map[], Empty(), false)
    else
      var prev := MetaFrom(rows[..|rows| - 1]);
      if prev.failed then prev else MetaStep(prev, rows[|rows| - 1])
  }

  /** The metadata loop: rows read in order into the two tables, stopping at the
      first row whose length does not parse. */
  method LoadMeta(rows: seq<MetaRow>) returns (meta: map<DocId, Meta>, lengths: Dict<int>, failed: bool)
    ensures MetaTables(meta, lengths, failed) == MetaFrom(rows)
  {
    meta, lengths, failed := map[], Empty(), false;
    var i := 0;
    while i < |rows|
      invariant 0 <= i <= |rows|
      invariant MetaTables(meta, lengths, false) == MetaFrom(rows[..i])
    {
      var row := rows[i];
      assert rows[..i + 1][..i] == rows[..i];
      var id := RowId(row);
      if id.Some? {
        var n := RowDocLen(row);
        if n.None? {
          FailureStops(rows, i + 1);
          return meta, lengths, true;
        }
        meta := meta[id.value := RowMeta(row, n.value)];
        lengths := Put(lengths, id.value, n.value);
      }
      i := i + 1;
    }
    assert rows[..i] == rows;
  }

  /** Once a load has failed, later rows are not read. */
  lemma {:induction false} FailureStops(rows: seq<MetaRow>, i: nat)
    requires i <= |rows| && MetaFrom(rows[..i]).failed
    ensures MetaFrom(rows) == MetaFrom(rows[..i])
  {
    if i < |rows| {
      var init := rows[..|rows| - 1];
      assert init[..i] == rows[..i];
      FailureStops(init, i);
    } else {
      assert rows[..i] == rows;
    }
  }

  /** The length table holds exactly the ids of the metadata table, each with
      its row's `doc_len`. */
  lemma {:induction false} LengthsMirrorMeta(rows: seq<MetaRow>)
    ensures var t := MetaFrom(rows);
      && t.lengths.vals.Keys == t.meta.Keys
      && forall id :: id in t.meta ==> t.lengths.vals[id] == t.meta[id].docLen
  {
    if rows != [] {
      LengthsMirrorMeta(rows[..|rows| - 1]);
    }
  }

  /** A row that is not skipped and whose `doc_len` does not parse. */
  predicate BadRow(row: MetaRow) {
    RowId(row).Some? && RowDocLen(row).None?
  }

  predicate HasBadRow(rows: seq<MetaRow>) {
    exists i :: 0 <= i < |rows| && BadRow(rows[i])
  }

  lemma HasBadRowSnoc(rows: seq<MetaRow>)
    requires rows != []
    ensures HasBadRow(rows) <==> HasBadRow(rows[..|rows| - 1]) || BadRow(rows[|rows| - 1])
  {
    var init := rows[..|rows| - 1];
    if HasBadRow(init) {
      var i :| 0 <= i < |init| && BadRow(init[i]);
      assert rows[i] == init[i];
    }
    if HasBadRow(rows) {
      var i :| 0 <= i < |rows| && BadRow(rows[i]);
      if i < |init| {
        assert init[i] == rows[i];
      }
    }
  }

  lemma MetaStepFails(t: MetaTables, row: MetaRow)
    requires !t.failed
    ensures MetaStep(t, row).failed <==> BadRow(row)
  {
  }

  /** The load fails exactly when some row that is not skipped has a `doc_len`
      that does not parse. */
  lemma {:induction false} MetaFailedIff(rows: seq<MetaRow>)
    ensures MetaFrom(rows).failed <==> HasBadRow(rows)
  {
    if rows != [] {
      var init := rows[..|rows| - 1];
      MetaFailedIff(init);
      HasBadRowSnoc(rows);
      if !MetaFrom(init).failed {
        MetaStepFails(MetaFrom(init), rows[|rows| - 1]);
      }
    }
  }

  /** Some row, not skipped, carries `id`. */
  predicate HasRowFor(rows: seq<MetaRow>, id: DocId) {
    exists i :: 0 <= i < |rows| && RowId(rows[i]) == Some(id)
  }

  /** Row `i` is the last row that carries `id`. */
  predicate LastRowFor(rows: seq<MetaRow>, id: DocId, i: int) {
    0 <= i < |rows| && RowId(rows[i]) == Some(id)
    && forall j :: i < j < |rows| ==> RowId(rows[j]) != Some(id)
  }

  lemma HasRowForSnoc(rows: seq<MetaRow>, id: DocId)
    requires rows != []
    ensures HasRowFor(rows, id)
        <==> HasRowFor(rows[..|rows| - 1], id) || RowId(rows[|rows| - 1]) == Some(id)
  {
    var init := rows[..|rows| - 1];
    if HasRowFor(init, id) {
      var i :| 0 <= i < |init| && RowId(init[i]) == Some(id);
      assert rows[i] == init[i];
    }
    if HasRowFor(rows, id) {
      var i :| 0 <= i < |rows| && RowId(rows[i]) == Some(id);
      if i < |init| {
        assert init[i] == rows[i];
      }
    }
  }

  /** Without a failure, an id has metadata exactly when some row carries it. */
  lemma {:induction false} MetaKeys(rows: seq<MetaRow>, id: DocId)
    requires !MetaFrom(rows).failed
    ensures id in MetaFrom(rows).meta <==> HasRowFor(rows, id)
  {
    if rows != [] {
      var init := rows[..|rows| - 1];
      assert !MetaFrom(init).failed;
      MetaKeys(init, id);
      HasRowForSnoc(rows, id);
    }
  }

  /** Without a failure, an id's metadata is that of the last row carrying it. */
  lemma {:induction false} LastRowMeta(rows: seq<MetaRow>, id: DocId, i: int)
    requires !MetaFrom(rows).failed && LastRowFor(rows, id, i)
    ensures RowDocLen(rows[i]).Some?
    ensures id in MetaFrom(rows).meta
    ensures MetaFrom(rows).meta[id] == RowMeta(rows[i], RowDocLen(rows[i]).value)
  {
    var init := rows[..|rows| - 1];
    assert !MetaFrom(init).failed;
    if i < |init| {
      assert RowId(rows[|rows| - 1]) != Some(id);
      assert LastRowFor(init, id, i) by {
        assert init[i] == rows[i];
        forall j | i < j < |init| ensures RowId(init[j]) != Some(id) {
          assert init[j] == rows[j];
        }
      }
      LastRowMeta(init, id, i);
      assert init[i] == rows[i];
    }
  }

  /** Without a failure, an id has metadata exactly when some row carries it,
      and its metadata is that of the last such row. */
  lemma LastRowWins(rows: seq<MetaRow>, id: DocId)
    requires !MetaFrom(rows).failed
    ensures id in MetaFrom(rows).meta <==> exists i :: 0 <= i < |rows| && RowId(rows[i]) == Some(id)
    ensures forall i :: LastRowFor(rows, id, i)
              ==> RowDocLen(rows[i]).Some?
                  && MetaFrom(rows).meta[id] == RowMeta(rows[i], RowDocLen(rows[i]).value)
  {
    MetaKeys(rows, id);
    forall i | LastRowFor(rows, id, i)
      ensures RowDocLen(rows[i]).Some?
           && MetaFrom(rows).meta[id] == RowMeta(rows[i], RowDocLen(rows[i]).value)
    {
      LastRowMeta(rows, id, i);
    }
  }

  // ---------------------------------------------------------------- content rows

  /** `(row.get("content_final") or "").strip()`. */
  function CellText(cell: Option<string>): string {
    match cell
    case None => ""
    case Some(x) => Strip(x)
  }

  /** `DOC_CONTENT` after the content rows are read: row `idx` is stored under
      `str(idx)`. */
  function ContentFrom(rows: seq<Option<string>>): map<DocId, string> {
    if rows == [] then map[]
    else ContentFrom(rows[..|rows| - 1])[IntToString(|rows| - 1) := CellText(rows[|rows| - 1])]
  }

  method LoadContent(rows: seq<Option<string>>) returns (content: map<DocId, string>)
    ensures content == ContentFrom(rows)
  {
    content := map[];
    var idx := 0;
    while idx < |rows|
      invariant 0 <= idx <= |rows|
      invariant content == ContentFrom(rows[..idx])
    {
      assert rows[..idx + 1][..idx] == rows[..idx];
      content := content[IntToString(idx) := CellText(rows[idx])];
      idx := idx + 1;
    }
    assert rows[..idx] == rows;
  }

  lemma IntToStringInjective(a: int, b: int)
    requires IntToString(a) == IntToString(b)
    ensures a == b
  {
    ParseIntOfString(a);
    ParseIntOfString(b);
  }

  lemma ContentSnoc(rows: seq<Option<string>>)
    requires rows != []
    ensures ContentFrom(rows)
         == ContentFrom(rows[..|rows| - 1])[IntToString(|rows| - 1) := CellText(rows[|rows| - 1])]
  {
  }

  /** `{str(0), ..., str(n - 1)}`. */
  function RowKeys(n: nat): set<DocId> {
    if n == 0 then {} else RowKeys(n - 1) + {IntToString(n - 1)}
  }

  lemma {:induction false} RowKeysMembers(n: nat, d: DocId)
    ensures d in RowKeys(n) <==> exists i :: 0 <= i < n && d == IntToString(i)
  {
    if n > 0 {
      RowKeysMembers(n - 1, d);
      if d == IntToString(n - 1) {
        assert 0 <= n - 1 < n;
      } else if exists i :: 0 <= i < n && d == IntToString(i) {
        var i :| 0 <= i < n && d == IntToString(i);
        assert i < n - 1;
      }
    }
  }

  lemma {:induction false} ContentKeySet(rows: seq<Option<string>>)
    ensures ContentFrom(rows).Keys == RowKeys(|rows|)
  {
    if rows != [] {
      ContentKeySet(rows[..|rows| - 1]);
      ContentSnoc(rows);
    }
  }

  /** The content table is keyed by the row numbers `str(0)`, `str(1)`, .... */
  lemma ContentKeys(rows: seq<Option<string>>, d: DocId)
    ensures d in ContentFrom(rows) <==> exists i :: 0 <= i < |rows| && d == IntToString(i)
  {
    ContentKeySet(rows);
    RowKeysMembers(|rows|, d);
  }

  /** The entry of row `i` is that row's stripped content, or "" when it has none. */
  lemma {:induction false} ContentEntry(rows: seq<Option<string>>, i: nat)
    requires i < |rows|
    ensures IntToString(i) in ContentFrom(rows)
    ensures ContentFrom(rows)[IntToString(i)] == CellText(rows[i])
  {
    var init := rows[..|rows| - 1];
    ContentSnoc(rows);
    if i < |init| {
      ContentEntry(init, i);
      assert init[i] == rows[i];
      if IntToString(i) == IntToString(|rows| - 1) {
        IntToStringInjective(i, |rows| - 1);
      }
    }
  }

  lemma IdsOfAdd(index: Index, ts: set<string>, t: string)
    requires ts <= index.Keys && t in index && t !in ts
    ensures IdsOf(index, ts + {t}) == IdsOf(index, ts) + DocSet(index[t])
  {
    forall x | x in IdsOf(index, ts + {t}) ensures x in IdsOf(index, ts) + DocSet(index[t]) {
      var u, i :| u in ts + {t} && 0 <= i < |index[u]| && index[u][i].doc == x;
      if u == t {
        DocSetMembers(index[t], x);
      }
    }
    forall x | x in DocSet(index[t]) ensures x in IdsOf(index, ts + {t}) {
      DocSetMembers(index[t], x);
      var i :| 0 <= i < |index[t]| && index[t][i].doc == x;
      assert t in ts + {t};
    }
  }

  /** The fallback count of the distinct ids across all posting lists; the
      order in which the terms are visited does not matter for a set. */
  method CountDistinctIds(index: Index) returns (n: nat)
    ensures n == |AllIds(index)|
  {
    var allIds: set<DocId> := {};
    var todo := index.Keys;
    while todo != {}
      invariant todo <= index.Keys
      invariant allIds == IdsOf(index, index.Keys - todo)
      decreases |todo|
    {
      var t :| t in todo;
      allIds := AddIds(allIds, index[t]);
      IdsOfAdd(index, index.Keys - todo, t);
      assert index.Keys - todo + {t} == index.Keys - (todo - {t});
      todo := todo - {t};
    }
    assert index.Keys - todo == index.Keys;
    n := |allIds|;
  }

  /** `all_ids.add(str(d))` for each document of one posting list. */
  method AddIds(ids: set<DocId>, postings: seq<Posting>) returns (r: set<DocId>)
    ensures r == ids + DocSet(postings)
  {
    r := ids;
    var j := 0;
    while j < |postings|
      invariant 0 <= j <= |postings|
      invariant r == ids + DocSet(postings[..j])
    {
      assert postings[..j + 1][..j] == postings[..j];
      r := r + {postings[j].doc};
      j := j + 1;
    }
    assert postings[..j] == postings;
  }

  /** `TOTAL_DOCS` after a metadata load that did not fail: the number of
      metadata rows, or, when there are none and the index is not empty, the
      number of distinct ids across the posting lists. */
  function TotalDocsFrom(index: Index, meta: map<DocId, Meta>): nat {
    if |meta| == 0 && |index| > 0 then |AllIds(index)| else |meta|
  }

  // ---------------------------------------------------------------- start-up

  /** The error recorded at start-up; a later one replaces an earlier one. */
  datatype InitFault = IndexLoadFailed | MetaLoadFailed

  datatype Loaded = Loaded(store: Store, initError: Option<InitFault>)

  /** What start-up finds of the metadata file: no file (`FileNotFoundError`),
      or the rows read from it, with `readFailed` when reading then stopped
      with any other error (an unreadable file, a decoding or a CSV error). */
  datatype MetaInput = MetaFileMissing | MetaFileRead(rows: seq<MetaRow>, readFailed: bool)

  /** The module-level start-up. `index` is `None` when the index file cannot
      be loaded; `contentRows` is `None` when the content file does not exist,
      and otherwise holds the rows read before the end of the file or before a
      read error, which is logged and ignored. */
  function InitSpec(index: Option<Index>, metaInput: MetaInput,
                    contentRows: Option<seq<Option<string>>>): Loaded
  {
    var idx := index.GetOr(map[]);
    var indexError := if index.None? then Some(IndexLoadFailed) else None;
    var content := if contentRows.None? then map[] else ContentFrom(contentRows.value);
    match metaInput
    case MetaFileMissing => Loaded(Store(idx, map[], Empty(), content, 0), indexError)
    case MetaFileRead(rows, readFailed) =>
      var t := MetaFrom(rows);
      if t.failed || readFailed then Loaded(Store(idx, t.meta, t.lengths, content, 0), Some(MetaLoadFailed))
      else Loaded(Store(idx, t.meta, t.lengths, content, TotalDocsFrom(idx, t.meta)), indexError)
  }

  method Init(index: Option<Index>, metaInput: MetaInput,
              contentRows: Option<seq<Option<string>>>) returns (l: Loaded)
    ensures l == InitSpec(index, metaInput, contentRows)
  {
    var idx: Index := map[];
    var initError: Option<InitFault> := None;
    if index.Some? {
      idx := index.value;
    } else {
      initError := Some(IndexLoadFailed);
    }
    var meta: map<DocId, Meta> := map[];
    var lengths: Dict<int> := Empty();
    var totalDocs: nat := 0;
    if metaInput.MetaFileRead? {
      var failed;
      meta, lengths, failed := LoadMeta(metaInput.rows);
      if failed || metaInput.readFailed {
        initError := Some(MetaLoadFailed);
      } else {
        totalDocs := |meta|;
        if totalDocs == 0 && |idx| > 0 {
          totalDocs := CountDistinctIds(idx);
        }
      }
    }
    var content: map<DocId, string> := map[];
    if contentRows.Some? {
      content := LoadContent(contentRows.value);
    }
    l := Loaded(Store(idx, meta, lengths, content, totalDocs), initError);
  }

  // ---------------------------------------------------------------- what start-up promises

  /** The initialisation error is set exactly when the index cannot be loaded,
      or the metadata file exists but a read error or a row's unparsable length
      stops its load; the latter wins. */
  lemma InitErrorIff(index: Option<Index>, metaInput: MetaInput,
                     contentRows: Option<seq<Option<string>>>)
    ensures var l := InitSpec(index, metaInput, contentRows);
      && (l.initError == Some(MetaLoadFailed)
          <==> metaInput.MetaFileRead? && (metaInput.readFailed || HasBadRow(metaInput.rows)))
      && (l.initError == Some(IndexLoadFailed) <==> index.None? && l.initError != Some(MetaLoadFailed))
      && (l.initError.None? <==> index.Some? && l.initError != Some(MetaLoadFailed))
  {
    if metaInput.MetaFileRead? {
      MetaFailedIff(metaInput.rows);
    }
  }

  /** After start-up the length table mirrors the metadata table. */
  lemma InitLengthsMirrorMeta(index: Option<Index>, metaInput: MetaInput,
                              contentRows: Option<seq<Option<string>>>)
    ensures var s := InitSpec(index, metaInput, contentRows).store;
      && s.lengths.vals.Keys == s.meta.Keys
      && forall id :: id in s.meta ==> s.lengths.vals[id] == s.meta[id].docLen
  {
    if metaInput.MetaFileRead? {
      LengthsMirrorMeta(metaInput.rows);
    }
  }

  /** Without a start-up error, and with a well-formed index whose documents
      all have metadata (or no metadata at all), no term occurs in more than N
      documents. */
  lemma InitDfAtMostN(index: Index, metaRows: seq<MetaRow>, contentRows: Option<seq<Option<string>>>, t: string)
    requires !MetaFrom(metaRows).failed
    requires WellFormedIndex(index) && t in index
    requires |MetaFrom(metaRows).meta| == 0 || AllIds(index) <= MetaFrom(metaRows).meta.Keys
    ensures |index[t]| <= EffectiveN(InitSpec(Some(index), MetaFileRead(metaRows, false), contentRows).store)
  {
    var meta := MetaFrom(metaRows).meta;
    if |meta| == 0 {
      DfAtMostAllIds(index, t);
    } else {
      DfAtMostMeta(index, meta, t);
    }
  }

  /** A missing metadata file leaves the collection size at 0, so N falls back to 1. */
  lemma MissingMetaGivesUnitN(index: Option<Index>, contentRows: Option<seq<Option<string>>>)
    ensures EffectiveN(InitSpec(index, MetaFileMissing, contentRows).store) == 1
  {
  }
}
