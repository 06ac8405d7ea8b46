# BM25 search service — a verified Dafny model

This project models the search service of the sipapa backend (`api/search.py`). At
start-up the service loads three tables:

- an inverted index (each term maps to its posting list of `doc_id → frequency`);
- a metadata table (`doc_id → url, title, image_url, doc_len`) together with a length table;
- a content table keyed by row number.

It also records the collection size `TOTAL_DOCS` and an initialisation error, if one
occurs. Each GET request is answered in this order:

1. the initialisation error, if there is one;
2. otherwise, when `doc_id` is present, the detail view of that document;
3. otherwise, an Okapi BM25 search for `q` over the index, truncated to `top_k` results.

The model has these modules:

| module | file | models |
|---|---|---|
| `Common` | `common.dfy` | `Option`, document identifiers |
| `Text` | `text.dfy` | ASCII `str.strip()`, `str.lower()`, `str.split()`, `int(str)` and `str(int)`, and the canonical document id `str(int(raw))` |
| `Dicts` | `dicts.dfy` | insertion-ordered dictionaries (the score accumulator and the length table) |
| `Store` | `store.dfy` | the loaded tables; the collection statistics N, `avg_dl` and `dl` |
| `Ranking` | `ranking.dfy` | the stable descending sort and Python's slice `[:top_k]` |
| `Bm25` | `bm25.dfy` | `bm25_search`: the specification functions and the imperative search |
| `Bm25Facts` | `bm25_facts.dfy` | what the search promises: the idf and contribution bounds, scores as sums, ordering, truncation, enrichment and stability |
| `Loading` | `loading.dfy` | the start-up loaders, which take rows that are already parsed |
| `Service` | `service.dfy` | `do_GET`: routing, the detail view and the search response |

The imperative parts keep their form, as `method`s with `while` loops. Each method is
proved equal to a specification function, and the lemmas are proved about those
functions. The loops modelled this way are:

- the nested scoring loops (`Bm25.Bm25Search`, `Bm25.AddPostings`);
- the result loop (`Bm25.EnrichRanking`);
- the metadata loader (`Loading.LoadMeta`);
- the content loader (`Loading.LoadContent`);
- the distinct-id fallback count (`Loading.CountDistinctIds`, `Loading.AddIds`).

The natural logarithm is the parameter `ln: real -> real`. The one property that any
proof assumes about it is `Bm25.LogNonNegative`: `ln(x) >= 0` for `x >= 1`. Each lemma
that needs it lists it in its `requires`. Python floats are modelled as Dafny `real`s.

Four behaviours of the code are easy to miss, and the model keeps them:

- Truncation is the slice `ranked[:top_k]`. A `top_k` of 0 gives no results, and a negative `top_k` drops the last `-top_k` entries instead of giving none. `Ranking.TakePrefix` and `Bm25Facts.ResultsTruncated` model the slice.
- When the metadata file is missing, `TOTAL_DOCS` stays 0, because the `FileNotFoundError` handler skips the distinct-id fallback. N is then 1. For a term in two or more documents the argument of the logarithm is then below 1, so the idf is negative (`Bm25Facts.IdfArgumentAtLeastOne`, `Loading.MissingMetaGivesUnitN`).
- `int()` skips only tab, line feed, vertical tab, form feed, carriage return and space around its digits. `str.strip()` also removes the separators 0x1C to 0x1F. So a `doc_id` of "\x1c7" is not a number: it is looked up verbatim (`Text.SeparatorIsNotIntSpace`).
- Scoring divides by `avg_dl` and by the BM25 denominator. The code raises `ZeroDivisionError` when either is zero, which can happen with zero or negative recorded lengths or frequencies. The handler reports that as a runtime error, modelled as `Bm25.Outcome.ZeroDivision` and `Service.Response.RuntimeFailure`.

## Model

| member | source | states |
|---|---|---|
| Text.Lower | api/search.py:243 | `lower()` keeps the length; it is the definition of ASCII lower-casing, and `Text.SplitLower` states how it meets `split()` |
| Text.Strip | api/search.py:226 | the stripped string is no longer than its input and neither starts nor ends with whitespace |
| Text.StripBlankIff | api/search.py:226-229 | `q.strip()` is empty exactly when `q` consists of whitespace only |
| Text.StripKeepsText | api/search.py:90 | `strip()` removes only whitespace: the non-whitespace characters survive, in order |
| Text.Split | api/search.py:243 | every word `split()` returns is non-empty and free of whitespace |
| Text.SplitKeepsText | api/search.py:243 | the words of `split()`, concatenated, are the non-whitespace characters of the input |
| Text.SplitJoin | api/search.py:243 | splitting words joined by single spaces gives the words back |
| Text.SplitLower | api/search.py:243 | `q.lower().split()` equals the lower-cased words of `q.split()` |
| Text.IntStrip | api/search.py:189 | the whitespace `int()` ignores is trimmed from both ends: the result neither starts nor ends with tab, line feed, vertical tab, form feed, carriage return or space |
| Text.IntStripKeeps | api/search.py:189 | every character that is not `int()` whitespace survives the trim |
| Text.ParseInt | api/search.py:189 | definition of `int(s)` on a string (also used at lines 56 and 239): optional sign, then digits, else a ValueError as `None`; its properties are `Text.ParseIntOfString`, `Text.CanonicalIdNonNumeric` and `Text.SeparatorIsNotIntSpace` |
| Text.IntToString | api/search.py:189 | `str(n)` is never empty; definition of `str(int)`, whose inverse is stated by `Text.ParseIntOfString` |
| Text.NatToStringValue | api/search.py:189 | the decimal digits of `n` denote `n` |
| Text.ParseIntOfString | api/search.py:189 | `int(str(n)) == n` for every integer, negative ones included |
| Text.CanonicalId | api/search.py:188-191 | a `raw` that parses as an integer is replaced by an identifier that parses to the same integer; any other `raw` is kept; idempotence, agreement of spellings and the non-numeric case are the lemmas below |
| Text.CanonicalIdIdempotent | api/search.py:188-191 | canonicalising a canonical identifier changes nothing |
| Text.CanonicalIdOfInteger | api/search.py:188-191 | two spellings of the same integer have the same canonical identifier, which parses back to that integer |
| Text.CanonicalIdLeadingZeros | api/search.py:188-191 | "007" names document "7" |
| Text.CanonicalIdNegativeZero | api/search.py:188-191 | "-0" names document "0" |
| Text.CanonicalIdNonNumeric | api/search.py:190-191 | an identifier with a character other than whitespace, a sign, a digit or an underscore fails `int()` and is kept verbatim; whitespace here means only what `int()` skips |
| Text.SeparatorIsNotIntSpace | api/search.py:188-191 | "\x1c7" strips to "7" under `str.strip()`, yet fails `int()` and is kept verbatim as an identifier |
| Dicts.Put | api/search.py:144 | assignment stores the value and keeps the key order, appending a new key at the end |
| Dicts.AppendNewMembers | api/search.py:144 | the key order after a run of assignments holds exactly the old keys and the assigned ones |
| Dicts.AppendNewDistinct | api/search.py:144 | a dictionary's keys stay distinct |
| Dicts.AppendNewConcat | api/search.py:124-144 | assigning the keys of two runs in turn gives the key order of assigning both runs at once |
| Dicts.Sum | api/search.py:118 | definition of `sum(d.values())`; its properties are `Dicts.SumAtLeast` and `Dicts.SumPositive` |
| Dicts.Size | api/search.py:118 | definition of `len(d)`; its properties are `Dicts.SumAtLeast`, `Dicts.AppendNewDistinct` and `Store.AvgDlBounds` |
| Dicts.SumAtLeast | api/search.py:118 | a sum of values that are each at least `lo` is at least `lo` times the count |
| Dicts.SumPositive | api/search.py:118 | non-negative values, one of them positive, have a positive sum |
| Store.EffectiveN | api/search.py:114 | `N = TOTAL_DOCS or 1` is at least 1 |
| Store.AvgDl | api/search.py:117-120 | definition of `avg_dl`; its properties are `Store.AvgDlBounds` and `Store.AvgDlPositive` |
| Store.LengthOf | api/search.py:140 | definition of `dl`; its properties are `Store.LengthOfBounds` |
| Store.AvgDlBounds | api/search.py:117-120 | with no lengths `avg_dl` is 300.0; it is non-negative for non-negative lengths and at least 1 for positive lengths |
| Store.AvgDlPositive | api/search.py:117-118 | non-negative lengths with one positive give a positive `avg_dl` |
| Store.LengthOfBounds | api/search.py:140 | a document without a recorded length gets `avg_dl`; every `dl` is non-negative when the recorded lengths are |
| Store.IdsOf | api/search.py:64-67 | definition of the documents of the posting lists of a set of terms; its properties are `Loading.IdsOfAdd` |
| Store.AllIds | api/search.py:63-68 | definition of the distinct ids across all posting lists; its properties are `Store.DfAtMostAllIds`, `Loading.CountDistinctIds` and `Store.DfAtMostMeta` |
| Store.DocSetMembers | api/search.py:65-67 | the document set of a posting list holds exactly the documents of its postings |
| Store.DocSetSize | api/search.py:65-67 | a posting list with distinct documents has as many documents as postings |
| Store.DfAtMost | api/search.py:130 | a posting list with distinct documents drawn from a set is no longer than that set |
| Store.DfAtMostAllIds | api/search.py:63-130 | a term's document frequency is at most the number of distinct ids in the index |
| Store.DfAtMostMeta | api/search.py:60-130 | when every indexed document has metadata, a term's document frequency is at most the number of metadata rows |
| Ranking.SortDesc | api/search.py:146 | the ranking has as many entries as its input; definition of the stable descending sort, whose properties are the four lemmas below |
| Ranking.TakePrefix | api/search.py:149 | definition of `s[:k]`; its properties are `Ranking.TakePrefixSlice` |
| Ranking.SortDescSorted | api/search.py:146 | the ranking is ordered by non-increasing score |
| Ranking.SortedDescAt | api/search.py:146 | any two entries of a sorted ranking are in order, not only neighbours |
| Ranking.SortDescPermutes | api/search.py:146 | the ranking is a permutation of the scored items |
| Ranking.SortDescStable | api/search.py:146 | entries of equal score keep their input order (the sort is stable) |
| Ranking.TakePrefixSlice | api/search.py:149 | `s[:k]` is a prefix of `s`: it has `k` entries when `k` is between 0 and `len(s)`, it is all of `s` when `k >= len(s)`, a negative `k` drops the last `-k` entries, and it is empty when `k < -len(s)` |
| Bm25.IdfArgument | api/search.py:134 | definition of the argument of the logarithm; its properties are `Bm25Facts.IdfArgumentClosedForm` and `Bm25Facts.IdfArgumentAtLeastOne` |
| Bm25.Idf | api/search.py:134 | definition of the idf; its properties are `Bm25Facts.IdfNonNegative` |
| Bm25.Denominator | api/search.py:142-143 | definition of the BM25 denominator; its properties are `Bm25Facts.ContributionBounds` |
| Bm25.Contribution | api/search.py:142-143 | definition of one posting's score; its properties are `Bm25Facts.ContributionBounds` and `Bm25Facts.ZeroFrequencyContributesNothing` |
| Bm25.PostingsOf | api/search.py:125 | definition of `INVERTED_INDEX.get(term)`, an absent term read as no postings; its properties are `Bm25Facts.UnmatchedTermIgnored` and `Bm25Facts.NoMatchNoScores` |
| Bm25.PostingSafe | api/search.py:142-143 | definition of the condition under which one posting's score raises no `ZeroDivisionError`; its properties are `Bm25Facts.NonNegativeSettingSafe` and `Bm25.AddPostings` |
| Bm25.AllSafe | api/search.py:136-143 | definition of that condition for every posting of a list; its properties are `Bm25.AddPostings` and `Bm25Facts.NonNegativeSettingSafe` |
| Bm25.TermSafe | api/search.py:125-143 | definition of that condition for one query term's postings; its properties are `Bm25Facts.NonNegativeSettingSafe` |
| Bm25.QuerySafe | api/search.py:124-143 | definition of a query whose scoring raises no `ZeroDivisionError`; its properties are `Bm25Facts.QuerySafeConcat`, `Bm25Facts.NonNegativeSettingSafe` and `Bm25.Bm25Search` |
| Bm25.TermIdf | api/search.py:130-134 | definition of a term's idf from N and its document frequency; its properties are `Bm25Facts.IdfNonNegative` and `Loading.InitDfAtMostN` |
| Bm25.PostingScore | api/search.py:137-143 | definition of one posting's score with its document's `dl` and `avg_dl`; its properties are `Bm25Facts.ContributionBounds` and `Bm25Facts.AccPostingsScore` |
| Bm25.ScoreOf | api/search.py:144 | definition of `scores[doc]` of the `defaultdict(float)`, 0.0 for a new document; its properties are `Bm25Facts.ScoreIsSum` |
| Bm25.AddScore | api/search.py:144 | definition of `scores[doc] += score`; its properties are `Dicts.Put`, `Bm25Facts.AccPostingsScore` and `Bm25Facts.AccPostingsKeys` |
| Bm25.AccPostings | api/search.py:136-144 | definition of one term's pass over its postings; its properties are `Bm25Facts.AccPostingsScore`, `Bm25Facts.AccPostingsKeys` and `Bm25Facts.AccPostingsNonNegative` |
| Bm25.AccTerm | api/search.py:125-144 | definition of one query term's step, skipping a term without postings; its properties are `Bm25Facts.AccTermsScore`, `Bm25Facts.AccTermsKeys` and `Bm25Facts.UnmatchedTermIgnored` |
| Bm25.AccTerms | api/search.py:124-144 | definition of the pass over the query terms; its properties are `Bm25Facts.AccTermsScore`, `Bm25Facts.AccTermsKeys` and `Bm25Facts.AccTermsConcat` |
| Bm25.Scores | api/search.py:122-144 | definition of the final `scores`; its properties are `Bm25Facts.ScoreIsSum` and `Bm25Facts.ScoresKeys` |
| Bm25.ItemsOf | api/search.py:146 | definition of the key-ordered pairs of a dictionary; its properties are `Bm25Facts.ItemsAt` |
| Bm25.Items | api/search.py:146 | definition of `scores.items()`; its properties are `Bm25Facts.ItemsAt` |
| Bm25.Ranked | api/search.py:146 | definition of `sorted(scores.items(), key=score, reverse=True)`; its properties are `Bm25Facts.RankedEntry`, `Bm25Facts.RankingStable` and `Ranking.SortDescSorted` |
| Bm25.Enrich | api/search.py:150-158 | definition of one result record; its properties are `Bm25Facts.ResultEntries` |
| Bm25.Bm25Results | api/search.py:103-160 | definition of `bm25_search`; `Bm25.Bm25Search` is proved equal to it and `Bm25Facts` states its properties |
| Bm25.EnrichAll | api/search.py:148-158 | one result per ranked entry |
| Bm25.Bm25Search | api/search.py:103-160 | the search loops return the empty list for an empty index, a division-by-zero failure when some posting's denominator or `avg_dl` is zero, and otherwise the enriched, truncated, sorted accumulator |
| Bm25.AddPostings | api/search.py:136-144 | the inner loop succeeds exactly when no posting divides by zero, and then each contribution has been added to its document's score |
| Bm25.EnrichRanking | api/search.py:148-158 | the result loop appends the enrichment of each entry of `ranked[:top_k]` in order |
| Bm25Facts.IdfArgumentClosedForm | api/search.py:134 | the argument of the logarithm is `(N + 1) / (df + 0.5)` |
| Bm25Facts.IdfArgumentAtLeastOne | api/search.py:134 | the argument of the logarithm is at least 1 exactly when `df <= N` |
| Bm25Facts.IdfNonNegative | api/search.py:134 | under the logarithm assumption, the idf is non-negative when `df <= N` |
| Bm25Facts.ContributionBounds | api/search.py:142-143 | for non-negative idf, tf and dl and positive `avg_dl`, the denominator exceeds tf and a contribution lies in `[0, idf * (k1 + 1)]`, strictly below the upper bound when idf is positive |
| Bm25Facts.ZeroFrequencyContributesNothing | api/search.py:142-143 | a posting with frequency 0 adds nothing |
| Bm25Facts.AccPostingsScore | api/search.py:136-144 | after one term's postings, a document's score has grown by the sum of its contributions from them |
| Bm25Facts.AccTermsScore | api/search.py:124-144 | after the query terms, a document's score has grown by the sum of its contributions from all of them |
| Bm25Facts.ScoreIsSum | api/search.py:122-144 | a document's final score is the sum, over the occurrences of the query terms, of its contributions |
| Bm25Facts.AccPostingsKeys | api/search.py:136-144 | one term's postings add their documents to the accumulator in posting order, each document once |
| Bm25Facts.AccTermsKeys | api/search.py:124-144 | the accumulator's key order is the order in which documents are first visited |
| Bm25Facts.ScoresKeys | api/search.py:122-144 | the scored documents are exactly the documents visited, in order of first visit |
| Bm25Facts.ItemsAt | api/search.py:146 | `scores.items()` lists each key with its score, in key order |
| Bm25Facts.QuerySafeConcat | api/search.py:124 | a query divides by zero exactly when one of its parts does |
| Bm25Facts.AccTermsConcat | api/search.py:124 | the terms of a concatenated query are processed one part after the other |
| Bm25Facts.UnmatchedTermIgnored | api/search.py:125-127 | inserting a term without postings anywhere into the query changes nothing |
| Bm25Facts.NoMatchNoScores | api/search.py:124-127 | a query without any matching term leaves the accumulator empty |
| Bm25Facts.EmptyIndexNoResults | api/search.py:107-108 | an empty index gives an empty result list for every query |
| Bm25Facts.NoMatchNoResults | api/search.py:124-160 | a query without any matching term gives an empty result list, not an error |
| Bm25Facts.EnrichAllAt | api/search.py:149-158 | the `i`-th result is the enrichment of the `i`-th kept entry |
| Bm25Facts.RankedEntry | api/search.py:146 | every ranked document was visited by the query and carries its summed contribution |
| Bm25Facts.ResultEntries | api/search.py:149-158 | every result is a visited document with its summed score and with its metadata, or "Untitled", "", "" and no length |
| Bm25Facts.ResultsSorted | api/search.py:146-149 | the results are ordered by non-increasing score |
| Bm25Facts.ResultsAreTop | api/search.py:146-149 | a ranked document left out by truncation scores no higher than any result |
| Bm25Facts.ResultsTruncated | api/search.py:146-149 | the ranking has one entry per distinct visited document; the result count follows Python's slice `[:top_k]`, including negative `top_k`, and `top_k = 0` gives no results |
| Bm25Facts.RankingStable | api/search.py:144-146 | documents of equal score are ranked in the order of their first contribution |
| Bm25Facts.NonNegativeSettingSafe | api/search.py:117-143 | non-negative frequencies and recorded lengths with a positive `avg_dl` never divide by zero |
| Bm25Facts.AccPostingsNonNegative | api/search.py:136-144 | such postings keep every score non-negative |
| Bm25Facts.AccTermsNonNegative | api/search.py:124-144 | such terms keep every score non-negative |
| Bm25Facts.ScoresNonNegative | api/search.py:103-158 | in that setting the search succeeds and every result's score is non-negative |
| Loading.RowId | api/search.py:48-50 | definition of a row's id, `None` for a skipped row; its properties are `Loading.MetaKeys` and `Loading.LastRowMeta` |
| Loading.RowMeta | api/search.py:52-57 | definition of a row's metadata with the defaults "", "Untitled" and ""; its properties are `Loading.LastRowMeta` |
| Loading.RowDocLen | api/search.py:56 | definition of a row's `doc_len`, `None` when `int()` raises; its properties are `Loading.MetaStepFails` and `Loading.MetaFailedIff` |
| Loading.MetaStep | api/search.py:47-58 | definition of one row's step; its properties are `Loading.MetaStepFails` and `Loading.FailureStops` |
| Loading.MetaFrom | api/search.py:47-58 | definition of the metadata tables; `Loading.LoadMeta` is proved equal to it, and `Loading.MetaFailedIff`, `Loading.MetaKeys`, `Loading.LastRowMeta` and `Loading.LengthsMirrorMeta` state its properties |
| Loading.CellText | api/search.py:90 | definition of `(row.get("content_final") or "").strip()`; its properties are `Loading.ContentEntry` and `Text.StripKeepsText` |
| Loading.ContentFrom | api/search.py:88-90 | definition of the content table; `Loading.LoadContent` is proved equal to it, and `Loading.ContentKeys` and `Loading.ContentEntry` state its properties |
| Loading.TotalDocsFrom | api/search.py:60-68 | definition of `TOTAL_DOCS` after a successful metadata load; its properties are `Loading.InitDfAtMostN` |
| Loading.InitSpec | api/search.py:28-97 | definition of start-up; `Loading.Init` is proved equal to it, and the four `Init…` lemmas and `Loading.MissingMetaGivesUnitN` state its properties |
| Loading.LoadMeta | api/search.py:43-58 | the metadata loop builds the tables row by row and stops at the first row whose `doc_len` fails `int()` |
| Loading.FailureStops | api/search.py:56-75 | rows after a failing one are not read |
| Loading.LengthsMirrorMeta | api/search.py:52-58 | the length table has exactly the metadata ids, each with its `doc_len` |
| Loading.MetaStepFails | api/search.py:48-56 | one row fails the load exactly when it is not skipped and its `doc_len` does not parse |
| Loading.MetaFailedIff | api/search.py:47-74 | the load fails exactly when some row that is not skipped has an unparsable `doc_len` |
| Loading.MetaKeys | api/search.py:47-52 | without a failure, an id has metadata exactly when some row that is not skipped carries it |
| Loading.LastRowMeta | api/search.py:52-57 | without a failure, an id's metadata is that of the last row carrying it |
| Loading.LastRowWins | api/search.py:47-58 | both of the above for one id |
| Loading.LoadContent | api/search.py:84-90 | the content loop stores each row's stripped `content_final`, or "", under `str(row number)` |
| Loading.IntToStringInjective | api/search.py:89 | distinct row numbers give distinct keys |
| Loading.ContentKeySet | api/search.py:88-90 | the content table's keys are `str(0)` to `str(n - 1)` |
| Loading.ContentKeys | api/search.py:88-90 | an id is in the content table exactly when it is `str(i)` for a row number `i` |
| Loading.ContentEntry | api/search.py:88-90 | `str(i)` holds the text of row `i` |
| Loading.IdsOfAdd | api/search.py:64-67 | visiting one more posting list adds exactly its documents to the id set |
| Loading.CountDistinctIds | api/search.py:63-68 | the fallback loop counts the distinct ids across all posting lists, in whatever order the terms are visited |
| Loading.AddIds | api/search.py:66-67 | the inner loop adds the documents of one posting list |
| Loading.Init | api/search.py:12-97 | start-up produces the tables, the collection size and the initialisation error as the loaders define them |
| Loading.InitErrorIff | api/search.py:28-75 | the initialisation error is the metadata failure exactly when the metadata file exists and either a read error or a row's unparsable length stops its load; otherwise it is the index failure exactly when the index cannot be loaded; otherwise there is none; a missing metadata file sets no error |
| Loading.InitLengthsMirrorMeta | api/search.py:52-58 | after start-up the length table mirrors the metadata table |
| Loading.InitDfAtMostN | api/search.py:60-130 | with a metadata file read without error whose table is empty or covers every indexed document, no term occurs in more than N documents |
| Loading.MissingMetaGivesUnitN | api/search.py:71-114 | a missing metadata file leaves `TOTAL_DOCS` at 0, so N is 1 |
| Service.ContentOf | api/search.py:194 | definition of `DOC_CONTENT.get(doc_id, "")`; its properties are `Service.DetailIff` and `Service.DetailOfContentRow` |
| Service.DetailOf | api/search.py:193-214 | definition of the detail view of a canonical id; its properties are `Service.DetailIff` and `Service.DetailRecord` |
| Service.Detail | api/search.py:188-214 | definition of the detail view of a raw `doc_id`; its properties are `Service.DetailIff`, `Service.DetailRecord` and `Service.DetailOfCanonical` |
| Service.TopKOf | api/search.py:238-241 | definition of the `top_k` read from the request; its properties are `Service.TopKDefault` and `Service.TopKOfInteger` |
| Service.QueryTerms | api/search.py:243 | definition of the query words; its properties are `Text.SplitLower`, `Text.Split` and `Text.SplitKeepsText` |
| Service.Search | api/search.py:238-250 | definition of the search response, results and count or the runtime error; its properties are `Service.SearchResponse` and `Service.SearchRanked` |
| Service.Respond | api/search.py:167-256 | definition of `do_GET`; `Service.HandleGet` is proved equal to it, and the routing lemmas below state its properties |
| Service.HandleGet | api/search.py:167-256 | the handler answers with the initialisation error, the detail view, the missing-query error, the search results or the runtime error, as `Respond` routes them |
| Service.InitErrorFirst | api/search.py:169-178 | a request gets the initialisation error exactly when one was recorded, and gets that error |
| Service.DocIdPrecedesQuery | api/search.py:186-221 | with `doc_id` present the answer is the detail view, whatever `q` and `top_k` are |
| Service.MissingQueryIff | api/search.py:226-236 | a search request is rejected exactly when `q` is absent or whitespace only |
| Service.SearchResponse | api/search.py:226-250 | a search reports the stripped query, the results of ranking its lower-cased words and their count, or a runtime error exactly when ranking divides by zero |
| Service.TopKDefault | api/search.py:227-241 | an absent `top_k`, or one that is not an integer, is read as 20 |
| Service.TopKOfInteger | api/search.py:238-239 | any spelling of an integer as `top_k` is read as that integer |
| Service.DetailIff | api/search.py:193-205 | a document is not found exactly when its canonical id has neither metadata nor non-empty content, and the error reports that id |
| Service.DetailRecord | api/search.py:207-214 | a found record carries the canonical id, the content, and the metadata or "Untitled", "", "" and no length; without metadata its content is not empty |
| Service.DetailOfCanonical | api/search.py:188-194 | the detail view depends on the requested id only through its canonical form |
| Service.DetailOfInteger | api/search.py:188-194 | two spellings of the same integer ask for the same document |
| Service.DetailLeadingZeros | api/search.py:188-194 | "007" and "7" give the same answer |
| Service.DetailOfContentRow | api/search.py:88-214 | any spelling of a row number whose cell is not blank finds that row's text under `str(i)` |
| Service.SearchRanked | api/search.py:243-249 | every search result is a document of a query word's posting list, and the results come in non-increasing score order |
| Service.SearchResultsOfQuery | api/search.py:226-250 | a search response is the search for the stripped `q` |
| Service.SearchResultsRanked | api/search.py:226-249 | the same two facts for the response to a request |

## Left out

- File I/O and parsing: reading and parsing `data/inverted_index.json` and the two CSV files is not modelled. `Loading.Init` takes the parsed index and rows. The index is `None` when it fails to load. The metadata is `MetaFileMissing` when the file does not exist, and otherwise the rows read, with a flag for a read error after them. The content is `None` when the file does not exist, and otherwise the rows read before the end of the file or before a read error.
- HTTP: `urlparse`/`parse_qs`, the status lines, the headers, `json.dumps` and the error messages are not modelled. Requests and responses are datatypes that carry the values the handler reads and writes.
- Floating point: Python floats are modelled as reals, so rounding, infinities and NaN are not modelled.
- The logarithm: `math.log` is the parameter `ln`, and the only property assumed of it is `Bm25.LogNonNegative`.
- Unicode: whitespace, `lower()`, `int()` and `split()` are modelled on ASCII only (`strip()` and `split()` whitespace includes 0x1C to 0x1F, and `int()` whitespace does not). Unicode digits and Unicode spaces are not modelled.
- `int()` limits: the 4300-digit limit on `int()` of a string is not modelled.
- CSV shapes: short CSV rows, and the `None` values `csv.DictReader` gives for them, are not modelled. A missing column is a missing value.
- Index shapes: frequencies are integers in the model. A non-integer frequency in the JSON, which `int(freq)` would truncate or reject, is not modelled. Posting documents are already strings, so `str(raw_doc_id)` is the identity.
- Exception classes: every exception during a search other than `ZeroDivisionError`, such as a malformed index entry, is not modelled. The exception raised inside a read, which stops the content or metadata loader part-way, is modelled only as the rows read before it.
- Side effects: logging, `traceback.print_exc()` and the module-level global state, which is set once at start-up and modelled as the `Loaded` value passed to the handler, are not modelled.
- Bm25Facts.ScoresNonNegative: holds only under `NonNegativeSetting`. That setting is the logarithm assumption, non-negative frequencies and lengths, a positive `avg_dl` and `df <= N` for the queried terms. The source guarantees none of these.
- Loading.InitDfAtMostN: requires a well-formed index, one with distinct documents per posting list as a JSON object has, and metadata covering every indexed document. The source does not check the second condition.
