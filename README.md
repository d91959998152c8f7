# A verified model of a small Wikipedia search engine

The system is a Flask search server over a Wikipedia index plus three client scripts. Its core, modelled here, has four parts.

**The server's ranking (search_frontend.py).**
- The title and anchor fields are scored by counting matching query terms (`binary_match_count`).
- The body field is scored by a TF-IDF dot product (`tfidf_body_scores`).
- `/search` fuses the three scores with weights 1.0, 2.0 and 1.5, keeps the positive ones, sorts them and cuts the list after 100.
- `/search_body` ranks the body scores alone.
- `/search_title` and `/search_anchor` rank by match count, then by id, with no cap.
- Every answer is a list of `(str(doc_id), title)` rows behind a `("__time__", elapsed)` row; an empty query gets `[]`.
- At startup the per-shard posting-location dictionaries are merged (`merge_posting_locs`, `normalize_fname`).

**The offline evaluator (eval_queries.py).**
- AP@K, P@K and R@K of a ranked list of ids against the relevant ids.
- The reading of a `/search` answer into a time string and a list of ids.
- The loop over the queries and the three means.

**The AP@10 self-check (scripts/ap10_selfcheck.py).**
- Reading the training queries out of parsed JSON.
- Stripping the time row from an answer, and `doc_ids`.
- The per-query AP@10 against the pseudo-relevant set: the ids `/search_title` and `/search_anchor` return.
- The mean over all queries.

**The response-shape check (scripts/check_minimal.py).**
- `is_pair_list`.
- `check_search_like`, whose `fail` becomes a `Fail` outcome naming the first check that did not hold.
- The time-string pattern `TIME_RE`.

**Modules.** Each module is one file:
- `PyBase` (py_base.dfy): options, results and Python list slicing.
- `Text` (text.dfy): whitespace, `strip` and `str(int)`.
- `Json` (json.dfy): decoded JSON values.
- `Scoring` (scoring.dfy) and `Ranking` (ranking.dfy): the server's scoring and ranking.
- `PostingLocs` (posting_locs.dfy): the startup merge.
- `Metrics` (metrics.dfy): eval_queries.py.
- `SelfCheck` (self_check.dfy): ap10_selfcheck.py.
- `TimeFormat` (time_format.dfy) and `ResponseCheck` (response_check.dfy): check_minimal.py.

**How the model is built.**
- Loops in search_frontend.py, eval_queries.py and scripts/ap10_selfcheck.py are Dafny methods with loop invariants, proved against specification functions. The two scans in scripts/check_minimal.py (`is_pair_list`'s items, `check_search_like`'s rows) are recursive functions, as that file only computes verdicts.
- Iteration over a Python `set` picks an arbitrary remaining element.
- Python dicts iterate in insertion order, so `scores.items()` in `search_body` has a fixed order. The model deliberately leaves that order open: `ItemsOf` may list the entries in any order.
- Properties that relate several operations are lemmas. For example, every timed answer the server builds passes the shape check when no stored title is blank and the time string has the pattern's shape; the server's `[]` for an empty query fails it. The shape check passes exactly the responses described by a declarative predicate.
- The time pattern is written twice, and the two are proved to accept the same strings:
  - as the pieces a matching string is made of;
  - as the deterministic automaton the regular expression amounts to.

## Model

| member | source | states |
|---|---|---|
| PyBase.PyPrefix | eval_queries.py:13 | `s[:k]` is a prefix of `s`, of length `min(k, len(s))` for `k >= 0` and `max(len(s)+k, 0)` for negative `k` |
| Text.Strip | scripts/check_minimal.py:80-83 | `s.strip()` is a slice of `s` with only whitespace before and after it; it is empty exactly when `s` is all whitespace, and otherwise starts and ends with a non-space |
| Text.StripIdempotent | scripts/ap10_selfcheck.py:62-65 | stripping a stripped query changes nothing |
| Text.IntToString | search_frontend.py:168-169 | `str(doc_id)` is never blank and holds only digits and `-` |
| Text.IntToStringRoundTrip | search_frontend.py:255 | reading back `str(doc_id)` gives `doc_id` |
| Text.IntToStringInjective | search_frontend.py:255 | distinct document ids print as distinct strings |
| Json.RowsToJson | search_frontend.py:254-256 | the encoded answer has one two-string list per row, in order |
| Scoring.DistinctTerms | search_frontend.py:134-135 | the keys of `Counter(tokens)`: each query token once, and only query tokens |
| Scoring.CountOverRemove | search_frontend.py:158 | a document's match count does not depend on the order the set of terms is iterated in |
| Scoring.CountOverPositive | search_frontend.py:158-163 | a count is positive exactly when a term that is a key of `df` has the document in its posting list |
| Scoring.CountOverDistinct | search_frontend.py:152 | with duplicate-free posting lists, a count is the number of distinct matching terms |
| Scoring.BinaryMatchCount | search_frontend.py:150-164 | the counts equal the order-independent specification; no entry at all for a missing index or an empty query |
| Scoring.MatchCountsKeys | search_frontend.py:158-163 | a document has an entry iff some query term that is a key of `df` lists it |
| Scoring.MatchCountIsDistinctTerms | search_frontend.py:152 | a document's count is the number of distinct query terms matching it, as the docstring promises, when posting lists hold no duplicate |
| Scoring.RepeatedTokenIgnored | search_frontend.py:158 | repeating a query token changes no count |
| Scoring.TitleScenario | search_frontend.py:150-164 | a title with "obama" but not "president" scores 1 for that two-word query |
| Scoring.AddPostings | search_frontend.py:143-146 | the inner loop adds each posting's weight to its document and creates exactly the posted documents' entries |
| Scoring.TfidfBodyScores | search_frontend.py:125-148 | the scores equal the per-term sum specification; empty for a missing index or an empty query |
| Scoring.BodyScoresKeys | search_frontend.py:135-146 | a document has a body score iff some query term with a present, non-zero `df` lists it |
| Scoring.InactiveTermIgnored | search_frontend.py:136-138 | a query term whose `df` is missing or 0, wherever it stands in the query, changes no score and adds no entry |
| Scoring.ZeroDfContrast | search_frontend.py:159-160 | a term with `df` 0 still counts for title/anchor but is skipped by the body scorer |
| Ranking.ItemsOf | search_frontend.py:267 | `scores.items()` lists every entry of the map exactly once |
| Ranking.PermutationListsMap | search_frontend.py:285 | sorting a listing of a map still lists the map |
| Ranking.ListingsSameMultiset | search_frontend.py:285 | two listings of the same map hold the same entries |
| Ranking.FusionMonotone | search_frontend.py:237-239 | the fused score never falls when a field score rises, and rises strictly when one does |
| Ranking.CollectPositive | search_frontend.py:234-241 | the candidate loop keeps each document of any field whose fused score is positive, once, with that score |
| Ranking.InsertByScore | search_frontend.py:243 | inserting into a list sorted highest first keeps it sorted and adds exactly that entry |
| Ranking.SortByScore | search_frontend.py:243 | the sort by score is non-increasing and a permutation of its input |
| Ranking.TopOfSorted | search_frontend.py:255 | cutting a sorted listing after 100 keeps the best 100: nothing left out scores above the last kept |
| Ranking.SortedTop | search_frontend.py:243-255 | sorting then cutting a listing of the scores yields the top 100 of the scores |
| Ranking.PrecedesTotal | search_frontend.py:285 | the key `(-count, id)` orders any two distinct entries one way only |
| Ranking.InsertByCount | search_frontend.py:285 | inserting keeps the order by count then id and adds exactly that entry |
| Ranking.SortByCount | search_frontend.py:285 | the sort by `(-count, id)` is ordered and a permutation of its input |
| Ranking.SortedByCountUnique | search_frontend.py:285 | only one arrangement of given entries is ordered by `(-count, id)` |
| Ranking.CountRankingDeterministic | search_frontend.py:284-285 | the title/anchor ranking depends only on the scores, not on the map's iteration order |
| Ranking.DocTitle | search_frontend.py:166-169 | the stored title when there is one, `str(doc_id)` otherwise; never blank when no stored title is |
| Ranking.DocRows | search_frontend.py:255 | one `(str(doc_id), doc_title(doc_id))` row per ranked document, in rank order |
| Ranking.Search | search_frontend.py:211-256 | `[]` for an empty query; otherwise the time row and rows for the top 100 positive fused scores, highest first |
| Ranking.SearchBody | search_frontend.py:259-274 | `[]` for an empty query; otherwise the time row and rows for the top 100 body scores, highest first |
| Ranking.FieldSearch | search_frontend.py:283-291 | `[]` for an empty query; otherwise the time row and rows for every matched document, by count then id |
| Ranking.SearchTitle | search_frontend.py:277-292 | the same over the title index |
| Ranking.SearchAnchor | search_frontend.py:295-310 | the same over the anchor index |
| Ranking.SearchResultsSound | search_frontend.py:234-255 | every `/search` result is a candidate with a positive fused score; at most 100, highest first |
| PostingLocs.NormalizeFname | search_frontend.py:94-98 | drops a leading `postings_gcp_project/` and otherwise returns the name unchanged |
| PostingLocs.NormalizeFnameRoundTrip | search_frontend.py:94-98 | any name placed under the index directory normalizes back to itself |
| PostingLocs.NormalizeLocs | search_frontend.py:115 | each location keeps its offset and gets its normalized file name |
| PostingLocs.LocFiles | search_frontend.py:107 | exactly the listed names ending in `_posting_locs.pickle`; a single name is kept iff it has the suffix |
| PostingLocs.LocFilesConcat | search_frontend.py:107 | the filter keeps listing order: filtering a concatenation is concatenating the filtered parts |
| PostingLocs.MergedOfKeys | search_frontend.py:109-116 | the merged map holds exactly the terms of the loaded dictionaries |
| PostingLocs.MergedOfLocs | search_frontend.py:109-116 | each term's merged list is its normalized locations dictionary by dictionary, in file order |
| PostingLocs.ExtendTerm | search_frontend.py:115 | `merged[term].extend(...)` appends the normalized locations and changes no other term |
| PostingLocs.AbsorbDict | search_frontend.py:114-115 | folding one dictionary in extends every one of its terms, even one with no locations |
| PostingLocs.MergePostingLocs | search_frontend.py:100-116 | the result is the fold of every loaded dictionary, in listing order |
| PostingLocs.OnlyLocFilesLoaded | search_frontend.py:107-111 | names without the suffix are never loaded |
| PostingLocs.NothingLoaded | search_frontend.py:110-113 | when no blob loads as a dict, the merged map is empty |
| Metrics.AveragePrecisionAtK | eval_queries.py:7-18 | 0.0 without relevant ids; otherwise an error exactly when `k == 0` (division by zero) |
| Metrics.ApAtK | eval_queries.py:7-18 | the hit/precision loop computes the AP@K specification, including its division by zero |
| Metrics.ApBounds | eval_queries.py:7-18 | with `k >= 1` and no repeated ids, AP@K is defined and lies in [0, 1] |
| Metrics.ApIgnoresTail | eval_queries.py:13 | entries after position `k` never change AP@K |
| Metrics.ApPerfect | eval_queries.py:17-18 | a ranking whose first `min(|rels|, k)` entries are relevant scores exactly 1 |
| Metrics.ApWorkedExample | eval_queries.py:7-18 | relevant {a, b, c}, ranked [x, a, y, b, c], K = 10 gives 8/15 |
| Metrics.PrecisionAtK | eval_queries.py:20-24 | 0.0 for `k <= 0`; always within [0, 1] |
| Metrics.RecallAtK | eval_queries.py:26-30 | 0.0 without relevant ids; never negative |
| Metrics.RecallAtMostOne | eval_queries.py:26-30 | without repeated ids recall is at most 1 |
| Metrics.PrecisionRecallRelation | eval_queries.py:20-30 | P@K and R@K count the same hits: `P*k == R*len(rels)` |
| Metrics.MeanBounds | eval_queries.py:107-109 | a mean lies within the bounds of the values averaged |
| Metrics.ParseSearchResults | eval_queries.py:42-58 | `("", [])` for an empty answer; the time only from a leading time row; ids from every later non-empty item |
| Metrics.ReadsServerResponse | eval_queries.py:42-58 | reading an answer the server encoded gives back its time string and its row ids in order |
| Metrics.SelectQueries | eval_queries.py:72-74 | the first `max_queries` queries when positive, all of them otherwise |
| Metrics.EvaluateRun | eval_queries.py:85-109 | an error exactly when some query's AP@K is undefined; otherwise the three means of the per-query measures |
| Metrics.ValuesBounds | eval_queries.py:92-98 | with `k >= 1` and no repeated ids, every per-query AP, P and R lies in [0, 1] |
| Metrics.RunBounds | eval_queries.py:107-109 | under the same conditions, the three means lie in [0, 1] |
| SelfCheck.StripTimeRow | scripts/ap10_selfcheck.py:24-28 | a non-list answer is a `ValueError`; exactly a leading `["__time__", t]` row is dropped |
| SelfCheck.StripsServerResponse | scripts/ap10_selfcheck.py:24-28 | the server's timed answer is stripped back to its document rows |
| SelfCheck.DocIds | scripts/ap10_selfcheck.py:31-38 | the ids of the two-item rows among `pairs[:k]`, all of `pairs` when `k` is None |
| SelfCheck.PairIdsOfRows | scripts/ap10_selfcheck.py:31-38 | on the rows the server encodes, `doc_ids` reads back the row ids |
| SelfCheck.ApAtK | scripts/ap10_selfcheck.py:40-50 | the same measure as eval_queries.py's `ap_at_k`, arguments swapped |
| SelfCheck.UsableIsUsable | scripts/ap10_selfcheck.py:62-65 | a kept query is stripped and non-empty |
| SelfCheck.QueriesInUsable | scripts/ap10_selfcheck.py:56-72 | whatever the file holds, every query found is stripped and non-empty |
| SelfCheck.ScanItems | scripts/ap10_selfcheck.py:58-65 | the loop over a top-level list yields the specification's queries in order |
| SelfCheck.ScanQueries | scripts/ap10_selfcheck.py:66-72 | the loop over a dict's `"queries"` list yields the usable strings in order |
| SelfCheck.LoadQueriesTrain | scripts/ap10_selfcheck.py:52-77 | `[]` when the file cannot be read; otherwise the first `max_q` queries found, never more than `max_q` |
| SelfCheck.LoadedQueriesUsable | scripts/ap10_selfcheck.py:73-74 | the loaded queries are stripped and non-empty |
| SelfCheck.ScoreQuery | scripts/ap10_selfcheck.py:94-106 | one query's AP@10 against the pseudo-relevant set; only a non-list answer errs, with `ValueError` |
| SelfCheck.MeanAp | scripts/ap10_selfcheck.py:91-110 | an error exactly when some answer is not a list; otherwise the mean of the per-query APs, 0.0 for no query |
| SelfCheck.QueryApBounds | scripts/ap10_selfcheck.py:99-105 | a query's AP@10 lies in [0, 1] when `/search` repeats no id |
| SelfCheck.MeanApBounds | scripts/ap10_selfcheck.py:110 | the mean AP@10 lies in [0, 1] under the same condition |
| TimeFormat.MatchesComplete | scripts/check_minimal.py:22 | every string built from the pattern's pieces matches |
| TimeFormat.LeadSound | scripts/check_minimal.py:22 | every matching string splits into the pattern's pieces |
| TimeFormat.MatchesCorrect | scripts/check_minimal.py:22 | the matcher accepts exactly the strings built from the pattern's pieces |
| TimeFormat.FmtTimeAccepted | search_frontend.py:171-174 | every string of the `fmt_time` shape `<s>.<3 digits>s (<ms>ms)` matches |
| TimeFormat.ExampleAccepted | scripts/check_minimal.py:75 | the documented example `0.385s (385ms)` matches |
| ResponseCheck.AllStrPairs | scripts/check_minimal.py:31-39 | the item scan holds iff every item is a list of two strings |
| ResponseCheck.CheckRows | scripts/check_minimal.py:77-83 | passes iff every inspected row has a non-blank id and title; otherwise names the first blank field |
| ResponseCheck.CheckTimeRow | scripts/check_minimal.py:68-75 | passes only on a non-empty response |
| ResponseCheck.CheckPairs | scripts/check_minimal.py:68-89 | empty-response failure iff a time row is required and there are no rows; a too-many failure only under a limit and with the real count |
| ResponseCheck.CheckSearchLike | scripts/check_minimal.py:64-89 | a non-pair-list fails on shape first; the empty and too-many failures as above |
| ResponseCheck.CheckTimeRowCorrect | scripts/check_minimal.py:68-75 | the time-row checks pass iff the first row is `("__time__", v)` with `v` of the pattern's shape |
| ResponseCheck.CheckPairsCorrect | scripts/check_minimal.py:68-89 | the guard chain passes exactly the rows the declarative acceptance predicate describes |
| ResponseCheck.CheckSearchLikeCorrect | scripts/check_minimal.py:64-89 | `check_search_like` passes exactly the acceptable responses |
| ResponseCheck.ShapeCheckedFirst | scripts/check_minimal.py:65-66 | a response that is not a pair list fails on that, whatever else it holds |
| ResponseCheck.OnlyLeadingRowsInspected | scripts/check_minimal.py:79 | rows past the first six never change the verdict |
| ResponseCheck.LimitCheckedLast | scripts/check_minimal.py:85-89 | a response passing without a limit fails under one exactly when it holds more results |
| ResponseCheck.EncodedPairs | scripts/check_minimal.py:31-39 | what the server encodes is a pair list that decodes back to its rows |
| ResponseCheck.DocRowsNonBlank | search_frontend.py:166-169 | every document row has a non-blank id and title when no stored title is blank |
| ResponseCheck.TimedResponsePasses | scripts/check_minimal.py:64-89 | a timed server answer passes when no stored title is blank, its time string has the pattern's shape and its count meets the limit |
| ResponseCheck.SearchResponsePasses | scripts/check_minimal.py:103 | a `/search` or `/search_body` answer of at most 100 results passes `check_search_like(data, True, 100)` when no stored title is blank and the time string has the pattern's shape |
| ResponseCheck.FieldResponsePasses | scripts/check_minimal.py:115 | `/search_title` and `/search_anchor` answers pass with no limit, however long, when no stored title is blank and the time string has the pattern's shape |
| ResponseCheck.FmtTimeRowPasses | search_frontend.py:171-174 | a time row of the `fmt_time` shape lets the answer pass when no stored title is blank |
| ResponseCheck.EmptyQueryAnswerFails | scripts/check_minimal.py:68-70 | the server's `[]` for an empty query fails when a time row is required |
| ResponseCheck.EncodedVerdict | scripts/check_minimal.py:64-66 | an encoded answer gets the verdict of the row checks on its rows |
| ResponseCheck.TooManyRowsFail | scripts/check_minimal.py:85-89 | an answer with more results than the limit fails, naming its count without the time row |

## Left out

- HTTP and Flask routing, `startup`, the Google Cloud Storage listing and pickle loading, and `InvertedIndex` are not modelled. Their results are parameters: the indices, `id2title`, the bucket listing and what each blob loads as.
- The query text is a parameter, and so are its tokens. `tokenize` and its regular expression are not part of this model.
- Timing and `fmt_time` are not modelled. The elapsed string is a parameter; `FmtTimeAccepted` covers the shape `fmt_time` writes, but not float formatting or rounding.
- Scoring.TfidfBodyScores: the logarithmic weight `wq * wd` is an abstract function of `(df, qcnt, tf)`. `log10`, `N_CORPUS` and floating-point rounding are not modelled. The error paths of the logarithm are not modelled either: a posting with `tf <= 0` makes `log10` raise `ValueError`, a `df` of -1 raises `ZeroDivisionError`, and a `df` below -1 makes `(N_CORPUS + 1.0) / (df + 1.0)` negative, so `log10` raises `ValueError`. The model returns a map in these cases; real indexes never hold such values.
- Floating-point arithmetic in general is not modelled. Scores and ratios are exact `real` numbers.
- Ranking.Search: the contract fixes neither the order of equal fused scores nor which of the documents tied at the 100th score are kept. In the source both follow `set` iteration order (search_frontend.py:234, 243, 255). The contract fixes that every kept document scores at least as high as every positive candidate left out, and that the kept scores are non-increasing.
- Ranking.SearchBody: it does not fix the order of equal body scores, nor which tied documents survive the cut at 100. The source fixes both: `scores` is a dict filled in query-term order and then posting-list order, and the stable `sorted` at search_frontend.py:267 keeps that order among ties. The model leaves the order of `scores.items()` open on purpose (`ItemsOf`).
- Sorting is modelled as a pure stable insertion sort on sequences, not as Python's in-place `list.sort`.
- Scoring.BinaryMatchCount: the count equals the number of distinct matching terms only when no posting list repeats a document (`MatchCountIsDistinctTerms`). In general it counts postings, as the code does.
- PostingLocs.NormalizeFname: the `isinstance(fname, str)` guard is not modelled. File names are always strings here.
- A blob that fails to load, or loads as something other than a dict, is one case in `PostingLocs`: `None`. Malformed pickles are not distinguished.
- `read_posting_list` is a lookup in a map of posting lists. A term without a stored list reads as empty.
- `/get_pagerank` and `/get_pageview` are not modelled, nor is check_minimal.py's length check of their answers (lines 124-134).
- The time-limit checks of check_minimal.py's `main` are not modelled (lines 101-102).
- argparse, printing, `sys.exit` and the per-query client timings are not modelled. `fail` is the `Fail` outcome.
- JSON values are null, booleans, integers, strings, lists and dicts. JSON floats are left out.
- JSON has no tuples, so the `(list, tuple)` tests are list tests.
- `str()` of a list or dict is a fixed placeholder string.
- Metrics.ParseSearchResults: only a decoded list is modelled. The server always sends one.
- The relevance-judgement file of eval_queries.py is the sequence of its `(query, ids)` pairs, in the dict's order.
- `\d` in the time pattern is the ASCII digits only. Python also matches other Unicode decimal digits.
- `\s` and `str.strip` use Python's Unicode whitespace list.
- SelfCheck.MeanAp: the fallback query list `QUERIES_FALLBACK` is not modelled. The run is given as the three decoded answers of each query, and the query strings only go into HTTP requests.
- SelfCheck.ApAtK: it runs the same loop as `Metrics.ApAtK` instead of repeating it. The two source functions differ only in argument order.
- ResponseCheck.CheckRows: `not s.strip()` is written as "all whitespace" (`IsBlank`). `Text.Strip`'s contract proves the two are the same.
