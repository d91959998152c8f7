/** The AP@10 self-check of scripts/ap10_selfcheck.py: queries are read
    from already-parsed JSON, each query's pseudo-relevant set is the union
    of the ids `/search_title` and `/search_anchor` return, and the ids of
    `/search` are scored against it. The HTTP calls are parameters: each
    query comes with the three decoded responses. */
module SelfCheck {
  import opened PyBase
  import opened Text
  import opened Json
  import Metrics

  /** `TOP_K`. */
  const TopK: int := 10

  /** How many title/anchor ids make up the pseudo-relevant set. */
  const RelK: int := 200

  // ---------------------------------------------------------------------
  // fetch: the time-row strip
  // ---------------------------------------------------------------------

  /** The part of `fetch` after the HTTP call: a non-list response raises
      `ValueError`; a leading `["__time__", t]` row is dropped. */
  function StripTimeRow(data: Json): (r: Result<seq<Json>>)
    ensures !data.JList? <==> r == Err(ValueError)
    ensures data.JList? && data.items != [] && IsTimeRow(data.items[0]) ==> r == Ok(data.items[1..])
    ensures data.JList? && !(data.items != [] && IsTimeRow(data.items[0])) ==> r == Ok(data.items)
  {
    match data
    case JList(items) => if |items| > 0 && IsTimeRow(items[0]) then Ok(items[1..]) else Ok(items)
    case _ => Err(ValueError)
  }

  /** What the server sends is stripped back to its document rows. */
  lemma StripsServerResponse(elapsed: string, rows: seq<(string, string)>)
    ensures StripTimeRow(JList(RowsToJson([("__time__", elapsed)] + rows))) == Ok(RowsToJson(rows))
    ensures StripTimeRow(JList([])) == Ok([])
  {
    var full := RowsToJson([("__time__", elapsed)] + rows);
    assert full[0] == JList([JStr("__time__"), JStr(elapsed)]);
    assert full[1..] == RowsToJson(rows);
  }

  // ---------------------------------------------------------------------
  // doc_ids
  // ---------------------------------------------------------------------

  /** `str(p[0])` of every two-item list of `pairs`, in order. */
  function PairIds(pairs: seq<Json>): (ids: seq<string>)
    ensures |ids| <= |pairs|
  {
    if pairs == [] then []
    else
      var last := pairs[|pairs| - 1];
      PairIds(pairs[..|pairs| - 1]) + (if IsPairShaped(last) then [PyStr(last.items[0])] else [])
  }

  /** `k`, or `len(pairs)` when `k is None`. */
  function Limit(pairs: seq<Json>, k: Option<int>): int {
    if k.None? then |pairs| else k.value
  }

  /** `doc_ids(pairs, k)`: the ids of the two-item rows among `pairs[:k]`. */
  method DocIds(pairs: seq<Json>, k: Option<int>) returns (out: seq<string>)
    ensures out == PairIds(PyPrefix(pairs, Limit(pairs, k)))
    ensures k.None? ==> out == PairIds(pairs)
    ensures k.Some? && k.value >= 0 ==> |out| <= Min(k.value, |pairs|)
  {
    var limit := if k.None? then |pairs| else k.value;
    var top := PyPrefix(pairs, limit);
    out := [];
    var i := 0;
    while i < |top|
      invariant 0 <= i <= |top|
      invariant out == PairIds(top[..i])
    {
      assert top[..i + 1][..i] == top[..i];
      var p := top[i];
      if p.JList? && |p.items| == 2 {
        out := out + [PyStr(p.items[0])];
      }
      i := i + 1;
    }
    assert top[..i] == top;
    if k.None? {
      assert top == pairs;
    }
  }

  /** On the rows the server encodes, `doc_ids` reads back the row ids. */
  lemma {:induction false} PairIdsOfRows(rows: seq<(string, string)>)
    ensures PairIds(RowsToJson(rows)) == Metrics.RowIds(rows)
  {
    if rows != [] {
      var init := rows[..|rows| - 1];
      PairIdsOfRows(init);
      assert RowsToJson(rows)[..|rows| - 1] == RowsToJson(init);
    }
  }

  // ---------------------------------------------------------------------
  // ap_at_k
  // ---------------------------------------------------------------------

  /** `ap_at_k(ranked, relevant, k)`: the same measure as eval_queries.py's
      `ap_at_k(rels, ranked_doc_ids, k)`, with the arguments swapped. */
  method ApAtK(ranked: seq<string>, relevant: set<string>, k: int) returns (r: Result<real>)
    ensures r == Metrics.AveragePrecisionAtK(relevant, ranked, k)
    ensures relevant == {} ==> r == Ok(0.0)
  {
    r := Metrics.ApAtK(relevant, ranked, k);
  }

  // ---------------------------------------------------------------------
  // load_queries_train over the parsed JSON
  // ---------------------------------------------------------------------

  /** A usable query string: stripped, kept only when something is left. */
  function Usable(q: Json): seq<string> {
    if q.JStr? && !IsBlank(q.s) then [Strip(q.s)] else []
  }

  /** The query an item of a top-level list yields: from a dict the first
      truthy of "query", "question" and "text"; a string itself. */
  function ItemQuery(item: Json): seq<string> {
    match item
    case JDict(f) => Usable(Or(Or(Lookup(f, "query"), Lookup(f, "question")), Lookup(f, "text")))
    case JStr(_) => Usable(item)
    case _ => []
  }

  function ItemQueries(items: seq<Json>): seq<string> {
    if items == [] then [] else ItemQueries(items[..|items| - 1]) + ItemQuery(items[|items| - 1])
  }

  function UsableAll(items: seq<Json>): seq<string> {
    if items == [] then [] else UsableAll(items[..|items| - 1]) + Usable(items[|items| - 1])
  }

  /** Every query found, before the `max_q` cut. */
  function QueriesIn(obj: Json): seq<string> {
    match obj
    case JList(items) => ItemQueries(items)
    case JDict(f) => (var maybe := Lookup(f, "queries"); if maybe.JList? then UsableAll(maybe.items) else [])
    case _ => []
  }

  /** Every entry is stripped and non-empty. */
  predicate AllUsable(qs: seq<string>) {
    forall i | 0 <= i < |qs| :: qs[i] != [] && Strip(qs[i]) == qs[i]
  }

  lemma UsableIsUsable(q: Json)
    ensures AllUsable(Usable(q))
  {
    if q.JStr? && !IsBlank(q.s) {
      StripIdempotent(q.s);
    }
  }

  lemma {:induction false} ItemQueriesUsable(items: seq<Json>)
    ensures AllUsable(ItemQueries(items))
  {
    if items != [] {
      ItemQueriesUsable(items[..|items| - 1]);
      var item := items[|items| - 1];
      match item
      case JDict(f) => UsableIsUsable(Or(Or(Lookup(f, "query"), Lookup(f, "question")), Lookup(f, "text")));
      case JStr(_) => UsableIsUsable(item);
      case _ =>
    }
  }

  lemma {:induction false} UsableAllUsable(items: seq<Json>)
    ensures AllUsable(UsableAll(items))
  {
    if items != [] {
      UsableAllUsable(items[..|items| - 1]);
      UsableIsUsable(items[|items| - 1]);
    }
  }

  /** Whatever the file holds, the queries found are stripped and non-empty. */
  lemma QueriesInUsable(obj: Json)
    ensures AllUsable(QueriesIn(obj))
  {
    match obj
    case JList(items) => ItemQueriesUsable(items);
    case JDict(f) =>
      var maybe := Lookup(f, "queries");
      if maybe.JList? {
        UsableAllUsable(maybe.items);
      }
    case _ =>
  }

  /** The loop over a top-level list of queries. */
  method ScanItems(items: seq<Json>) returns (found: seq<string>)
    ensures found == ItemQueries(items)
  {
    found := [];
    var i := 0;
    while i < |items|
      invariant 0 <= i <= |items|
      invariant found == ItemQueries(items[..i])
    {
      assert items[..i + 1][..i] == items[..i];
      var item := items[i];
      if item.JDict? {
        var q := Or(Or(Lookup(item.fields, "query"), Lookup(item.fields, "question")), Lookup(item.fields, "text"));
        if q.JStr? && Strip(q.s) != [] {
          found := found + [Strip(q.s)];
        }
      } else if item.JStr? && Strip(item.s) != [] {
        found := found + [Strip(item.s)];
      }
      i := i + 1;
    }
    assert items[..i] == items;
  }

  /** The loop over the `"queries"` list of a top-level dict. */
  method ScanQueries(items: seq<Json>) returns (found: seq<string>)
    ensures found == UsableAll(items)
  {
    found := [];
    var i := 0;
    while i < |items|
      invariant 0 <= i <= |items|
      invariant found == UsableAll(items[..i])
    {
      assert items[..i + 1][..i] == items[..i];
      var q := items[i];
      if q.JStr? && Strip(q.s) != [] {
        found := found + [Strip(q.s)];
      }
      i := i + 1;
    }
    assert items[..i] == items;
  }

  /** `load_queries_train` after `json.load`: `obj` is `None` when opening or
      decoding the file raised. At most `max_q` queries are kept. */
  method LoadQueriesTrain(obj: Option<Json>, maxQ: int) returns (queries: seq<string>)
    ensures obj.None? ==> queries == []
    ensures obj.Some? ==> queries == PyPrefix(QueriesIn(obj.value), maxQ)
    ensures maxQ >= 0 ==> |queries| <= maxQ
  {
    if obj.None? {
      return [];
    }
    var found: seq<string> := [];
    match obj.value {
      case JList(items) =>
        found := ScanItems(items);
      case JDict(f) =>
        var maybe := Lookup(f, "queries");
        if maybe.JList? {
          found := ScanQueries(maybe.items);
        }
      case _ =>
    }
    if found != [] {
      return PyPrefix(found, maxQ);
    }
    return [];
  }

  /** The loaded queries are stripped and non-empty. */
  lemma LoadedQueriesUsable(obj: Json, maxQ: int)
    ensures AllUsable(PyPrefix(QueriesIn(obj), maxQ))
  {
    QueriesInUsable(obj);
  }

  // ---------------------------------------------------------------------
  // The per-query loop of `main` and the mean AP
  // ---------------------------------------------------------------------

  /** One query's three decoded responses: `/search_title`, `/search_anchor`
      and `/search`, in the order they are fetched. */
  datatype Responses = Responses(title: Json, anchor: Json, search: Json)

  /** `set(doc_ids(title_pairs, k=200)) | set(doc_ids(anchor_pairs, k=200))`. */
  function PseudoRelevant(titlePairs: seq<Json>, anchorPairs: seq<Json>): set<string> {
    var t := PairIds(PyPrefix(titlePairs, RelK));
    var a := PairIds(PyPrefix(anchorPairs, RelK));
    (set x | x in t) + (set x | x in a)
  }

  /** One query's AP@10, or the error a non-list response raises. */
  function QueryAp(resp: Responses): Result<real> {
    var t := StripTimeRow(resp.title);
    var a := StripTimeRow(resp.anchor);
    var s := StripTimeRow(resp.search);
    if t.Err? then Err(t.error)
    else if a.Err? then Err(a.error)
    else if s.Err? then Err(s.error)
    else Metrics.AveragePrecisionAtK(PseudoRelevant(t.value, a.value), PairIds(PyPrefix(s.value, TopK)), TopK)
  }

  /** The per-query APs of a run in which every response is a list. */
  function ApScores(runs: seq<Responses>): (r: seq<real>)
    ensures |r| == |runs|
  {
    if runs == [] then []
    else
      var ap := QueryAp(runs[|runs| - 1]);
      ApScores(runs[..|runs| - 1]) + [if ap.Ok? then ap.value else 0.0]
  }

  /** No response of the run is a non-list. */
  predicate AllScored(runs: seq<Responses>) {
    runs == [] || (AllScored(runs[..|runs| - 1]) && QueryAp(runs[|runs| - 1]).Ok?)
  }

  lemma {:induction false} AllScoredAt(runs: seq<Responses>, i: int)
    requires AllScored(runs) && 0 <= i < |runs|
    ensures QueryAp(runs[i]).Ok?
  {
    if i < |runs| - 1 {
      var init := runs[..|runs| - 1];
      AllScoredAt(init, i);
      assert init[i] == runs[i];
    }
  }

  /** The body of the loop of `main` for one query. */
  method ScoreQuery(resp: Responses) returns (r: Result<real>)
    ensures r == QueryAp(resp)
    ensures r.Err? ==> r.error == ValueError
  {
    var titlePairs := StripTimeRow(resp.title);
    if titlePairs.Err? {
      return Err(titlePairs.error);
    }
    var anchorPairs := StripTimeRow(resp.anchor);
    if anchorPairs.Err? {
      return Err(anchorPairs.error);
    }
    var t := DocIds(titlePairs.value, Some(RelK));
    var a := DocIds(anchorPairs.value, Some(RelK));
    var rel := (set x | x in t) + (set x | x in a);
    var searchPairs := StripTimeRow(resp.search);
    if searchPairs.Err? {
      return Err(searchPairs.error);
    }
    var ranked := DocIds(searchPairs.value, Some(TopK));
    r := ApAtK(ranked, rel, TopK);
  }

  /** The loop of `main`: a non-list response ends the run; otherwise the
      mean AP@10 over the queries, 0.0 for none. */
  method MeanAp(runs: seq<Responses>) returns (r: Result<real>)
    ensures r.Err? <==> exists i | 0 <= i < |runs| :: QueryAp(runs[i]).Err?
    ensures r.Err? ==> r.error == ValueError
    ensures r.Ok? ==> r.value == Metrics.Mean(ApScores(runs))
    ensures runs == [] ==> r == Ok(0.0)
  {
    var apScores: seq<real> := [];
    var i := 0;
    while i < |runs|
      invariant 0 <= i <= |runs|
      invariant apScores == ApScores(runs[..i])
      invariant AllScored(runs[..i])
    {
      var ap := ScoreQuery(runs[i]);
      if ap.Err? {
        assert QueryAp(runs[i]).Err?;
        return Err(ap.error);
      }
      assert runs[..i + 1][..i] == runs[..i];
      apScores := apScores + [ap.value];
      i := i + 1;
    }
    assert runs[..i] == runs;
    forall j | 0 <= j < |runs|
      ensures QueryAp(runs[j]).Ok?
    {
      AllScoredAt(runs, j);
    }
    r := Ok(Metrics.Mean(apScores));
  }

  /** The per-query AP of a response whose `/search` ids are distinct lies
      in [0, 1]. */
  lemma QueryApBounds(resp: Responses)
    requires QueryAp(resp).Ok?
    requires StripTimeRow(resp.search).Ok? ==> Distinct(PairIds(PyPrefix(StripTimeRow(resp.search).value, TopK)))
    ensures 0.0 <= QueryAp(resp).value <= 1.0
  {
    var t := StripTimeRow(resp.title);
    var a := StripTimeRow(resp.anchor);
    var s := StripTimeRow(resp.search);
    Metrics.ApBounds(PseudoRelevant(t.value, a.value), PairIds(PyPrefix(s.value, TopK)), TopK);
  }

  lemma {:induction false} ApScoresBounds(runs: seq<Responses>)
    requires forall i | 0 <= i < |runs| :: QueryAp(runs[i]).Ok?
    requires forall i | 0 <= i < |runs| :: StripTimeRow(runs[i].search).Ok? ==> Distinct(PairIds(PyPrefix(StripTimeRow(runs[i].search).value, TopK)))
    ensures forall i | 0 <= i < |runs| :: 0.0 <= ApScores(runs)[i] <= 1.0
  {
    if runs != [] {
      var init := runs[..|runs| - 1];
      ApScoresBounds(init);
      QueryApBounds(runs[|runs| - 1]);
    }
  }

  /** When every `/search` response lists each id once, the mean AP@10 lies
      in [0, 1]. */
  lemma MeanApBounds(runs: seq<Responses>)
    requires forall i | 0 <= i < |runs| :: QueryAp(runs[i]).Ok?
    requires forall i | 0 <= i < |runs| :: StripTimeRow(runs[i].search).Ok? ==> Distinct(PairIds(PyPrefix(StripTimeRow(runs[i].search).value, TopK)))
    ensures 0.0 <= Metrics.Mean(ApScores(runs)) <= 1.0
  {
    ApScoresBounds(runs);
    if runs != [] {
      Metrics.MeanBounds(ApScores(runs), 0.0, 1.0);
    }
  }
}
