/** The response-shape checks of scripts/check_minimal.py, applied to a
    decoded JSON response. `fail` prints and exits the script; here it is a
    `Fail` outcome naming the first check that did not hold. */
module ResponseCheck {
  import opened PyBase
  import opened Text
  import opened Json
  import opened TimeFormat
  import Ranking

  const TimeRowKey: string := "__time__"

  /** How many rows after the optional time row are inspected. */
  const InspectedRows: nat := 5

  /** A list of exactly two strings (JSON has no tuples). */
  predicate IsStrPair(item: Json) {
    item.JList? && |item.items| == 2 && item.items[0].JStr? && item.items[1].JStr?
  }

  /** The item scan of `is_pair_list`, stopping at the first bad item. */
  function AllStrPairs(items: seq<Json>): (r: bool)
    ensures r <==> forall i | 0 <= i < |items| :: IsStrPair(items[i])
  {
    if items == [] then true
    else if !IsStrPair(items[0]) then false
    else AllStrPairs(items[1..])
  }

  /** `is_pair_list(x)`. */
  predicate IsPairList(x: Json) {
    x.JList? && AllStrPairs(x.items)
  }

  /** The `(str, str)` rows of a pair list. */
  function Pairs(items: seq<Json>): (rows: seq<Ranking.Row>)
    requires AllStrPairs(items)
    ensures |rows| == |items|
    ensures forall i | 0 <= i < |items| :: items[i] == JList([JStr(rows[i].0), JStr(rows[i].1)])
  {
    seq(|items|, i requires 0 <= i < |items| && IsStrPair(items[i]) => (items[i].items[0].s, items[i].items[1].s))
  }

  datatype Failure =
    | NotPairList
    | EmptyResponse
    | BadTimeKey(key: string)
    | BadTimeFormat(value: string)
    | EmptyDocId(row: nat)
    | EmptyTitle(row: nat)
    | TooManyResults(count: int)

  datatype Outcome = Pass | Fail(reason: Failure)

  /** `not doc_id.strip()` and `not title.strip()` over rows `i` to `end`,
      failing at the first blank id or title (`Text.Strip` is empty exactly
      on blank strings). */
  function CheckRows(rows: seq<Ranking.Row>, i: nat, end: nat): (r: Outcome)
    requires i <= end <= |rows|
    ensures r == Pass <==> forall j | i <= j < end :: !IsBlank(rows[j].0) && !IsBlank(rows[j].1)
    ensures r.Fail? ==> r.reason.EmptyDocId? || r.reason.EmptyTitle?
    ensures r.Fail? && r.reason.EmptyDocId? ==>
      var j := r.reason.row; i <= j < end && IsBlank(rows[j].0)
    ensures r.Fail? && r.reason.EmptyTitle? ==>
      var j := r.reason.row; i <= j < end && !IsBlank(rows[j].0) && IsBlank(rows[j].1)
    decreases end - i
  {
    if i == end then Pass
    else if IsBlank(rows[i].0) then Fail(EmptyDocId(i))
    else if IsBlank(rows[i].1) then Fail(EmptyTitle(i))
    else CheckRows(rows, i + 1, end)
  }

  /** The `require_time_row` guards: a first row `["__time__", v]` with `v`
      matching the time pattern. */
  function CheckTimeRow(rows: seq<Ranking.Row>): (r: Outcome)
    ensures r == Pass ==> |rows| > 0
  {
    if |rows| == 0 then Fail(EmptyResponse)
    else if rows[0].0 != TimeRowKey then Fail(BadTimeKey(rows[0].0))
    else if !Matches(rows[0].1) then Fail(BadTimeFormat(rows[0].1))
    else Pass
  }

  /** The row the id/title checks start at. */
  function Start(requireTimeRow: bool): nat {
    if requireTimeRow then 1 else 0
  }

  /** The checks after the shape check, over the decoded rows. */
  function CheckPairs(rows: seq<Ranking.Row>, requireTimeRow: bool, maxResults: Option<int>): (r: Outcome)
    ensures r == Fail(EmptyResponse) <==> requireTimeRow && rows == []
    ensures r != Fail(NotPairList)
    ensures maxResults.None? ==> !(r.Fail? && r.reason.TooManyResults?)
    ensures r.Fail? && r.reason.TooManyResults? ==>
      && maxResults.Some?
      && r.reason.count == |rows| - Start(requireTimeRow) > maxResults.value
  {
    var head := if requireTimeRow then CheckTimeRow(rows) else Pass;
    if head.Fail? then head
    else
      var start := Start(requireTimeRow);
      var rowCheck := CheckRows(rows, start, Min(start + InspectedRows, |rows|));
      if rowCheck.Fail? then rowCheck
      else
        var count := |rows| - start;
        if maxResults.Some? && count > maxResults.value then Fail(TooManyResults(count))
        else Pass
  }

  /** `check_search_like(data, require_time_row, max_results)`. */
  function CheckSearchLike(data: Json, requireTimeRow: bool, maxResults: Option<int>): (r: Outcome)
    ensures !IsPairList(data) ==> r == Fail(NotPairList)
    ensures r == Fail(EmptyResponse) <==> IsPairList(data) && requireTimeRow && data.items == []
    ensures maxResults.None? ==> !(r.Fail? && r.reason.TooManyResults?)
    ensures r.Fail? && r.reason.TooManyResults? ==>
      && maxResults.Some?
      && r.reason.count == |data.items| - Start(requireTimeRow) > maxResults.value
  {
    if !IsPairList(data) then Fail(NotPairList)
    else CheckPairs(Pairs(data.items), requireTimeRow, maxResults)
  }

  // ---------------------------------------------------------------------
  // What a passing response looks like, stated without the guard chain
  // ---------------------------------------------------------------------

  /** With a time row required, the rows open with `("__time__", v)`, `v`
      of the time shape; the first five rows after it have non-blank ids and
      titles; and, with a limit, at most that many rows follow the time row. */
  ghost predicate AcceptableRows(rows: seq<Ranking.Row>, requireTimeRow: bool, maxResults: Option<int>) {
    var start := Start(requireTimeRow);
    && (requireTimeRow ==> |rows| > 0 && rows[0].0 == TimeRowKey && MatchesTime(rows[0].1))
    && (forall j | start <= j < |rows| && j < start + InspectedRows ::
          !IsBlank(rows[j].0) && !IsBlank(rows[j].1))
    && (maxResults.Some? ==> |rows| - start <= maxResults.value)
  }

  /** A list of string pairs whose rows are acceptable. */
  ghost predicate Acceptable(data: Json, requireTimeRow: bool, maxResults: Option<int>) {
    && data.JList?
    && (forall i | 0 <= i < |data.items| :: IsStrPair(data.items[i]))
    && AcceptableRows(Pairs(data.items), requireTimeRow, maxResults)
  }

  lemma CheckTimeRowCorrect(rows: seq<Ranking.Row>)
    ensures CheckTimeRow(rows) == Pass <==> |rows| > 0 && rows[0].0 == TimeRowKey && MatchesTime(rows[0].1)
  {
    if |rows| > 0 {
      MatchesCorrect(rows[0].1);
    }
  }

  /** The guard chain over the rows passes exactly the acceptable rows. */
  lemma CheckPairsCorrect(rows: seq<Ranking.Row>, requireTimeRow: bool, maxResults: Option<int>)
    ensures CheckPairs(rows, requireTimeRow, maxResults) == Pass <==> AcceptableRows(rows, requireTimeRow, maxResults)
  {
    CheckTimeRowCorrect(rows);
  }

  /** `check_search_like` passes exactly the acceptable responses. */
  lemma CheckSearchLikeCorrect(data: Json, requireTimeRow: bool, maxResults: Option<int>)
    ensures CheckSearchLike(data, requireTimeRow, maxResults) == Pass <==> Acceptable(data, requireTimeRow, maxResults)
  {
    if IsPairList(data) {
      CheckPairsCorrect(Pairs(data.items), requireTimeRow, maxResults);
    }
  }

  /** Whatever else it holds, a response that is not a pair list fails on
      that first. */
  lemma ShapeCheckedFirst(data: Json, requireTimeRow: bool, maxResults: Option<int>)
    requires data.JList? ==> exists i | 0 <= i < |data.items| :: !IsStrPair(data.items[i])
    ensures CheckSearchLike(data, requireTimeRow, maxResults) == Fail(NotPairList)
  {
  }

  /** Rows past the inspected window are never looked at: two row lists of
      the same length that agree on their first six rows get the same verdict. */
  lemma OnlyLeadingRowsInspected(r1: seq<Ranking.Row>, r2: seq<Ranking.Row>, requireTimeRow: bool, maxResults: Option<int>)
    requires |r1| == |r2|
    requires forall i | 0 <= i < |r1| && i < 1 + InspectedRows :: r1[i] == r2[i]
    ensures CheckPairs(r1, requireTimeRow, maxResults) == CheckPairs(r2, requireTimeRow, maxResults)
  {
    var start := Start(requireTimeRow);
    var end := Min(start + InspectedRows, |r1|);
    if start <= end {
      CheckRowsAgree(r1, r2, start, end);
    }
    if |r1| > 0 {
      assert r1[0] == r2[0];
    }
  }

  /** The row-count limit is checked last: a response that passes without a
      limit fails under one exactly when it holds too many results. */
  lemma LimitCheckedLast(rows: seq<Ranking.Row>, requireTimeRow: bool, maxResults: Option<int>)
    requires CheckPairs(rows, requireTimeRow, None) == Pass
    ensures maxResults.Some? && |rows| - Start(requireTimeRow) > maxResults.value ==>
      CheckPairs(rows, requireTimeRow, maxResults) == Fail(TooManyResults(|rows| - Start(requireTimeRow)))
    ensures !(maxResults.Some? && |rows| - Start(requireTimeRow) > maxResults.value) ==>
      CheckPairs(rows, requireTimeRow, maxResults) == Pass
  {
  }

  lemma {:induction false} CheckRowsAgree(r1: seq<Ranking.Row>, r2: seq<Ranking.Row>, i: nat, end: nat)
    requires i <= end <= |r1| && end <= |r2|
    requires forall j | i <= j < end :: r1[j] == r2[j]
    ensures CheckRows(r1, i, end) == CheckRows(r2, i, end)
    decreases end - i
  {
    if i < end {
      CheckRowsAgree(r1, r2, i + 1, end);
    }
  }

  // ---------------------------------------------------------------------
  // The server's responses against the check
  // ---------------------------------------------------------------------

  /** The server's response body: its rows as `jsonify` encodes them. */
  function Encoded(rows: seq<Ranking.Row>): Json {
    JList(RowsToJson(rows))
  }

  lemma EncodedPairs(rows: seq<Ranking.Row>)
    ensures IsPairList(Encoded(rows))
    ensures Pairs(Encoded(rows).items) == rows
  {
    var items := RowsToJson(rows);
    assert forall i | 0 <= i < |items| :: IsStrPair(items[i]);
    var back := Pairs(items);
    assert forall i | 0 <= i < |rows| :: back[i] == rows[i];
  }

  /** Every row after the time row has a non-blank id and title. */
  lemma DocRowsNonBlank<V>(e: Ranking.Engine, ranked: seq<(int, V)>)
    requires Ranking.TitlesNonBlank(e.id2title)
    ensures var rows := Ranking.DocRows(e, ranked);
      forall j | 0 <= j < |rows| :: !IsBlank(rows[j].0) && !IsBlank(rows[j].1)
  {
  }

  /** A time row of the pattern's shape followed by rows with non-blank ids
      and titles passes, whenever their count meets the limit. */
  lemma TimedRowsPass(elapsed: string, docRows: seq<Ranking.Row>, maxResults: Option<int>)
    requires MatchesTime(elapsed)
    requires forall j | 0 <= j < |docRows| :: !IsBlank(docRows[j].0) && !IsBlank(docRows[j].1)
    requires maxResults.Some? ==> |docRows| <= maxResults.value
    ensures CheckPairs([(TimeRowKey, elapsed)] + docRows, true, maxResults) == Pass
  {
    var rows := [(TimeRowKey, elapsed)] + docRows;
    RowsAfterTimeRow(elapsed, docRows);
    CheckTimeRowCorrect(rows);
  }

  lemma RowsAfterTimeRow(elapsed: string, docRows: seq<Ranking.Row>)
    requires forall j | 0 <= j < |docRows| :: !IsBlank(docRows[j].0) && !IsBlank(docRows[j].1)
    ensures var rows := [(TimeRowKey, elapsed)] + docRows;
      CheckRows(rows, 1, Min(1 + InspectedRows, |rows|)) == Pass
  {
    var rows := [(TimeRowKey, elapsed)] + docRows;
    forall j | 1 <= j < |rows|
      ensures !IsBlank(rows[j].0) && !IsBlank(rows[j].1)
    {
      assert rows[j] == docRows[j - 1];
    }
  }

  /** A timed response whose time string has the pattern's shape and whose
      titles are non-blank passes the check whenever its row count meets the
      limit. */
  lemma TimedResponsePasses<V>(e: Ranking.Engine, ranked: seq<(int, V)>, elapsed: string, maxResults: Option<int>)
    requires Ranking.TitlesNonBlank(e.id2title)
    requires MatchesTime(elapsed)
    requires maxResults.Some? ==> |ranked| <= maxResults.value
    ensures CheckSearchLike(Encoded(Ranking.TimedResponse(elapsed, Ranking.DocRows(e, ranked))), true, maxResults) == Pass
  {
    var docRows := Ranking.DocRows(e, ranked);
    var rows := Ranking.TimedResponse(elapsed, docRows);
    DocRowsNonBlank(e, ranked);
    TimedRowsPass(elapsed, docRows, maxResults);
    assert rows == [(TimeRowKey, elapsed)] + docRows;
    EncodedVerdict(rows, true, maxResults);
  }

  /** A non-empty `/search` or `/search_body` query answered with the time
      row and at most 100 results passes `check_search_like(data, True, 100)`,
      provided the time string has the pattern's shape and no stored title is
      blank. */
  lemma SearchResponsePasses(e: Ranking.Engine, top: seq<Ranking.Scored>, elapsed: string)
    requires Ranking.TitlesNonBlank(e.id2title)
    requires MatchesTime(elapsed)
    requires |top| <= Ranking.ResultCap
    ensures CheckSearchLike(Encoded(Ranking.TimedResponse(elapsed, Ranking.DocRows(e, top))), true, Some(100)) == Pass
  {
    TimedResponsePasses(e, top, elapsed, Some(100));
  }

  /** `/search_title` and `/search_anchor` pass `check_search_like(data,
      True, None)` however many documents they list. */
  lemma FieldResponsePasses(e: Ranking.Engine, ranked: seq<Ranking.Counted>, elapsed: string)
    requires Ranking.TitlesNonBlank(e.id2title)
    requires MatchesTime(elapsed)
    ensures CheckSearchLike(Encoded(Ranking.TimedResponse(elapsed, Ranking.DocRows(e, ranked))), true, None) == Pass
  {
    TimedResponsePasses(e, ranked, elapsed, None);
  }

  /** The `fmt_time` shape is what makes the time row pass. */
  lemma FmtTimeRowPasses<V>(e: Ranking.Engine, ranked: seq<(int, V)>, whole: string, millis3: string, ms: string)
    requires Ranking.TitlesNonBlank(e.id2title)
    requires Digits(whole) && Digits(millis3) && |millis3| == 3 && Digits(ms)
    ensures CheckSearchLike(Encoded(Ranking.TimedResponse(FmtTimeShape(whole, millis3, ms), Ranking.DocRows(e, ranked))), true, None) == Pass
  {
    FmtTimeAccepted(whole, millis3, ms);
    TimedResponsePasses(e, ranked, FmtTimeShape(whole, millis3, ms), None);
  }

  /** The empty answer the server gives an empty query has no time row, so
      the check rejects it whenever a time row is required. */
  lemma EmptyQueryAnswerFails(maxResults: Option<int>)
    ensures CheckSearchLike(Encoded([]), true, maxResults) == Fail(EmptyResponse)
    ensures CheckSearchLike(Encoded([]), false, maxResults) == (if maxResults.Some? && maxResults.value < 0 then Fail(TooManyResults(0)) else Pass)
  {
    EncodedPairs([]);
  }

  /** Encoded rows get the verdict of the row checks. */
  lemma EncodedVerdict(rows: seq<Ranking.Row>, requireTimeRow: bool, maxResults: Option<int>)
    ensures CheckSearchLike(Encoded(rows), requireTimeRow, maxResults) == CheckPairs(rows, requireTimeRow, maxResults)
  {
    EncodedPairs(rows);
  }

  /** A response with more results than the limit fails, naming its count
      without the time row. */
  lemma TooManyRowsFail<V>(e: Ranking.Engine, ranked: seq<(int, V)>, elapsed: string, maxResults: Option<int>)
    requires Ranking.TitlesNonBlank(e.id2title)
    requires MatchesTime(elapsed)
    requires maxResults.Some? && |ranked| > maxResults.value
    ensures CheckSearchLike(Encoded(Ranking.TimedResponse(elapsed, Ranking.DocRows(e, ranked))), true, maxResults)
      == Fail(TooManyResults(|ranked|))
  {
    var docRows := Ranking.DocRows(e, ranked);
    var rows := Ranking.TimedResponse(elapsed, docRows);
    DocRowsNonBlank(e, ranked);
    TimedRowsPass(elapsed, docRows, None);
    assert rows == [(TimeRowKey, elapsed)] + docRows;
    LimitCheckedLast(rows, true, maxResults);
    EncodedVerdict(rows, true, maxResults);
  }
}
