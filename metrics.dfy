/** The ranking-quality measures of eval_queries.py: AP@K, P@K and R@K of
    one ranked list of document ids against a set of relevant ids, their
    means over a run, and the reading of the server's response into a list
    of ids. Ratios are exact `real`s. */
module Metrics {
  import opened PyBase
  import opened Json

  // ---------------------------------------------------------------------
  // Counting hits
  // ---------------------------------------------------------------------

  /** How many entries of `s` are relevant (a repeated id counts each time). */
  function Hits(rels: set<string>, s: seq<string>): (n: nat)
    ensures n <= |s|
  {
    if s == [] then 0
    else Hits(rels, s[..|s| - 1]) + (if s[|s| - 1] in rels then 1 else 0)
  }

  /** The sum, over the relevant positions `i` (from 1) of `s`, of the
      precision of `s[:i]`. */
  function PrecisionSum(rels: set<string>, s: seq<string>): real {
    if s == [] then 0.0
    else
      PrecisionSum(rels, s[..|s| - 1])
      + (if s[|s| - 1] in rels then Hits(rels, s) as real / |s| as real else 0.0)
  }

  /** The relevant ids that occur in `s`. */
  function HitSet(rels: set<string>, s: seq<string>): set<string> {
    set x | x in s && x in rels
  }

  lemma DivAtMostOne(x: real, y: real)
    requires 0.0 <= x <= y && y > 0.0
    ensures 0.0 <= x / y <= 1.0
  {
  }

  lemma DivSelf(x: real)
    requires x > 0.0
    ensures x / x == 1.0
  {
    assert 1.0 * x == x;
  }

  lemma SubsetCard<T>(a: set<T>, b: set<T>)
    ensures a <= b ==> |a| <= |b|
  {
    if a <= b {
      assert b == a + (b - a);
    }
  }

  /** Each relevant position adds a precision of at most 1. */
  lemma {:induction false} PrecisionSumBounds(rels: set<string>, s: seq<string>)
    ensures 0.0 <= PrecisionSum(rels, s) <= Hits(rels, s) as real
  {
    if s != [] {
      PrecisionSumBounds(rels, s[..|s| - 1]);
      if s[|s| - 1] in rels {
        DivAtMostOne(Hits(rels, s) as real, |s| as real);
      }
    }
  }

  /** Without repeated ids, the hits are distinct relevant ids. */
  lemma {:induction false} HitsDistinct(rels: set<string>, s: seq<string>)
    requires Distinct(s)
    ensures Hits(rels, s) == |HitSet(rels, s)|
    ensures Hits(rels, s) <= |rels|
  {
    if s != [] {
      var init := s[..|s| - 1];
      var x := s[|s| - 1];
      HitsDistinct(rels, init);
      assert x !in init by {
        forall i | 0 <= i < |init|
          ensures init[i] != x
        {
          assert s[i] != s[|s| - 1];
        }
      }
      assert s == init + [x];
      if x in rels {
        assert HitSet(rels, s) == HitSet(rels, init) + {x};
      } else {
        assert HitSet(rels, s) == HitSet(rels, init);
      }
    }
    SubsetCard(HitSet(rels, s), rels);
  }

  lemma DistinctPrefix<T>(s: seq<T>, n: nat)
    requires Distinct(s) && n <= |s|
    ensures Distinct(s[..n])
  {
  }

  // ---------------------------------------------------------------------
  // AP@K
  // ---------------------------------------------------------------------

  /** `ap_at_k(rels, ranked_doc_ids, k)`: 0.0 without relevant ids;
      otherwise the precision sum over `ranked[:k]` divided by
      `min(len(rels), k)`, a `ZeroDivisionError` when that is 0 (k == 0),
      and a negative divisor when k is negative. */
  function AveragePrecisionAtK(rels: set<string>, ranked: seq<string>, k: int): (r: Result<real>)
    ensures rels == {} ==> r == Ok(0.0)
    ensures rels != {} ==> (r.Err? <==> k == 0)
    ensures r.Err? ==> r.error == ZeroDivisionError
  {
    if rels == {} then Ok(0.0)
    else if Min(|rels|, k) == 0 then Err(ZeroDivisionError)
    else Ok(PrecisionSum(rels, PyPrefix(ranked, k)) / Min(|rels|, k) as real)
  }

  /** The loop of `ap_at_k`, accumulating hits and precisions over `ranked[:k]`. */
  method ApAtK(rels: set<string>, ranked: seq<string>, k: int) returns (r: Result<real>)
    ensures r == AveragePrecisionAtK(rels, ranked, k)
  {
    if rels == {} {
      return Ok(0.0);
    }
    var top := PyPrefix(ranked, k);
    var hits := 0;
    var sumPrec := 0.0;
    var i := 0;
    while i < |top|
      invariant 0 <= i <= |top|
      invariant hits == Hits(rels, top[..i])
      invariant sumPrec == PrecisionSum(rels, top[..i])
    {
      assert top[..i + 1][..i] == top[..i];
      if top[i] in rels {
        hits := hits + 1;
        sumPrec := sumPrec + hits as real / (i + 1) as real;
      }
      i := i + 1;
    }
    assert top[..i] == top;
    var denom := Min(|rels|, k);
    if denom == 0 {
      return Err(ZeroDivisionError);
    }
    r := Ok(sumPrec / denom as real);
  }

  /** With `k >= 1` and no repeated ids, AP@K is defined and lies in [0, 1]. */
  lemma ApBounds(rels: set<string>, ranked: seq<string>, k: int)
    requires k >= 1 && Distinct(ranked)
    ensures AveragePrecisionAtK(rels, ranked, k).Ok?
    ensures 0.0 <= AveragePrecisionAtK(rels, ranked, k).value <= 1.0
  {
    if rels != {} {
      var top := PyPrefix(ranked, k);
      DistinctPrefix(ranked, |top|);
      PrecisionSumBounds(rels, top);
      HitsDistinct(rels, top);
      DivAtMostOne(PrecisionSum(rels, top), Min(|rels|, k) as real);
    }
  }

  /** Entries after position `k` never change AP@K. */
  lemma ApIgnoresTail(rels: set<string>, ranked: seq<string>, tail: seq<string>, k: int)
    requires 0 <= k <= |ranked|
    ensures AveragePrecisionAtK(rels, ranked + tail, k) == AveragePrecisionAtK(rels, ranked, k)
  {
    assert PyPrefix(ranked + tail, k) == PyPrefix(ranked, k);
  }

  /** When every entry is relevant, each position adds a precision of 1. */
  lemma {:induction false} AllRelevantSum(rels: set<string>, s: seq<string>)
    requires forall i | 0 <= i < |s| :: s[i] in rels
    ensures Hits(rels, s) == |s|
    ensures PrecisionSum(rels, s) == |s| as real
  {
    if s != [] {
      AllRelevantSum(rels, s[..|s| - 1]);
    }
  }

  /** Irrelevant entries appended after `p` add nothing. */
  lemma {:induction false} IrrelevantTailSum(rels: set<string>, p: seq<string>, q: seq<string>)
    requires forall i | 0 <= i < |q| :: q[i] !in rels
    ensures Hits(rels, p + q) == Hits(rels, p)
    ensures PrecisionSum(rels, p + q) == PrecisionSum(rels, p)
  {
    if q != [] {
      var q' := q[..|q| - 1];
      assert (p + q)[..|p + q| - 1] == p + q';
      assert (p + q)[|p + q| - 1] == q[|q| - 1];
      IrrelevantTailSum(rels, p, q');
    } else {
      assert p + q == p;
    }
  }

  /** Once `p` lists as many distinct relevant ids as there are, no other
      id is relevant. */
  lemma RelsExhausted(rels: set<string>, p: seq<string>, y: string)
    requires Distinct(p) && |p| == |rels|
    requires forall i | 0 <= i < |p| :: p[i] in rels
    requires y !in p
    ensures y !in rels
  {
    AllRelevantSum(rels, p);
    HitsDistinct(rels, p);
    var a := HitSet(rels, p) + {y};
    assert |a| == |rels| + 1;
    SubsetCard(a, rels);
  }

  /** When the first `min(|rels|, k)` entries are all relevant, the
      precision sum over `ranked[:k]` is that number. */
  lemma PerfectPrefixSum(rels: set<string>, ranked: seq<string>, k: int)
    requires k >= 1 && rels != {} && Distinct(ranked)
    requires Min(|rels|, k) <= |ranked|
    requires forall i | 0 <= i < Min(|rels|, k) :: ranked[i] in rels
    ensures PrecisionSum(rels, PyPrefix(ranked, k)) == Min(|rels|, k) as real
  {
    var m := Min(|rels|, k);
    var top := PyPrefix(ranked, k);
    var p := ranked[..m];
    var q := top[m..];
    assert top == p + q;
    AllRelevantSum(rels, p);
    if m == |rels| {
      DistinctPrefix(ranked, m);
      forall j | 0 <= j < |q|
        ensures q[j] !in rels
      {
        assert q[j] == ranked[m + j];
        assert q[j] !in p by {
          forall i | 0 <= i < m
            ensures p[i] != q[j]
          {
            assert ranked[i] != ranked[m + j];
          }
        }
        RelsExhausted(rels, p, q[j]);
      }
      IrrelevantTailSum(rels, p, q);
    } else {
      assert q == [];
      assert top == p;
    }
  }

  /** A ranking whose first `min(|rels|, k)` entries are all relevant has
      AP@K exactly 1. */
  lemma ApPerfect(rels: set<string>, ranked: seq<string>, k: int)
    requires k >= 1 && rels != {} && Distinct(ranked)
    requires Min(|rels|, k) <= |ranked|
    requires forall i | 0 <= i < Min(|rels|, k) :: ranked[i] in rels
    ensures AveragePrecisionAtK(rels, ranked, k) == Ok(1.0)
  {
    PerfectPrefixSum(rels, ranked, k);
    DivSelf(Min(|rels|, k) as real);
  }

  /** The worked example: relevant {a, b, c}, ranked [x, a, y, b, c], K = 10
      gives (1/2 + 2/4 + 3/5) / 3 = 8/15. */
  lemma ApWorkedExample()
    ensures AveragePrecisionAtK({"a", "b", "c"}, ["x", "a", "y", "b", "c"], 10) == Ok(8.0 / 15.0)
  {
    var rels: set<string> := {"a", "b", "c"};
    var s: seq<string> := ["x", "a", "y", "b", "c"];
    assert "x" !in rels && "y" !in rels;
    assert s[..1] == ["x"] && s[..2] == ["x", "a"] && s[..3] == ["x", "a", "y"] && s[..4] == ["x", "a", "y", "b"];
    assert ["x", "a", "y", "b", "c"][..4] == ["x", "a", "y", "b"];
    assert ["x", "a", "y", "b"][..3] == ["x", "a", "y"];
    assert ["x", "a", "y"][..2] == ["x", "a"];
    assert ["x", "a"][..1] == ["x"];
    assert ["x"][..0] == [];
    assert Hits(rels, ["x"]) == 0;
    assert Hits(rels, ["x", "a"]) == 1;
    assert Hits(rels, ["x", "a", "y"]) == 1;
    assert Hits(rels, ["x", "a", "y", "b"]) == 2;
    assert Hits(rels, s) == 3;
    assert PrecisionSum(rels, s) == 1.0 / 2.0 + 2.0 / 4.0 + 3.0 / 5.0;
    assert PyPrefix(s, 10) == s;
  }

  // ---------------------------------------------------------------------
  // P@K and R@K
  // ---------------------------------------------------------------------

  /** `precision_at_k`: 0.0 for `k <= 0`, otherwise the relevant share of
      K slots, which stays within [0, 1] even with fewer than K results. */
  function PrecisionAtK(rels: set<string>, ranked: seq<string>, k: int): (r: real)
    ensures k <= 0 ==> r == 0.0
    ensures 0.0 <= r <= 1.0
  {
    if k <= 0 then 0.0
    else
      var h := Hits(rels, PyPrefix(ranked, k));
      DivAtMostOne(h as real, k as real);
      h as real / k as real
  }

  /** `recall_at_k`: 0.0 without relevant ids, otherwise the share of the
      relevant ids found in `ranked[:k]`. */
  function RecallAtK(rels: set<string>, ranked: seq<string>, k: int): (r: real)
    ensures rels == {} ==> r == 0.0
    ensures r >= 0.0
  {
    if rels == {} then 0.0
    else Hits(rels, PyPrefix(ranked, k)) as real / |rels| as real
  }

  /** Without repeated ids, recall is at most 1. */
  lemma RecallAtMostOne(rels: set<string>, ranked: seq<string>, k: int)
    requires Distinct(ranked)
    ensures RecallAtK(rels, ranked, k) <= 1.0
  {
    if rels != {} {
      var top := PyPrefix(ranked, k);
      DistinctPrefix(ranked, |top|);
      HitsDistinct(rels, top);
      DivAtMostOne(Hits(rels, top) as real, |rels| as real);
    }
  }

  /** P@K and R@K count the same hits: `P * k == R * |rels|`. */
  lemma PrecisionRecallRelation(rels: set<string>, ranked: seq<string>, k: int)
    requires k >= 1 && rels != {}
    ensures PrecisionAtK(rels, ranked, k) * k as real == RecallAtK(rels, ranked, k) * |rels| as real
  {
    var h := Hits(rels, PyPrefix(ranked, k)) as real;
    assert PrecisionAtK(rels, ranked, k) * k as real == h;
    assert RecallAtK(rels, ranked, k) * |rels| as real == h;
  }

  // ---------------------------------------------------------------------
  // Means over a run
  // ---------------------------------------------------------------------

  function Sum(xs: seq<real>): real {
    if xs == [] then 0.0 else Sum(xs[..|xs| - 1]) + xs[|xs| - 1]
  }

  /** `sum(xs) / len(xs) if xs else 0.0`. */
  function Mean(xs: seq<real>): (r: real)
    ensures xs == [] ==> r == 0.0
  {
    if xs == [] then 0.0 else Sum(xs) / |xs| as real
  }

  lemma {:induction false} SumBounds(xs: seq<real>, lo: real, hi: real)
    requires forall i | 0 <= i < |xs| :: lo <= xs[i] <= hi
    ensures |xs| as real * lo <= Sum(xs) <= |xs| as real * hi
  {
    if xs != [] {
      SumBounds(xs[..|xs| - 1], lo, hi);
    }
  }

  /** A mean lies within the bounds of the values it averages. */
  lemma MeanBounds(xs: seq<real>, lo: real, hi: real)
    requires xs != []
    requires forall i | 0 <= i < |xs| :: lo <= xs[i] <= hi
    ensures lo <= Mean(xs) <= hi
  {
    SumBounds(xs, lo, hi);
    var n := |xs| as real;
    assert Sum(xs) / n >= lo by {
      assert Sum(xs) >= n * lo;
    }
    assert Sum(xs) / n <= hi by {
      assert Sum(xs) <= n * hi;
    }
  }

  // ---------------------------------------------------------------------
  // Reading the server's response (after the HTTP call)
  // ---------------------------------------------------------------------

  /** The time string: taken only from a leading `("__time__", t)` pair. */
  function ServerTime(data: seq<Json>): string {
    if data != [] && IsTimeRow(data[0]) then PyStr(data[0].items[1]) else ""
  }

  /** `str(item[0])` of every non-empty list item, in order. */
  function IdsOf(items: seq<Json>): (ids: seq<string>)
    ensures |ids| <= |items|
  {
    if items == [] then []
    else
      var last := items[|items| - 1];
      IdsOf(items[..|items| - 1]) + (if last.JList? && |last.items| >= 1 then [PyStr(last.items[0])] else [])
  }

  /** The parsing part of `fetch_search_results`: the first item only ever
      supplies the time; the ids come from every later item. */
  method ParseSearchResults(data: seq<Json>) returns (serverTime: string, docIds: seq<string>)
    ensures data == [] ==> serverTime == "" && docIds == []
    ensures serverTime == ServerTime(data)
    ensures data != [] ==> docIds == IdsOf(data[1..])
    ensures data != [] ==> |docIds| <= |data| - 1
  {
    if data == [] {
      return "", [];
    }
    serverTime := "";
    docIds := [];
    var first := data[0];
    if first.JList? && |first.items| == 2 && first.items[0] == JStr("__time__") {
      serverTime := PyStr(first.items[1]);
    }
    var rest := data[1..];
    var i := 0;
    while i < |rest|
      invariant 0 <= i <= |rest|
      invariant docIds == IdsOf(rest[..i])
    {
      assert rest[..i + 1][..i] == rest[..i];
      var item := rest[i];
      if item.JList? && |item.items| >= 1 {
        docIds := docIds + [PyStr(item.items[0])];
      }
      i := i + 1;
    }
    assert rest[..i] == rest;
  }

  /** The ids of a list of rows. */
  function RowIds(rows: seq<(string, string)>): seq<string> {
    seq(|rows|, i requires 0 <= i < |rows| => rows[i].0)
  }

  /** Reading back a response the server encoded gives its time string and
      the ids of its rows, in order. */
  lemma {:induction false} ReadsServerResponse(elapsed: string, rows: seq<(string, string)>)
    ensures ServerTime(RowsToJson([("__time__", elapsed)] + rows)) == elapsed
    ensures IdsOf(RowsToJson([("__time__", elapsed)] + rows)[1..]) == RowIds(rows)
  {
    IdsOfRows(rows);
    assert RowsToJson([("__time__", elapsed)] + rows)[1..] == RowsToJson(rows);
  }

  lemma {:induction false} IdsOfRows(rows: seq<(string, string)>)
    ensures IdsOf(RowsToJson(rows)) == RowIds(rows)
  {
    if rows != [] {
      var init := rows[..|rows| - 1];
      IdsOfRows(init);
      assert RowsToJson(rows)[..|rows| - 1] == RowsToJson(init);
    }
  }

  // ---------------------------------------------------------------------
  // A whole run (`main`): the per-query measures and their means
  // ---------------------------------------------------------------------

  /** The measures of a run; only their means are reported. */
  datatype Summary = Summary(mapK: real, meanP: real, meanR: real)

  /** `set(map(str, rel_doc_ids))`. */
  function RelsOf(relDocIds: seq<Json>): set<string> {
    set j | j in relDocIds :: PyStr(j)
  }

  /** `queries[:max_queries]` when `max_queries > 0`, all of them otherwise. */
  function SelectQueries<T>(queries: seq<T>, maxQueries: int): (r: seq<T>)
    ensures maxQueries > 0 ==> |r| == Min(maxQueries, |queries|)
    ensures maxQueries <= 0 ==> r == queries
    ensures r == queries[..|r|]
  {
    if maxQueries > 0 then PyPrefix(queries, maxQueries) else queries
  }

  /** A query's AP@K, when it is defined. */
  function QueryAp(q: (string, seq<Json>), ranked: seq<string>, k: int): Result<real> {
    AveragePrecisionAtK(RelsOf(q.1), ranked, k)
  }

  /** Every query's AP@K is defined. */
  predicate RunDefined(queries: seq<(string, seq<Json>)>, ranked: seq<seq<string>>, k: int)
    requires |ranked| == |queries|
  {
    forall i | 0 <= i < |queries| :: QueryAp(queries[i], ranked[i], k).Ok?
  }

  /** The AP@K of each of the first queries is defined. */
  predicate DefinedUpTo(queries: seq<(string, seq<Json>)>, ranked: seq<seq<string>>, k: int, n: nat)
    requires n <= |queries| && |ranked| == |queries|
  {
    n == 0 || (DefinedUpTo(queries, ranked, k, n - 1) && QueryAp(queries[n - 1], ranked[n - 1], k).Ok?)
  }

  lemma {:induction false} DefinedUpToAt(queries: seq<(string, seq<Json>)>, ranked: seq<seq<string>>, k: int, n: nat, i: int)
    requires n <= |queries| && |ranked| == |queries|
    requires DefinedUpTo(queries, ranked, k, n) && 0 <= i < n
    ensures QueryAp(queries[i], ranked[i], k).Ok?
  {
    if i < n - 1 {
      DefinedUpToAt(queries, ranked, k, n - 1, i);
    }
  }

  /** The per-query AP@K values, 0.0 where undefined. */
  function ApValues(queries: seq<(string, seq<Json>)>, ranked: seq<seq<string>>, k: int): (r: seq<real>)
    requires |ranked| == |queries|
    ensures |r| == |queries|
  {
    if queries == [] then []
    else
      var n := |queries| - 1;
      var a := QueryAp(queries[n], ranked[n], k);
      ApValues(queries[..n], ranked[..n], k) + [if a.Ok? then a.value else 0.0]
  }

  function Precisions(queries: seq<(string, seq<Json>)>, ranked: seq<seq<string>>, k: int): (r: seq<real>)
    requires |ranked| == |queries|
    ensures |r| == |queries|
  {
    if queries == [] then []
    else
      var n := |queries| - 1;
      Precisions(queries[..n], ranked[..n], k) + [PrecisionAtK(RelsOf(queries[n].1), ranked[n], k)]
  }

  function Recalls(queries: seq<(string, seq<Json>)>, ranked: seq<seq<string>>, k: int): (r: seq<real>)
    requires |ranked| == |queries|
    ensures |r| == |queries|
  {
    if queries == [] then []
    else
      var n := |queries| - 1;
      Recalls(queries[..n], ranked[..n], k) + [RecallAtK(RelsOf(queries[n].1), ranked[n], k)]
  }

  /** The loop of `main` over the queries, given what the server returned for
      each (`ranked[i]` for `queries[i]`): an AP@K error ends the run, and
      otherwise the three means are reported. */
  method EvaluateRun(queries: seq<(string, seq<Json>)>, ranked: seq<seq<string>>, k: int)
    returns (r: Result<Summary>)
    requires |ranked| == |queries|
    ensures r.Err? <==> !RunDefined(queries, ranked, k)
    ensures r.Ok? ==> r.value == Summary(Mean(ApValues(queries, ranked, k)),
                                         Mean(Precisions(queries, ranked, k)),
                                         Mean(Recalls(queries, ranked, k)))
  {
    var apList: seq<real> := [];
    var pList: seq<real> := [];
    var rList: seq<real> := [];
    var i := 0;
    while i < |queries|
      invariant 0 <= i <= |queries|
      invariant apList == ApValues(queries[..i], ranked[..i], k)
      invariant pList == Precisions(queries[..i], ranked[..i], k)
      invariant rList == Recalls(queries[..i], ranked[..i], k)
      invariant DefinedUpTo(queries, ranked, k, i)
    {
      var rels := RelsOf(queries[i].1);
      var apk := ApAtK(rels, ranked[i], k);
      if apk.Err? {
        assert QueryAp(queries[i], ranked[i], k).Err?;
        return Err(apk.error);
      }
      assert queries[..i + 1][..i] == queries[..i];
      assert ranked[..i + 1][..i] == ranked[..i];
      apList := apList + [apk.value];
      pList := pList + [PrecisionAtK(rels, ranked[i], k)];
      rList := rList + [RecallAtK(rels, ranked[i], k)];
      i := i + 1;
    }
    assert queries[..i] == queries;
    assert ranked[..i] == ranked;
    forall j | 0 <= j < |queries|
      ensures QueryAp(queries[j], ranked[j], k).Ok?
    {
      DefinedUpToAt(queries, ranked, k, i, j);
    }
    r := Ok(Summary(Mean(apList), Mean(pList), Mean(rList)));
  }

  /** With `k >= 1` and no server list repeating an id, every query's
      AP@K is defined and every per-query value lies in [0, 1]. */
  lemma {:induction false} ValuesBounds(queries: seq<(string, seq<Json>)>, ranked: seq<seq<string>>, k: int)
    requires |ranked| == |queries| && k >= 1
    requires forall i | 0 <= i < |queries| :: Distinct(ranked[i])
    ensures RunDefined(queries, ranked, k)
    ensures forall i | 0 <= i < |queries| :: 0.0 <= ApValues(queries, ranked, k)[i] <= 1.0
    ensures forall i | 0 <= i < |queries| :: 0.0 <= Precisions(queries, ranked, k)[i] <= 1.0
    ensures forall i | 0 <= i < |queries| :: 0.0 <= Recalls(queries, ranked, k)[i] <= 1.0
  {
    if queries != [] {
      var n := |queries| - 1;
      var qs, rs := queries[..n], ranked[..n];
      assert forall i | 0 <= i < n :: qs[i] == queries[i] && rs[i] == ranked[i];
      ValuesBounds(qs, rs, k);
      var rels := RelsOf(queries[n].1);
      ApBounds(rels, ranked[n], k);
      RecallAtMostOne(rels, ranked[n], k);
    }
  }

  /** With `k >= 1` every query's AP@K is defined, and when no server list
      repeats an id all three means lie in [0, 1]; an empty run reports 0.0. */
  lemma RunBounds(queries: seq<(string, seq<Json>)>, ranked: seq<seq<string>>, k: int)
    requires |ranked| == |queries| && k >= 1
    requires forall i | 0 <= i < |queries| :: Distinct(ranked[i])
    ensures RunDefined(queries, ranked, k)
    ensures 0.0 <= Mean(ApValues(queries, ranked, k)) <= 1.0
    ensures 0.0 <= Mean(Precisions(queries, ranked, k)) <= 1.0
    ensures 0.0 <= Mean(Recalls(queries, ranked, k)) <= 1.0
  {
    ValuesBounds(queries, ranked, k);
    if queries != [] {
      MeanBounds(ApValues(queries, ranked, k), 0.0, 1.0);
      MeanBounds(Precisions(queries, ranked, k), 0.0, 1.0);
      MeanBounds(Recalls(queries, ranked, k), 0.0, 1.0);
    }
  }
}
