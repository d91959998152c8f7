/** The query handlers of search_frontend.py: `/search` fuses the three
    field scores and keeps the best 100, `/search_body` ranks the body
    scores, `/search_title` and `/search_anchor` rank by match count. Each
    answers with a list of `(id, title)` rows behind a `__time__` row. */
module Ranking {
  import opened PyBase
  import opened Text
  import opened Scoring

  const WBody: real := 1.0
  const WTitle: real := 2.0
  const WAnchor: real := 1.5

  /** `ranked[:100]` in `/search` and `/search_body`. */
  const ResultCap: nat := 100

  const TimeKey: string := "__time__"

  /** A response row: `(str(doc_id), title)`, or `("__time__", elapsed)`. */
  type Row = (string, string)

  type Scored = (DocId, real)
  type Counted = (DocId, int)

  /** The read-only state the handlers consult: the three indices (any of
      which may be missing) and the optional id-to-title map. */
  datatype Engine = Engine(
    body: Option<FieldIndex>,
    title: Option<FieldIndex>,
    anchor: Option<FieldIndex>,
    id2title: Option<map<DocId, string>>)

  // ---------------------------------------------------------------------
  // Lists of (doc, value) entries
  // ---------------------------------------------------------------------

  function DocsOf<V>(s: seq<(DocId, V)>): set<DocId> {
    set i | 0 <= i < |s| :: s[i].0
  }

  predicate DistinctDocs<V>(s: seq<(DocId, V)>) {
    forall i, j | 0 <= i < j < |s| :: s[i].0 != s[j].0
  }

  /** `s` lists every entry of `m` exactly once: what `m.items()` gives. */
  predicate ListsMap<V(==)>(s: seq<(DocId, V)>, m: map<DocId, V>) {
    && DistinctDocs(s)
    && DocsOf(s) == m.Keys
    && forall i | 0 <= i < |s| :: s[i].0 in m && m[s[i].0] == s[i].1
  }

  lemma DocsOfSnoc<V>(s: seq<(DocId, V)>, x: (DocId, V))
    ensures DocsOf(s + [x]) == DocsOf(s) + {x.0}
  {
    var t := s + [x];
    forall d | d in DocsOf(t)
      ensures d in DocsOf(s) + {x.0}
    {
      var i :| 0 <= i < |t| && t[i].0 == d;
      if i < |s| {
        assert s[i].0 == d;
      }
    }
    forall d | d in DocsOf(s)
      ensures d in DocsOf(t)
    {
      var i :| 0 <= i < |s| && s[i].0 == d;
      assert t[i].0 == d;
    }
    assert t[|s|].0 == x.0;
  }

  lemma {:induction false} DistinctDocsCount<V>(s: seq<(DocId, V)>, x: (DocId, V))
    requires DistinctDocs(s)
    ensures multiset(s)[x] <= 1
  {
    if s != [] {
      var init := s[..|s| - 1];
      assert s == init + [s[|s| - 1]];
      DistinctDocsCount(init, x);
      if s[|s| - 1] == x {
        assert x !in init by {
          forall i | 0 <= i < |init|
            ensures init[i] != x
          {
            assert s[i].0 != s[|s| - 1].0;
          }
        }
      }
    }
  }

  lemma TwoCopies<T>(s: seq<T>, i: nat, j: nat)
    requires i < j < |s|
    ensures s[i] == s[j] ==> multiset(s)[s[i]] >= 2
  {
    assert s == s[..i] + [s[i]] + s[i + 1..j] + [s[j]] + s[j + 1..];
  }

  /** Reordering the entries of a listing of `m` still lists `m`. */
  lemma PermutationListsMap<V>(a: seq<(DocId, V)>, b: seq<(DocId, V)>, m: map<DocId, V>)
    requires ListsMap(a, m) && multiset(a) == multiset(b)
    ensures ListsMap(b, m)
  {
    forall i | 0 <= i < |b|
      ensures b[i].0 in m && m[b[i].0] == b[i].1
    {
      assert b[i] in multiset(b);
      var k :| 0 <= k < |a| && a[k] == b[i];
    }
    forall d | d in m
      ensures d in DocsOf(b)
    {
      var k :| 0 <= k < |a| && a[k].0 == d;
      assert a[k] in multiset(a);
      var i :| 0 <= i < |b| && b[i] == a[k];
    }
    forall i, j | 0 <= i < j < |b|
      ensures b[i].0 != b[j].0
    {
      DistinctDocsCount(a, b[i]);
      TwoCopies(b, i, j);
    }
  }

  /** Two listings of the same map hold the same entries. */
  lemma ListingsSameMultiset<V>(a: seq<(DocId, V)>, b: seq<(DocId, V)>, m: map<DocId, V>)
    requires ListsMap(a, m) && ListsMap(b, m)
    ensures multiset(a) == multiset(b)
  {
    forall x
      ensures multiset(a)[x] == multiset(b)[x]
    {
      DistinctDocsCount(a, x);
      DistinctDocsCount(b, x);
      if x in a {
        var k :| 0 <= k < |a| && a[k] == x;
        assert x.0 in DocsOf(b);
        var i :| 0 <= i < |b| && b[i].0 == x.0;
        assert b[i] == x;
      }
      if x in b {
        var k :| 0 <= k < |b| && b[k] == x;
        assert x.0 in DocsOf(a);
        var i :| 0 <= i < |a| && a[i].0 == x.0;
        assert a[i] == x;
      }
    }
  }

  /** `m.items()`: the entries of a score map, in the map's own order. */
  method ItemsOf<V(==)>(m: map<DocId, V>) returns (s: seq<(DocId, V)>)
    ensures ListsMap(s, m)
  {
    s := [];
    var rest := m.Keys;
    while rest != {}
      invariant rest <= m.Keys
      invariant DistinctDocs(s)
      invariant DocsOf(s) == m.Keys - rest
      invariant forall i | 0 <= i < |s| :: s[i].0 in m && m[s[i].0] == s[i].1
      decreases rest
    {
      ghost var some := Element(rest);
      var d :| d in rest;
      DocsOfSnoc(s, (d, m[d]));
      s := s + [(d, m[d])];
      rest := rest - {d};
    }
  }

  // ---------------------------------------------------------------------
  // Fusion (/search)
  // ---------------------------------------------------------------------

  /** `1.0*body + 2.0*title + 1.5*anchor`, missing entries reading as 0. */
  function FusedScore(b: map<DocId, real>, t: map<DocId, int>, a: map<DocId, int>, d: DocId): real {
    WBody * ScoreAt(b, d) + WTitle * (CountAt(t, d) as real) + WAnchor * (CountAt(a, d) as real)
  }

  /** `set(body_scores) | set(title_scores) | set(anchor_scores)`. */
  function Candidates(b: map<DocId, real>, t: map<DocId, int>, a: map<DocId, int>): set<DocId> {
    b.Keys + t.Keys + a.Keys
  }

  /** The candidates whose fused score is positive, with that score. */
  function PositiveFused(b: map<DocId, real>, t: map<DocId, int>, a: map<DocId, int>): map<DocId, real> {
    map d | d in Candidates(b, t, a) && FusedScore(b, t, a, d) > 0.0 :: FusedScore(b, t, a, d)
  }

  /** Raising a document's body score, title count or anchor count never
      lowers its fused score, and a strict rise in any of them raises it. */
  lemma FusionMonotone(b: map<DocId, real>, t: map<DocId, int>, a: map<DocId, int>,
                       b': map<DocId, real>, t': map<DocId, int>, a': map<DocId, int>, d: DocId)
    requires ScoreAt(b, d) <= ScoreAt(b', d)
    requires CountAt(t, d) <= CountAt(t', d) && CountAt(a, d) <= CountAt(a', d)
    ensures FusedScore(b, t, a, d) <= FusedScore(b', t', a', d)
    ensures ScoreAt(b, d) < ScoreAt(b', d) || CountAt(t, d) < CountAt(t', d) || CountAt(a, d) < CountAt(a', d)
            ==> FusedScore(b, t, a, d) < FusedScore(b', t', a', d)
  {
  }

  /** The loop of `/search` over the candidates: keep each candidate whose
      fused score is positive, with that score. */
  method CollectPositive(b: map<DocId, real>, t: map<DocId, int>, a: map<DocId, int>)
    returns (ranked: seq<Scored>)
    ensures ListsMap(ranked, PositiveFused(b, t, a))
  {
    var candidates := Candidates(b, t, a);
    ranked := [];
    var rest := candidates;
    while rest != {}
      invariant rest <= candidates
      invariant DistinctDocs(ranked)
      invariant forall d :: d in DocsOf(ranked) <==> d in candidates - rest && FusedScore(b, t, a, d) > 0.0
      invariant forall i | 0 <= i < |ranked| :: ranked[i].1 == FusedScore(b, t, a, ranked[i].0)
      decreases rest
    {
      ghost var some := Element(rest);
      var d :| d in rest;
      var s := FusedScore(b, t, a, d);
      if s > 0.0 {
        DocsOfSnoc(ranked, (d, s));
        ranked := ranked + [(d, s)];
      }
      rest := rest - {d};
    }
    assert DocsOf(ranked) == PositiveFused(b, t, a).Keys;
  }

  // ---------------------------------------------------------------------
  // Ordering by score, highest first (`sort(key=score, reverse=True)`)
  // ---------------------------------------------------------------------

  predicate NonIncreasing(s: seq<Scored>) {
    forall i, j | 0 <= i < j < |s| :: s[i].1 >= s[j].1
  }

  function InsertByScore(x: Scored, s: seq<Scored>): (r: seq<Scored>)
    requires NonIncreasing(s)
    ensures NonIncreasing(r)
    ensures multiset(r) == multiset(s) + multiset{x}
    ensures |r| == |s| + 1
    ensures r[0] == x || (s != [] && r[0] == s[0])
  {
    if s == [] || x.1 >= s[0].1 then [x] + s
    else
      var rest := InsertByScore(x, s[1..]);
      assert s == [s[0]] + s[1..];
      [s[0]] + rest
  }

  /** A stable sort by score, highest first. */
  function SortByScore(s: seq<Scored>): (r: seq<Scored>)
    ensures NonIncreasing(r)
    ensures multiset(r) == multiset(s)
  {
    if s == [] then []
    else
      assert s == [s[0]] + s[1..];
      InsertByScore(s[0], SortByScore(s[1..]))
  }

  /** `r` is the best `cap` entries of `m`, highest first: entries of `m`,
      each document once, non-increasing, at most `cap` of them, and any
      entry left out scores no more than the last one kept. */
  predicate IsTopK(r: seq<Scored>, m: map<DocId, real>, cap: nat) {
    && |r| <= cap
    && DistinctDocs(r)
    && NonIncreasing(r)
    && (forall i | 0 <= i < |r| :: r[i].0 in m && m[r[i].0] == r[i].1)
    && (forall d | d in m && d !in DocsOf(r) :: |r| == cap && (cap > 0 ==> m[d] <= r[cap - 1].1))
  }

  /** Cutting a sorted listing of `m` after `cap` entries keeps the best `cap`. */
  lemma TopOfSorted(s: seq<Scored>, m: map<DocId, real>, cap: nat)
    requires ListsMap(s, m) && NonIncreasing(s)
    ensures IsTopK(s[..Min(cap, |s|)], m, cap)
  {
    var r := s[..Min(cap, |s|)];
    assert forall i | 0 <= i < |r| :: r[i] == s[i];
    assert forall k | 0 <= k < |r| :: r[k].0 in DocsOf(r);
    forall d | d in m && d !in DocsOf(r)
      ensures |r| == cap && (cap > 0 ==> m[d] <= r[cap - 1].1)
    {
      var j :| 0 <= j < |s| && s[j].0 == d;
      assert |r| <= j;
      assert m[d] == s[j].1;
    }
  }

  /** Sorting the listing of `m` by score and cutting it after `cap`. */
  lemma SortedTop(s: seq<Scored>, m: map<DocId, real>, cap: nat)
    requires ListsMap(s, m)
    ensures IsTopK(SortByScore(s)[..Min(cap, |SortByScore(s)|)], m, cap)
  {
    PermutationListsMap(s, SortByScore(s), m);
    TopOfSorted(SortByScore(s), m, cap);
  }

  // ---------------------------------------------------------------------
  // Ordering by count, then id (`sorted(key=lambda x: (-x[1], x[0]))`)
  // ---------------------------------------------------------------------

  /** `x` sorts strictly before `y`: a higher count, or the same count and a lower id. */
  predicate Precedes(x: Counted, y: Counted) {
    x.1 > y.1 || (x.1 == y.1 && x.0 < y.0)
  }

  predicate SortedByCount(s: seq<Counted>) {
    forall i, j | 0 <= i < j < |s| :: !Precedes(s[j], s[i])
  }

  /** The key is a strict total order: two entries neither of which sorts
      before the other are the same entry. */
  lemma PrecedesTotal(x: Counted, y: Counted)
    ensures x == y || Precedes(x, y) || Precedes(y, x)
    ensures !(Precedes(x, y) && Precedes(y, x))
  {
  }

  function InsertByCount(x: Counted, s: seq<Counted>): (r: seq<Counted>)
    requires SortedByCount(s)
    ensures SortedByCount(r)
    ensures multiset(r) == multiset(s) + multiset{x}
    ensures |r| == |s| + 1
    ensures r[0] == x || (s != [] && r[0] == s[0])
  {
    if s == [] || !Precedes(s[0], x) then [x] + s
    else
      var rest := InsertByCount(x, s[1..]);
      assert s == [s[0]] + s[1..];
      [s[0]] + rest
  }

  function SortByCount(s: seq<Counted>): (r: seq<Counted>)
    ensures SortedByCount(r)
    ensures multiset(r) == multiset(s)
  {
    if s == [] then []
    else
      assert s == [s[0]] + s[1..];
      InsertByCount(s[0], SortByCount(s[1..]))
  }

  lemma MultisetCancel<T>(x: T, p: multiset<T>, q: multiset<T>)
    requires multiset{x} + p == multiset{x} + q
    ensures p == q
  {
    forall y
      ensures p[y] == q[y]
    {
      assert (multiset{x} + p)[y] == (multiset{x} + q)[y];
    }
  }

  /** Only one arrangement of a collection of entries is sorted by the key. */
  lemma {:induction false} SortedByCountUnique(a: seq<Counted>, b: seq<Counted>)
    requires SortedByCount(a) && SortedByCount(b) && multiset(a) == multiset(b)
    ensures a == b
  {
    if a != [] || b != [] {
      assert |a| == |multiset(a)| == |multiset(b)| == |b|;
      assert a[0] in multiset(b) && b[0] in multiset(a);
      var j :| 0 <= j < |b| && b[j] == a[0];
      var i :| 0 <= i < |a| && a[i] == b[0];
      PrecedesTotal(a[0], b[0]);
      assert a[0] == b[0];
      assert a == [a[0]] + a[1..] && b == [b[0]] + b[1..];
      assert multiset(a) == multiset{a[0]} + multiset(a[1..]);
      assert multiset(b) == multiset{b[0]} + multiset(b[1..]);
      MultisetCancel(a[0], multiset(a[1..]), multiset(b[1..]));
      assert SortedByCount(a[1..]) && SortedByCount(b[1..]);
      SortedByCountUnique(a[1..], b[1..]);
    }
  }

  /** `r` lists every scored document exactly once, by count descending and
      then id ascending, with no cap. */
  predicate IsCountRanking(r: seq<Counted>, m: map<DocId, int>) {
    ListsMap(r, m) && SortedByCount(r)
  }

  /** The title/anchor ranking is determined by the scores alone: it does
      not depend on the order the score map yields its items. */
  lemma CountRankingDeterministic(r1: seq<Counted>, r2: seq<Counted>, m: map<DocId, int>)
    requires IsCountRanking(r1, m) && IsCountRanking(r2, m)
    ensures r1 == r2
  {
    ListingsSameMultiset(r1, r2, m);
    SortedByCountUnique(r1, r2);
  }

  // ---------------------------------------------------------------------
  // Response rows
  // ---------------------------------------------------------------------

  /** Every title the map holds has a non-blank text. */
  predicate TitlesNonBlank(id2title: Option<map<DocId, string>>) {
    id2title.Some? ==> forall d | d in id2title.value :: !IsBlank(id2title.value[d])
  }

  /** `doc_title(doc_id)`: the stored title, falling back to `str(doc_id)`. */
  function DocTitle(id2title: Option<map<DocId, string>>, d: DocId): (r: string)
    ensures id2title.Some? && d in id2title.value ==> r == id2title.value[d]
    ensures !(id2title.Some? && d in id2title.value) ==> r == IntToString(d)
    ensures TitlesNonBlank(id2title) ==> !IsBlank(r)
  {
    match id2title
    case Some(m) => if d in m then m[d] else IntToString(d)
    case None => IntToString(d)
  }

  function DocRow(e: Engine, d: DocId): Row {
    (IntToString(d), DocTitle(e.id2title, d))
  }

  /** `[(str(doc_id), doc_title(doc_id)) for doc_id, _ in ranked]`. */
  function DocRows<V>(e: Engine, ranked: seq<(DocId, V)>): (rows: seq<Row>)
    ensures |rows| == |ranked|
    ensures forall i | 0 <= i < |ranked| :: rows[i] == DocRow(e, ranked[i].0)
  {
    seq(|ranked|, i requires 0 <= i < |ranked| => DocRow(e, ranked[i].0))
  }

  /** `[("__time__", elapsed)] + rows`. */
  function TimedResponse(elapsed: string, rows: seq<Row>): seq<Row> {
    [(TimeKey, elapsed)] + rows
  }

  // ---------------------------------------------------------------------
  // Handlers; `tokens` is `tokenize(query)`, `elapsed` is `fmt_time(total)`
  // ---------------------------------------------------------------------

  /** The scores `/search` ranks: the positive fused scores. */
  ghost function SearchScores(e: Engine, tokens: seq<Term>, w: Weight): map<DocId, real> {
    PositiveFused(BodyScores(e.body, tokens, w), MatchCounts(e.title, tokens), MatchCounts(e.anchor, tokens))
  }

  /** `/search`: an empty query gives `[]`; otherwise the time row and the
      best 100 documents by fused score, highest first. */
  method Search(e: Engine, query: string, tokens: seq<Term>, w: Weight, elapsed: string)
    returns (res: seq<Row>, ghost top: seq<Scored>)
    ensures query == "" ==> res == []
    ensures query != "" ==> res == TimedResponse(elapsed, DocRows(e, top))
    ensures query != "" ==> IsTopK(top, SearchScores(e, tokens, w), ResultCap)
  {
    top := [];
    if query == "" {
      res := [];
      return;
    }
    var bodyScores := TfidfBodyScores(e.body, tokens, w);
    var titleScores := BinaryMatchCount(e.title, tokens);
    var anchorScores := BinaryMatchCount(e.anchor, tokens);
    var ranked := CollectPositive(bodyScores, titleScores, anchorScores);
    SortedTop(ranked, PositiveFused(bodyScores, titleScores, anchorScores), ResultCap);
    ranked := SortByScore(ranked);
    var best := ranked[..Min(ResultCap, |ranked|)];
    top := best;
    res := TimedResponse(elapsed, DocRows(e, best));
  }

  /** `/search_body`: the best 100 body scores, highest first; unlike
      `/search`, scores that are not positive are kept. */
  method SearchBody(e: Engine, query: string, tokens: seq<Term>, w: Weight, elapsed: string)
    returns (res: seq<Row>, ghost top: seq<Scored>)
    ensures query == "" ==> res == []
    ensures query != "" ==> res == TimedResponse(elapsed, DocRows(e, top))
    ensures query != "" ==> IsTopK(top, BodyScores(e.body, tokens, w), ResultCap)
  {
    top := [];
    if query == "" {
      res := [];
      return;
    }
    var scores := TfidfBodyScores(e.body, tokens, w);
    var items := ItemsOf(scores);
    SortedTop(items, scores, ResultCap);
    var ranked := SortByScore(items);
    var best := ranked[..Min(ResultCap, |ranked|)];
    top := best;
    res := TimedResponse(elapsed, DocRows(e, best));
  }

  /** The shared body of `/search_title` and `/search_anchor` over one field. */
  method FieldSearch(e: Engine, field: Option<FieldIndex>, query: string, tokens: seq<Term>, elapsed: string)
    returns (res: seq<Row>, ghost ranked: seq<Counted>)
    ensures query == "" ==> res == []
    ensures query != "" ==> res == TimedResponse(elapsed, DocRows(e, ranked))
    ensures query != "" ==> IsCountRanking(ranked, MatchCounts(field, tokens))
  {
    ranked := [];
    if query == "" {
      res := [];
      return;
    }
    var scores := BinaryMatchCount(field, tokens);
    var items := ItemsOf(scores);
    var sorted := SortByCount(items);
    PermutationListsMap(items, sorted, scores);
    ranked := sorted;
    res := TimedResponse(elapsed, DocRows(e, sorted));
  }

  /** `/search_title`: every document matching a query term in its title,
      by match count and then id. */
  method SearchTitle(e: Engine, query: string, tokens: seq<Term>, elapsed: string)
    returns (res: seq<Row>, ghost ranked: seq<Counted>)
    ensures query == "" ==> res == []
    ensures query != "" ==> res == TimedResponse(elapsed, DocRows(e, ranked))
    ensures query != "" ==> IsCountRanking(ranked, MatchCounts(e.title, tokens))
  {
    res, ranked := FieldSearch(e, e.title, query, tokens, elapsed);
  }

  /** `/search_anchor`: the same over the anchor-text field. */
  method SearchAnchor(e: Engine, query: string, tokens: seq<Term>, elapsed: string)
    returns (res: seq<Row>, ghost ranked: seq<Counted>)
    ensures query == "" ==> res == []
    ensures query != "" ==> res == TimedResponse(elapsed, DocRows(e, ranked))
    ensures query != "" ==> IsCountRanking(ranked, MatchCounts(e.anchor, tokens))
  {
    res, ranked := FieldSearch(e, e.anchor, query, tokens, elapsed);
  }

  /** Every `/search` result is a candidate of some field, has a positive
      fused score, and the results come highest first, at most 100. */
  lemma SearchResultsSound(e: Engine, tokens: seq<Term>, w: Weight, top: seq<Scored>)
    requires IsTopK(top, SearchScores(e, tokens, w), ResultCap)
    ensures |top| <= 100 && NonIncreasing(top)
    ensures forall i | 0 <= i < |top| ::
      && top[i].0 in Candidates(BodyScores(e.body, tokens, w), MatchCounts(e.title, tokens), MatchCounts(e.anchor, tokens))
      && top[i].1 == FusedScore(BodyScores(e.body, tokens, w), MatchCounts(e.title, tokens), MatchCounts(e.anchor, tokens), top[i].0)
      && top[i].1 > 0.0
  {
  }
}
