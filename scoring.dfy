/** Per-field scoring of search_frontend.py: the distinct-term match count
    used for the title and anchor fields, and the TF-IDF accumulation used
    for the body field. An index is given as read-only data: its document
    frequencies and its posting lists. */
module Scoring {
  import opened PyBase

  type DocId = int
  type Term = string

  /** A posting: (document id, term frequency in that document). */
  type Posting = (DocId, int)

  /** One field's inverted index. */
  datatype FieldIndex = FieldIndex(df: map<Term, int>, postings: map<Term, seq<Posting>>)

  /** `read_posting_list(index, term)`; a term without a stored list reads as empty. */
  function PostingList(ix: FieldIndex, t: Term): seq<Posting> {
    if t in ix.postings then ix.postings[t] else []
  }

  /** No posting list names the same document twice. */
  predicate PostingsDistinct(ix: FieldIndex) {
    forall t, i, j | t in ix.postings && 0 <= i < j < |ix.postings[t]| ::
      ix.postings[t][i].0 != ix.postings[t][j].0
  }

  /** `set(query_tokens)`. */
  function TokenSet(tokens: seq<Term>): set<Term> {
    set t | t in tokens
  }

  predicate HasDoc(pl: seq<Posting>, d: DocId) {
    exists i | 0 <= i < |pl| :: pl[i].0 == d
  }

  /** The documents a posting list names. */
  function PostedDocs(pl: seq<Posting>): set<DocId> {
    set p | p in pl :: p.0
  }

  /** How many entries of `pl` name document `d`. */
  function Occurrences(pl: seq<Posting>, d: DocId): nat {
    if pl == [] then 0
    else Occurrences(pl[..|pl| - 1], d) + (if pl[|pl| - 1].0 == d then 1 else 0)
  }

  lemma {:induction false} OccurrencesPositive(pl: seq<Posting>, d: DocId)
    ensures Occurrences(pl, d) > 0 <==> HasDoc(pl, d)
  {
    if pl != [] {
      var init := pl[..|pl| - 1];
      OccurrencesPositive(init, d);
      if HasDoc(pl, d) && pl[|pl| - 1].0 != d {
        var i :| 0 <= i < |pl| && pl[i].0 == d;
        assert init[i].0 == d;
      }
      if HasDoc(init, d) {
        var i :| 0 <= i < |init| && init[i].0 == d;
        assert pl[i].0 == d;
      }
    }
  }

  lemma {:induction false} OccurrencesAtMostOne(pl: seq<Posting>, d: DocId)
    requires forall i, j | 0 <= i < j < |pl| :: pl[i].0 != pl[j].0
    ensures Occurrences(pl, d) <= 1
  {
    if pl != [] {
      var init := pl[..|pl| - 1];
      OccurrencesAtMostOne(init, d);
      OccurrencesPositive(init, d);
      if pl[|pl| - 1].0 == d {
        forall i | 0 <= i < |init|
          ensures init[i].0 != d
        {
          assert pl[i].0 != pl[|pl| - 1].0;
        }
      }
    }
  }

  // ---------------------------------------------------------------------
  // binary_match_count (title and anchor fields)
  // ---------------------------------------------------------------------

  /** What the term `t` adds to document `d`'s count: one per posting, and
      only when `t` is a key of the field's document frequencies. */
  function Contribution(ix: FieldIndex, t: Term, d: DocId): nat {
    if t in ix.df then Occurrences(PostingList(ix, t), d) else 0
  }

  /** Document `d`'s count after every term of `terms` was processed, in
      whatever order a Python set yields them. */
  ghost function CountOver(ix: FieldIndex, terms: set<Term>, d: DocId): nat
    decreases terms
  {
    if terms == {} then 0
    else
      var t := Element(terms);
      Contribution(ix, t, d) + CountOver(ix, terms - {t}, d)
  }

  /** The count does not depend on the order the terms are taken in. */
  lemma {:induction false} CountOverRemove(ix: FieldIndex, terms: set<Term>, t: Term, d: DocId)
    requires t in terms
    ensures CountOver(ix, terms, d) == Contribution(ix, t, d) + CountOver(ix, terms - {t}, d)
    decreases terms
  {
    var u := Element(terms);
    if u != t {
      CountOverRemove(ix, terms - {u}, t, d);
      CountOverRemove(ix, terms - {t}, u, d);
      assert terms - {u} - {t} == terms - {t} - {u};
    }
  }

  /** The documents named by a posting list of a term of `terms` that is a key of `df`. */
  function MatchedDocs(ix: FieldIndex, terms: set<Term>): set<DocId> {
    set t, p | t in terms && t in ix.df && p in PostingList(ix, t) :: p.0
  }

  lemma {:induction false} CountOverPositive(ix: FieldIndex, terms: set<Term>, d: DocId)
    ensures CountOver(ix, terms, d) > 0 <==> d in MatchedDocs(ix, terms)
    decreases terms
  {
    if terms != {} {
      var t := Element(terms);
      var pl := PostingList(ix, t);
      CountOverPositive(ix, terms - {t}, d);
      OccurrencesPositive(pl, d);
      if d in MatchedDocs(ix, terms) {
        var u, p :| u in terms && u in ix.df && p in PostingList(ix, u) && p.0 == d;
        if u == t {
          var i :| 0 <= i < |pl| && pl[i] == p;
          assert pl[i].0 == d;
        } else {
          assert d in MatchedDocs(ix, terms - {t});
        }
      }
      if t in ix.df && HasDoc(pl, d) {
        var i :| 0 <= i < |pl| && pl[i].0 == d;
        assert pl[i] in pl;
        assert d in MatchedDocs(ix, terms);
      }
      if d in MatchedDocs(ix, terms - {t}) {
        var u, p :| u in terms - {t} && u in ix.df && p in PostingList(ix, u) && p.0 == d;
        assert d in MatchedDocs(ix, terms);
      }
    }
  }

  /** The terms of `terms` that count for document `d`. */
  function MatchingTerms(ix: FieldIndex, terms: set<Term>, d: DocId): set<Term> {
    set t | t in terms && t in ix.df && HasDoc(PostingList(ix, t), d)
  }

  lemma {:induction false} CountOverDistinct(ix: FieldIndex, terms: set<Term>, d: DocId)
    requires PostingsDistinct(ix)
    ensures CountOver(ix, terms, d) == |MatchingTerms(ix, terms, d)|
    decreases terms
  {
    if terms == {} {
      assert MatchingTerms(ix, terms, d) == {};
    } else {
      var t := Element(terms);
      var pl := PostingList(ix, t);
      CountOverDistinct(ix, terms - {t}, d);
      OccurrencesPositive(pl, d);
      OccurrencesAtMostOne(pl, d);
      if t in ix.df && HasDoc(pl, d) {
        assert MatchingTerms(ix, terms, d) == MatchingTerms(ix, terms - {t}, d) + {t};
      } else {
        assert MatchingTerms(ix, terms, d) == MatchingTerms(ix, terms - {t}, d);
      }
    }
  }

  /** What `binary_match_count(index, tokens)` returns: no entry for a missing
      index or an empty query; otherwise an entry for every document matched
      by some term, holding that document's count. */
  ghost function MatchCounts(ix: Option<FieldIndex>, tokens: seq<Term>): map<DocId, int> {
    if ix.None? || tokens == [] then map[]
    else
      var terms := TokenSet(tokens);
      map d | d in MatchedDocs(ix.value, terms) :: CountOver(ix.value, terms, d)
  }

  /** A `defaultdict(int)` read: a missing document counts 0. */
  function CountAt(m: map<DocId, int>, d: DocId): int {
    if d in m then m[d] else 0
  }

  /** `binary_match_count`: for each distinct query term that is a key of the
      field's `df`, add one to every document of its posting list. */
  method BinaryMatchCount(ix: Option<FieldIndex>, tokens: seq<Term>) returns (scores: map<DocId, int>)
    ensures ix.None? || tokens == [] ==> scores == map[]
    ensures scores == MatchCounts(ix, tokens)
  {
    scores := map[];
    if ix.None? || tokens == [] {
      return;
    }
    var index := ix.value;
    var remaining := TokenSet(tokens);
    ghost var done: set<Term> := {};
    while remaining != {}
      invariant remaining !! done && remaining + done == TokenSet(tokens)
      invariant forall d :: CountAt(scores, d) == CountOver(index, done, d)
      invariant forall d | d in scores :: scores[d] >= 1
      decreases remaining
    {
      ghost var some := Element(remaining);
      var t :| t in remaining;
      if t in index.df {
        var pl := PostingList(index, t);
        var j := 0;
        while j < |pl|
          invariant 0 <= j <= |pl|
          invariant forall d :: CountAt(scores, d) == CountOver(index, done, d) + Occurrences(pl[..j], d)
          invariant forall d | d in scores :: scores[d] >= 1
        {
          var doc := pl[j].0;
          assert pl[..j + 1][..j] == pl[..j];
          scores := scores[doc := CountAt(scores, doc) + 1];
          j := j + 1;
        }
        assert pl[..j] == pl;
      }
      forall d
        ensures CountAt(scores, d) == CountOver(index, done + {t}, d)
      {
        CountOverRemove(index, done + {t}, t, d);
        assert done + {t} - {t} == done;
      }
      done := done + {t};
      remaining := remaining - {t};
    }
    forall d
      ensures d in scores <==> d in MatchedDocs(index, TokenSet(tokens))
    {
      CountOverPositive(index, TokenSet(tokens), d);
    }
    assert scores.Keys == MatchedDocs(index, TokenSet(tokens));
  }

  /** A document has a count exactly when some query term that is a key of
      `df` has it in its posting list. */
  lemma MatchCountsKeys(ix: Option<FieldIndex>, tokens: seq<Term>, d: DocId)
    ensures d in MatchCounts(ix, tokens) <==>
      ix.Some? && exists t | t in tokens :: t in ix.value.df && HasDoc(PostingList(ix.value, t), d)
  {
    if ix.Some? && tokens != [] {
      var index := ix.value;
      if d in MatchCounts(ix, tokens) {
        var t, p :| t in TokenSet(tokens) && t in index.df && p in PostingList(index, t) && p.0 == d;
        var i :| 0 <= i < |PostingList(index, t)| && PostingList(index, t)[i] == p;
        assert HasDoc(PostingList(index, t), d);
      }
      if exists t | t in tokens :: t in index.df && HasDoc(PostingList(index, t), d) {
        var t :| t in tokens && t in index.df && HasDoc(PostingList(index, t), d);
        var i :| 0 <= i < |PostingList(index, t)| && PostingList(index, t)[i].0 == d;
        assert PostingList(index, t)[i] in PostingList(index, t);
        assert d in MatchedDocs(index, TokenSet(tokens));
      }
    }
  }

  /** With duplicate-free posting lists, a document's count is the number of
      distinct query terms (keys of `df`) whose posting list holds it. */
  lemma MatchCountIsDistinctTerms(ix: FieldIndex, tokens: seq<Term>, d: DocId)
    requires PostingsDistinct(ix)
    requires d in MatchCounts(Some(ix), tokens)
    ensures MatchCounts(Some(ix), tokens)[d] == |MatchingTerms(ix, TokenSet(tokens), d)|
  {
    CountOverDistinct(ix, TokenSet(tokens), d);
  }

  /** Repeating a query token changes no count. */
  lemma RepeatedTokenIgnored(ix: Option<FieldIndex>, a: seq<Term>, b: seq<Term>, t: Term)
    requires t in a + b
    ensures MatchCounts(ix, a + [t] + b) == MatchCounts(ix, a + b)
  {
    assert TokenSet(a + [t] + b) == TokenSet(a + b) by {
      forall u
        ensures u in a + [t] + b <==> u in a + b
      {
        assert u in a + [t] + b <==> u in a || u == t || u in b;
        assert u in a + b <==> u in a || u in b;
      }
    }
  }

  /** The title scenario: a document whose title holds "obama" (three times)
      but not "president" scores 1 for the query {obama, president}. */
  lemma TitleScenario(doc: DocId, other: DocId)
    requires doc != other
    ensures
      var ix := FieldIndex(map["obama" := 1, "president" := 1],
                           map["obama" := [(doc, 3)], "president" := [(other, 1)]]);
      var counts := MatchCounts(Some(ix), ["obama", "president"]);
      doc in counts && counts[doc] == 1
  {
    var ix := FieldIndex(map["obama" := 1, "president" := 1],
                         map["obama" := [(doc, 3)], "president" := [(other, 1)]]);
    var tokens := ["obama", "president"];
    assert PostingList(ix, "obama")[0].0 == doc;
    assert HasDoc(PostingList(ix, "obama"), doc);
    assert !HasDoc(PostingList(ix, "president"), doc);
    assert TokenSet(tokens) == {"obama", "president"};
    assert MatchingTerms(ix, TokenSet(tokens), doc) == {"obama"};
    MatchCountsKeys(Some(ix), tokens, doc);
    MatchCountIsDistinctTerms(ix, tokens, doc);
  }

  // ---------------------------------------------------------------------
  // tfidf_body_scores (body field)
  // ---------------------------------------------------------------------

  /** The product `wq * wd` for one posting, as a function of the term's
      document frequency, its count in the query and its frequency in the
      document; the logarithms behind it are not modelled. */
  type Weight = (int, int, int) -> real

  /** `df = body_index.df.get(term)` passes `if not df`: present and non-zero. */
  predicate DfActive(ix: FieldIndex, t: Term) {
    t in ix.df && ix.df[t] != 0
  }

  /** The keys of `Counter(tokens)`, in the order Python keeps them (first occurrence). */
  function DistinctTerms(tokens: seq<Term>): (r: seq<Term>)
    ensures Distinct(r)
    ensures forall t :: t in r <==> t in tokens
  {
    if tokens == [] then []
    else
      var init := DistinctTerms(tokens[..|tokens| - 1]);
      var t := tokens[|tokens| - 1];
      assert forall u :: u in tokens <==> u in tokens[..|tokens| - 1] || u == t;
      if t in init then init else init + [t]
  }

  /** `Counter(tokens)[t]`. */
  function QueryCount(tokens: seq<Term>, t: Term): nat {
    multiset(tokens)[t]
  }

  /** The sum of the weights of the postings of `pl` that name `d`. */
  function PostingScore(pl: seq<Posting>, df: int, qcnt: int, w: Weight, d: DocId): real {
    if pl == [] then 0.0
    else
      var p := pl[|pl| - 1];
      PostingScore(pl[..|pl| - 1], df, qcnt, w, d) + (if p.0 == d then w(df, qcnt, p.1) else 0.0)
  }

  /** What one query term adds to a document's body score. */
  function TermScore(ix: FieldIndex, tokens: seq<Term>, t: Term, w: Weight, d: DocId): real {
    if DfActive(ix, t) then PostingScore(PostingList(ix, t), ix.df[t], QueryCount(tokens, t), w, d)
    else 0.0
  }

  /** A document's body score after the terms of `terms` were processed in order. */
  function BodyScoreOver(ix: FieldIndex, terms: seq<Term>, tokens: seq<Term>, w: Weight, d: DocId): real {
    if terms == [] then 0.0
    else BodyScoreOver(ix, terms[..|terms| - 1], tokens, w, d) + TermScore(ix, tokens, terms[|terms| - 1], w, d)
  }

  /** The documents named by the posting list of an active term of `terms`. */
  function BodyDocs(ix: FieldIndex, terms: seq<Term>): set<DocId> {
    set t, p | t in terms && DfActive(ix, t) && p in PostingList(ix, t) :: p.0
  }

  /** What `tfidf_body_scores(tokens)` returns. */
  function BodyScores(ix: Option<FieldIndex>, tokens: seq<Term>, w: Weight): map<DocId, real> {
    if ix.None? || tokens == [] then map[]
    else
      var terms := DistinctTerms(tokens);
      map d | d in BodyDocs(ix.value, terms) :: BodyScoreOver(ix.value, terms, tokens, w, d)
  }

  /** A `defaultdict(float)` read: a missing document scores 0.0. */
  function ScoreAt(m: map<DocId, real>, d: DocId): real {
    if d in m then m[d] else 0.0
  }

  lemma BodyDocsSnoc(ix: FieldIndex, terms: seq<Term>, t: Term)
    ensures BodyDocs(ix, terms + [t]) ==
      BodyDocs(ix, terms) + (if DfActive(ix, t) then PostedDocs(PostingList(ix, t)) else {})
  {
    assert forall u :: u in terms + [t] <==> u in terms || u == t;
  }

  lemma PostedDocsSnoc(pl: seq<Posting>, j: nat)
    requires j < |pl|
    ensures PostedDocs(pl[..j + 1]) == PostedDocs(pl[..j]) + {pl[j].0}
  {
    assert pl[..j + 1] == pl[..j] + [pl[j]];
    assert forall p :: p in pl[..j + 1] <==> p in pl[..j] || p == pl[j];
  }

  /** The inner loop of `tfidf_body_scores`: `scores[doc_id] += wq * wd` for
      every posting of one term. */
  method AddPostings(scores0: map<DocId, real>, pl: seq<Posting>, df: int, qcnt: int, w: Weight)
    returns (scores: map<DocId, real>)
    ensures scores.Keys == scores0.Keys + PostedDocs(pl)
    ensures forall d :: ScoreAt(scores, d) == ScoreAt(scores0, d) + PostingScore(pl, df, qcnt, w, d)
  {
    scores := scores0;
    var j := 0;
    while j < |pl|
      invariant 0 <= j <= |pl|
      invariant scores.Keys == scores0.Keys + PostedDocs(pl[..j])
      invariant forall d :: ScoreAt(scores, d) == ScoreAt(scores0, d) + PostingScore(pl[..j], df, qcnt, w, d)
    {
      var (doc, tf) := pl[j];
      assert pl[..j + 1][..j] == pl[..j];
      PostedDocsSnoc(pl, j);
      scores := scores[doc := ScoreAt(scores, doc) + w(df, qcnt, tf)];
      j := j + 1;
    }
    assert pl[..j] == pl;
  }

  /** `tfidf_body_scores`: for each distinct query term with a present,
      non-zero `df`, add the weight of every posting to its document. */
  method TfidfBodyScores(ix: Option<FieldIndex>, tokens: seq<Term>, w: Weight) returns (scores: map<DocId, real>)
    ensures ix.None? || tokens == [] ==> scores == map[]
    ensures scores == BodyScores(ix, tokens, w)
  {
    scores := map[];
    if ix.None? || tokens == [] {
      return;
    }
    var index := ix.value;
    var terms := DistinctTerms(tokens);
    var i := 0;
    while i < |terms|
      invariant 0 <= i <= |terms|
      invariant scores.Keys == BodyDocs(index, terms[..i])
      invariant forall d :: ScoreAt(scores, d) == BodyScoreOver(index, terms[..i], tokens, w, d)
    {
      var t := terms[i];
      var df := if t in index.df then index.df[t] else 0;
      assert terms[..i + 1] == terms[..i] + [t];
      BodyDocsSnoc(index, terms[..i], t);
      if df != 0 {
        var qcnt := QueryCount(tokens, t);
        var pl := PostingList(index, t);
        scores := AddPostings(scores, pl, df, qcnt, w);
      }
      i := i + 1;
    }
    assert terms[..i] == terms;
  }

  /** A document has a body score exactly when some query term with a
      present, non-zero `df` has it in its posting list. */
  lemma BodyScoresKeys(ix: Option<FieldIndex>, tokens: seq<Term>, w: Weight, d: DocId)
    ensures d in BodyScores(ix, tokens, w) <==>
      ix.Some? && exists t | t in tokens :: DfActive(ix.value, t) && HasDoc(PostingList(ix.value, t), d)
  {
    if ix.Some? && tokens != [] {
      var index := ix.value;
      var terms := DistinctTerms(tokens);
      if d in BodyScores(ix, tokens, w) {
        var t, p :| t in terms && DfActive(index, t) && p in PostingList(index, t) && p.0 == d;
        var i :| 0 <= i < |PostingList(index, t)| && PostingList(index, t)[i] == p;
        assert HasDoc(PostingList(index, t), d);
      }
      if exists t | t in tokens :: DfActive(index, t) && HasDoc(PostingList(index, t), d) {
        var t :| t in tokens && DfActive(index, t) && HasDoc(PostingList(index, t), d);
        var i :| 0 <= i < |PostingList(index, t)| && PostingList(index, t)[i].0 == d;
        assert PostingList(index, t)[i] in PostingList(index, t);
        assert t in terms;
        assert d in BodyDocs(index, terms);
      }
    }
  }

  lemma {:induction false} BodyScoreOverCounts(ix: FieldIndex, terms: seq<Term>, a: seq<Term>, b: seq<Term>, w: Weight, d: DocId)
    requires forall u | u in terms && DfActive(ix, u) :: QueryCount(a, u) == QueryCount(b, u)
    ensures BodyScoreOver(ix, terms, a, w, d) == BodyScoreOver(ix, terms, b, w, d)
  {
    if terms != [] {
      var init := terms[..|terms| - 1];
      assert forall u | u in init :: u in terms;
      BodyScoreOverCounts(ix, init, a, b, w, d);
    }
  }

  lemma DistinctTermsSnoc(tokens: seq<Term>, t: Term)
    ensures DistinctTerms(tokens + [t]) ==
      if t in tokens then DistinctTerms(tokens) else DistinctTerms(tokens) + [t]
  {
    assert (tokens + [t])[..|tokens|] == tokens;
  }

  /** The terms of `terms` that pass the `df` test, in order. */
  function ActiveTerms(ix: FieldIndex, terms: seq<Term>): (r: seq<Term>)
    ensures forall u :: u in r <==> u in terms && DfActive(ix, u)
  {
    if terms == [] then []
    else
      var u := terms[|terms| - 1];
      assert forall v :: v in terms <==> v in terms[..|terms| - 1] || v == u;
      ActiveTerms(ix, terms[..|terms| - 1]) + (if DfActive(ix, u) then [u] else [])
  }

  lemma ActiveTermsSnoc(ix: FieldIndex, terms: seq<Term>, u: Term)
    ensures ActiveTerms(ix, terms + [u]) == ActiveTerms(ix, terms) + (if DfActive(ix, u) then [u] else [])
  {
    assert (terms + [u])[..|terms|] == terms;
  }

  /** Skipped terms add nothing to a body score. */
  lemma {:induction false} BodyScoreOverActive(ix: FieldIndex, terms: seq<Term>, tokens: seq<Term>, w: Weight, d: DocId)
    ensures BodyScoreOver(ix, terms, tokens, w, d) == BodyScoreOver(ix, ActiveTerms(ix, terms), tokens, w, d)
  {
    if terms != [] {
      var init := terms[..|terms| - 1];
      var u := terms[|terms| - 1];
      BodyScoreOverActive(ix, init, tokens, w, d);
      var act := ActiveTerms(ix, init);
      assert ActiveTerms(ix, terms) == act + (if DfActive(ix, u) then [u] else []);
      assert BodyScoreOver(ix, terms, tokens, w, d) == BodyScoreOver(ix, init, tokens, w, d) + TermScore(ix, tokens, u, w, d);
      if DfActive(ix, u) {
        var longer := act + [u];
        assert longer[..|longer| - 1] == act && longer[|longer| - 1] == u;
        assert BodyScoreOver(ix, longer, tokens, w, d) == BodyScoreOver(ix, act, tokens, w, d) + TermScore(ix, tokens, u, w, d);
        assert ActiveTerms(ix, terms) == longer;
      } else {
        assert act + [] == act;
        assert ActiveTerms(ix, terms) == act;
        assert TermScore(ix, tokens, u, w, d) == 0.0;
      }
    }
  }

  /** Skipped terms name no document. */
  lemma BodyDocsActive(ix: FieldIndex, terms: seq<Term>)
    ensures BodyDocs(ix, terms) == BodyDocs(ix, ActiveTerms(ix, terms))
  {
  }

  /** Inserting an inactive term anywhere into a query leaves its active
      distinct terms, in order, as they were. */
  lemma {:induction false} ActiveDistinctInsert(ix: FieldIndex, a: seq<Term>, b: seq<Term>, t: Term)
    requires !DfActive(ix, t)
    ensures ActiveTerms(ix, DistinctTerms(a + [t] + b)) == ActiveTerms(ix, DistinctTerms(a + b))
  {
    if b == [] {
      assert a + [t] + b == a + [t];
      assert a + b == a;
      DistinctTermsSnoc(a, t);
      ActiveTermsSnoc(ix, DistinctTerms(a), t);
    } else {
      var b0 := b[..|b| - 1];
      var u := b[|b| - 1];
      var long0 := a + [t] + b0;
      var short0 := a + b0;
      assert a + [t] + b == long0 + [u];
      assert a + b == short0 + [u];
      ActiveDistinctInsert(ix, a, b0, t);
      DistinctTermsSnoc(long0, u);
      DistinctTermsSnoc(short0, u);
      ActiveTermsSnoc(ix, DistinctTerms(long0), u);
      ActiveTermsSnoc(ix, DistinctTerms(short0), u);
      assert u != t ==> (u in long0 <==> u in short0);
    }
  }

  /** One document's score over the distinct terms, with and without the
      inactive term. */
  lemma InactiveTermKeepsScore(ix: FieldIndex, a: seq<Term>, b: seq<Term>, t: Term, w: Weight, d: DocId)
    requires !DfActive(ix, t)
    ensures BodyScoreOver(ix, DistinctTerms(a + [t] + b), a + [t] + b, w, d) ==
            BodyScoreOver(ix, DistinctTerms(a + b), a + b, w, d)
  {
    var long := a + [t] + b;
    var short := a + b;
    ActiveDistinctInsert(ix, a, b, t);
    var act := ActiveTerms(ix, DistinctTerms(short));
    assert multiset(long) == multiset(short) + multiset{t};
    BodyScoreOverActive(ix, DistinctTerms(long), long, w, d);
    BodyScoreOverCounts(ix, act, long, short, w, d);
    BodyScoreOverActive(ix, DistinctTerms(short), short, w, d);
  }

  /** The documents with a body score, with and without the inactive term. */
  lemma InactiveTermKeepsDocs(ix: FieldIndex, a: seq<Term>, b: seq<Term>, t: Term)
    requires !DfActive(ix, t)
    ensures BodyDocs(ix, DistinctTerms(a + [t] + b)) == BodyDocs(ix, DistinctTerms(a + b))
  {
    ActiveDistinctInsert(ix, a, b, t);
    BodyDocsActive(ix, DistinctTerms(a + [t] + b));
    BodyDocsActive(ix, DistinctTerms(a + b));
  }

  /** A query term whose `df` is missing or zero, wherever it stands in the
      query, changes no body score and creates no entry. */
  lemma InactiveTermIgnored(ix: FieldIndex, a: seq<Term>, b: seq<Term>, t: Term, w: Weight)
    requires !DfActive(ix, t)
    ensures BodyScores(Some(ix), a + [t] + b, w) == BodyScores(Some(ix), a + b, w)
  {
    var after := BodyScores(Some(ix), a + [t] + b, w);
    var before := BodyScores(Some(ix), a + b, w);
    InactiveTermKeepsDocs(ix, a, b, t);
    if a + b == [] {
      assert BodyDocs(ix, DistinctTerms(a + b)) == {};
    } else {
      forall d | d in after
        ensures after[d] == before[d]
      {
        InactiveTermKeepsScore(ix, a, b, t, w, d);
      }
    }
  }

  /** A term that is a key of `df` with value 0 still counts in the title or
      anchor field, while the body scorer skips it. */
  lemma ZeroDfContrast(doc: DocId, w: Weight)
    ensures
      var ix := FieldIndex(map["x" := 0], map["x" := [(doc, 1)]]);
      doc in MatchCounts(Some(ix), ["x"]) && doc !in BodyScores(Some(ix), ["x"], w)
  {
    var ix := FieldIndex(map["x" := 0], map["x" := [(doc, 1)]]);
    assert PostingList(ix, "x")[0].0 == doc;
    MatchCountsKeys(Some(ix), ["x"], doc);
    BodyScoresKeys(Some(ix), ["x"], w, doc);
  }
}
