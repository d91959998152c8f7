/** Startup merging of the per-shard `*_posting_locs.pickle` dictionaries
    into one term-to-locations map per index (search_frontend.py). The
    bucket listing and the pickle loads are parameters: `names` is the
    listing, `load` what loading one blob yields, `None` standing for
    anything that is not a dict (including a failed load). */
module PostingLocs {
  import opened PyBase
  import opened Text

  const IndexDir: string := "postings_gcp_project"
  const LocsSuffix: string := "_posting_locs.pickle"

  /** Where a posting list lives: `(file name, byte offset)`. */
  type Loc = (string, int)

  /** One shard's pickled dictionary: term to its locations. */
  type LocDict = map<string, seq<Loc>>

  type Loader = string -> Option<LocDict>

  /** `normalize_fname`: drop a leading `postings_gcp_project/`. */
  function NormalizeFname(fname: string): (r: string)
    ensures StartsWith(fname, IndexDir + "/") ==> IndexDir + "/" + r == fname
    ensures !StartsWith(fname, IndexDir + "/") ==> r == fname
  {
    if StartsWith(fname, IndexDir + "/") then fname[|IndexDir| + 1..] else fname
  }

  /** A bare file name placed under the index directory normalizes back to
      itself, whatever it looks like. */
  lemma NormalizeFnameRoundTrip(name: string)
    ensures NormalizeFname(IndexDir + "/" + name) == name
  {
    var full := IndexDir + "/" + name;
    assert full[..|IndexDir + "/"|] == IndexDir + "/";
    assert full[|IndexDir| + 1..] == name;
  }

  /** `[(normalize_fname(fn), off) for fn, off in locs]`. */
  function NormalizeLocs(locs: seq<Loc>): (r: seq<Loc>)
    ensures |r| == |locs|
    ensures forall i | 0 <= i < |locs| :: r[i] == (NormalizeFname(locs[i].0), locs[i].1)
  {
    seq(|locs|, i requires 0 <= i < |locs| => (NormalizeFname(locs[i].0), locs[i].1))
  }

  /** `[n for n in names if n.endswith("_posting_locs.pickle")]`. */
  function LocFiles(names: seq<string>): (r: seq<string>)
    ensures |r| <= |names|
    ensures forall n :: n in r <==> n in names && EndsWith(n, LocsSuffix)
    ensures |names| == 1 ==> r == (if EndsWith(names[0], LocsSuffix) then names else [])
  {
    if names == [] then []
    else
      var init := LocFiles(names[..|names| - 1]);
      var n := names[|names| - 1];
      assert names == names[..|names| - 1] + [n];
      if EndsWith(n, LocsSuffix) then init + [n] else init
  }

  /** The filter keeps the listing's order: filtering two listings one after
      the other is filtering their concatenation. */
  lemma {:induction false} LocFilesConcat(a: seq<string>, b: seq<string>)
    ensures LocFiles(a + b) == LocFiles(a) + LocFiles(b)
  {
    if b != [] {
      var b0 := b[..|b| - 1];
      assert (a + b)[..|a + b| - 1] == a + b0;
      LocFilesConcat(a, b0);
    } else {
      assert a + b == a;
    }
  }

  /** The dictionaries the loop goes on with, in file order; a blob that
      does not load as a dict is skipped. */
  function LoadedDicts(files: seq<string>, load: Loader): (r: seq<LocDict>)
    ensures |r| <= |files|
  {
    if files == [] then []
    else
      var init := LoadedDicts(files[..|files| - 1], load);
      match load(files[|files| - 1])
      case Some(d) => init + [d]
      case None => init
  }

  /** What one dictionary adds to a term's list: its normalized locations. */
  function Added(d: LocDict, term: string): seq<Loc> {
    if term in d then NormalizeLocs(d[term]) else []
  }

  function LocsAt(m: map<string, seq<Loc>>, term: string): seq<Loc> {
    if term in m then m[term] else []
  }

  /** The merged map after one more dictionary was folded in: every term of
      the dictionary is extended, even one with no locations. */
  function Absorb(m: map<string, seq<Loc>>, d: LocDict): map<string, seq<Loc>> {
    map t | t in m.Keys + d.Keys :: LocsAt(m, t) + Added(d, t)
  }

  /** The merged map after all dictionaries, folded in order. */
  function MergedOf(dicts: seq<LocDict>): map<string, seq<Loc>> {
    if dicts == [] then map[] else Absorb(MergedOf(dicts[..|dicts| - 1]), dicts[|dicts| - 1])
  }

  function Flatten<T>(parts: seq<seq<T>>): seq<T> {
    if parts == [] then [] else Flatten(parts[..|parts| - 1]) + parts[|parts| - 1]
  }

  /** A term's locations, dictionary by dictionary in file order. */
  function LocsFor(dicts: seq<LocDict>, term: string): seq<Loc> {
    Flatten(seq(|dicts|, k requires 0 <= k < |dicts| => Added(dicts[k], term)))
  }

  lemma LocsAtAbsorb(m: map<string, seq<Loc>>, d: LocDict, term: string)
    ensures LocsAt(Absorb(m, d), term) == LocsAt(m, term) + Added(d, term)
  {
  }

  lemma LocsForSnoc(dicts: seq<LocDict>, term: string)
    requires dicts != []
    ensures LocsFor(dicts, term) == LocsFor(dicts[..|dicts| - 1], term) + Added(dicts[|dicts| - 1], term)
  {
    var init := dicts[..|dicts| - 1];
    var parts := seq(|dicts|, k requires 0 <= k < |dicts| => Added(dicts[k], term));
    assert parts[..|parts| - 1] == seq(|init|, k requires 0 <= k < |init| => Added(init[k], term));
  }

  lemma InAbsorb(m: map<string, seq<Loc>>, d: LocDict, term: string)
    ensures term in Absorb(m, d) <==> term in m || term in d
  {
  }

  /** Some dictionary among `dicts` has `term`. */
  ghost predicate InSome(dicts: seq<LocDict>, term: string) {
    exists k | 0 <= k < |dicts| :: term in dicts[k]
  }

  lemma InSomeSnoc(dicts: seq<LocDict>, term: string)
    requires dicts != []
    ensures InSome(dicts, term) <==> InSome(dicts[..|dicts| - 1], term) || term in dicts[|dicts| - 1]
  {
    var init := dicts[..|dicts| - 1];
    if InSome(dicts, term) {
      var k :| 0 <= k < |dicts| && term in dicts[k];
      if k < |init| {
        assert term in init[k];
      }
    }
    if InSome(init, term) {
      var k :| 0 <= k < |init| && term in init[k];
      assert term in dicts[k];
    }
  }

  /** The merged map holds exactly the terms of the loaded dictionaries. */
  lemma {:induction false} MergedOfKeys(dicts: seq<LocDict>, term: string)
    ensures term in MergedOf(dicts) <==> exists k | 0 <= k < |dicts| :: term in dicts[k]
  {
    if dicts != [] {
      var init := dicts[..|dicts| - 1];
      MergedOfKeys(init, term);
      InAbsorb(MergedOf(init), dicts[|dicts| - 1], term);
      InSomeSnoc(dicts, term);
    }
  }

  /** Each term's merged list is its locations in every dictionary,
      concatenated in file order. */
  lemma {:induction false} MergedOfLocs(dicts: seq<LocDict>, term: string)
    ensures LocsAt(MergedOf(dicts), term) == LocsFor(dicts, term)
  {
    if dicts != [] {
      var init := dicts[..|dicts| - 1];
      MergedOfLocs(init, term);
      LocsAtAbsorb(MergedOf(init), dicts[|dicts| - 1], term);
      LocsForSnoc(dicts, term);
    }
  }

  /** One term of a dictionary, extended into the merged map. */
  method ExtendTerm(merged: map<string, seq<Loc>>, term: string, locs: seq<Loc>)
    returns (r: map<string, seq<Loc>>)
    ensures r == merged[term := LocsAt(merged, term) + NormalizeLocs(locs)]
  {
    var current := if term in merged then merged[term] else [];
    ghost var normalized := NormalizeLocs(locs);
    var i := 0;
    while i < |locs|
      invariant 0 <= i <= |locs|
      invariant current == LocsAt(merged, term) + normalized[..i]
    {
      assert normalized[..i + 1] == normalized[..i] + [normalized[i]];
      current := current + [(NormalizeFname(locs[i].0), locs[i].1)];
      i := i + 1;
    }
    assert normalized[..i] == normalized;
    r := merged[term := current];
  }

  /** `for term, locs in d.items(): merged[term].extend(...)`. */
  method AbsorbDict(merged0: map<string, seq<Loc>>, d: LocDict) returns (merged: map<string, seq<Loc>>)
    ensures merged == Absorb(merged0, d)
  {
    merged := merged0;
    var rest := d.Keys;
    while rest != {}
      invariant rest <= d.Keys
      invariant merged.Keys == merged0.Keys + (d.Keys - rest)
      invariant forall t | t in merged :: merged[t] == LocsAt(merged0, t) + (if t in rest then [] else Added(d, t))
      decreases rest
    {
      ghost var some := Element(rest);
      var term :| term in rest;
      merged := ExtendTerm(merged, term, d[term]);
      rest := rest - {term};
    }
  }

  /** `merge_posting_locs`: every listed `*_posting_locs.pickle` that loads
      as a dict is folded in, in listing order. */
  method MergePostingLocs(names: seq<string>, load: Loader) returns (merged: map<string, seq<Loc>>)
    ensures merged == MergedOf(LoadedDicts(LocFiles(names), load))
  {
    var locFiles := LocFiles(names);
    merged := map[];
    var i := 0;
    while i < |locFiles|
      invariant 0 <= i <= |locFiles|
      invariant merged == MergedOf(LoadedDicts(locFiles[..i], load))
    {
      LoadedDictsStep(locFiles, load, i);
      var d := load(locFiles[i]);
      if d.Some? {
        merged := AbsorbDict(merged, d.value);
      }
      i := i + 1;
    }
    assert locFiles[..i] == locFiles;
  }

  /** One more file either adds its dictionary to the merge or is skipped. */
  lemma LoadedDictsStep(files: seq<string>, load: Loader, i: nat)
    requires i < |files|
    ensures load(files[i]).Some? ==>
      MergedOf(LoadedDicts(files[..i + 1], load)) == Absorb(MergedOf(LoadedDicts(files[..i], load)), load(files[i]).value)
    ensures load(files[i]).None? ==>
      LoadedDicts(files[..i + 1], load) == LoadedDicts(files[..i], load)
  {
    assert files[..i + 1][..i] == files[..i];
    var init := LoadedDicts(files[..i], load);
    if load(files[i]).Some? {
      var ds := init + [load(files[i]).value];
      assert ds[..|ds| - 1] == init;
    }
  }

  /** Only the suffix-matching names are ever loaded: two loaders that agree
      on those give the same merged map. */
  lemma {:induction false} OnlyLocFilesLoaded(names: seq<string>, load1: Loader, load2: Loader)
    requires forall n | n in names && EndsWith(n, LocsSuffix) :: load1(n) == load2(n)
    ensures LoadedDicts(LocFiles(names), load1) == LoadedDicts(LocFiles(names), load2)
  {
    LoadedDictsAgree(LocFiles(names), load1, load2);
  }

  lemma {:induction false} LoadedDictsAgree(files: seq<string>, load1: Loader, load2: Loader)
    requires forall n | n in files :: load1(n) == load2(n)
    ensures LoadedDicts(files, load1) == LoadedDicts(files, load2)
  {
    if files != [] {
      var init := files[..|files| - 1];
      assert forall n | n in init :: n in files;
      LoadedDictsAgree(init, load1, load2);
      assert files[|files| - 1] in files;
    }
  }

  /** When no listed blob loads as a dict, the merged map is empty. */
  lemma {:induction false} NothingLoaded(files: seq<string>, load: Loader)
    requires forall n | n in files :: load(n).None?
    ensures LoadedDicts(files, load) == []
    ensures MergedOf(LoadedDicts(files, load)) == map[]
  {
    if files != [] {
      var init := files[..|files| - 1];
      assert forall n | n in init :: n in files;
      NothingLoaded(init, load);
      assert files[|files| - 1] in files;
    }
  }
}
