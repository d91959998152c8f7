/** The time-string pattern scripts/check_minimal.py checks the `__time__`
    row against: optional whitespace, digits, an optional `.digits`, `s`,
    optional whitespace, `(digits` then `ms)`, optional whitespace — as in
    `0.385s (385ms)`, the shape the server's `fmt_time` produces.

    The pattern is written two ways: as the pieces a matching string is
    made of (`TimeParts`, `Assemble`), and as the deterministic automaton a
    regular-expression match amounts to for this pattern (`Step`, `Run`).
    The two are proved to accept the same strings. */
module TimeFormat {
  import opened PyBase
  import opened Text

  /** The pieces of a matching string, in order. */
  datatype TimeParts = TimeParts(
    lead: string,
    secs: string,
    frac: Option<string>,
    gap: string,
    ms: string,
    trail: string)

  /** `\d+`. */
  predicate Digits(s: string) {
    s != [] && AllDigits(s)
  }

  /** Each piece matches its part of the pattern. */
  predicate ValidParts(p: TimeParts) {
    && IsBlank(p.lead)
    && Digits(p.secs)
    && (p.frac.Some? ==> Digits(p.frac.value))
    && IsBlank(p.gap)
    && Digits(p.ms)
    && IsBlank(p.trail)
  }

  function FracText(frac: Option<string>): string {
    if frac.Some? then "." + frac.value else ""
  }

  /** `(\d+ms)` and the trailing whitespace. */
  function CloseText(ms: string, trail: string): string {
    "(" + (ms + ("ms)" + trail))
  }

  /** `s\s*` and the rest. */
  function SuffixText(gap: string, ms: string, trail: string): string {
    "s" + (gap + CloseText(ms, trail))
  }

  /** Everything after the whole seconds. */
  function AfterSecsText(frac: Option<string>, gap: string, ms: string, trail: string): string {
    FracText(frac) + SuffixText(gap, ms, trail)
  }

  /** The string the pieces spell. */
  function Assemble(p: TimeParts): string {
    p.lead + (p.secs + AfterSecsText(p.frac, p.gap, p.ms, p.trail))
  }

  /** A string the pattern accepts: one spelled by valid pieces. */
  ghost predicate MatchesTime(v: string) {
    exists p :: ValidParts(p) && Assemble(p) == v
  }

  // ---------------------------------------------------------------------
  // The automaton
  // ---------------------------------------------------------------------

  /** Where the scan is in the pattern; `Dead` once no match is possible. */
  datatype State =
    | Lead    // in the leading whitespace
    | Secs    // in the whole seconds, at least one digit read
    | Dot     // just after the `.`
    | Frac    // in the fraction, at least one digit read
    | Gap     // after the `s`
    | Paren   // just after the `(`
    | Millis  // in the milliseconds, at least one digit read
    | UnitM   // after the `m` of `ms`
    | UnitS   // after the `s` of `ms`
    | Trail   // after the `)`: only whitespace may follow
    | Dead

  function Step(q: State, c: char): State {
    match q
    case Lead => if IsSpace(c) then Lead else if IsDigit(c) then Secs else Dead
    case Secs => if IsDigit(c) then Secs else if c == '.' then Dot else if c == 's' then Gap else Dead
    case Dot => if IsDigit(c) then Frac else Dead
    case Frac => if IsDigit(c) then Frac else if c == 's' then Gap else Dead
    case Gap => if IsSpace(c) then Gap else if c == '(' then Paren else Dead
    case Paren => if IsDigit(c) then Millis else Dead
    case Millis => if IsDigit(c) then Millis else if c == 'm' then UnitM else Dead
    case UnitM => if c == 's' then UnitS else Dead
    case UnitS => if c == ')' then Trail else Dead
    case Trail => if IsSpace(c) then Trail else Dead
    case Dead => Dead
  }

  /** The state after scanning `s` from `q`. */
  function Run(q: State, s: string): State
    decreases |s|
  {
    if s == [] then q else Run(Step(q, s[0]), s[1..])
  }

  /** `TIME_RE.match(v)` succeeds: the whole string scans to `Trail`. */
  predicate Matches(v: string) {
    Run(Lead, v) == Trail
  }

  /** Scanning `c + s` is one step and then the rest. */
  lemma RunCons(q: State, c: char, s: string)
    ensures Run(q, [c] + s) == Run(Step(q, c), s)
  {
    assert ([c] + s)[1..] == s;
  }

  lemma {:induction false} DeadStays(s: string)
    ensures Run(Dead, s) == Dead
  {
    if s != [] {
      DeadStays(s[1..]);
    }
  }

  // ---------------------------------------------------------------------
  // Completeness: every assembled string scans to `Trail`
  // ---------------------------------------------------------------------

  lemma {:induction false} TrailComplete(t: string)
    requires IsBlank(t)
    ensures Run(Trail, t) == Trail
  {
    if t != [] {
      TrailComplete(t[1..]);
    }
  }

  lemma {:induction false} MillisComplete(d: string, t: string)
    requires AllDigits(d) && IsBlank(t)
    ensures Run(Millis, d + ("ms)" + t)) == Trail
  {
    if d != [] {
      assert d + ("ms)" + t) == [d[0]] + (d[1..] + ("ms)" + t));
      RunCons(Millis, d[0], d[1..] + ("ms)" + t));
      MillisComplete(d[1..], t);
    } else {
      assert d + ("ms)" + t) == "ms)" + t;
      assert "ms)" + t == ['m'] + (['s'] + ([')'] + t));
      RunCons(Millis, 'm', ['s'] + ([')'] + t));
      RunCons(UnitM, 's', [')'] + t);
      RunCons(UnitS, ')', t);
      TrailComplete(t);
    }
  }

  lemma CloseComplete(ms: string, t: string)
    requires Digits(ms) && IsBlank(t)
    ensures Run(Paren, ms + ("ms)" + t)) == Trail
  {
    assert ms + ("ms)" + t) == [ms[0]] + (ms[1..] + ("ms)" + t));
    RunCons(Paren, ms[0], ms[1..] + ("ms)" + t));
    MillisComplete(ms[1..], t);
  }

  lemma {:induction false} GapComplete(g: string, ms: string, t: string)
    requires IsBlank(g) && Digits(ms) && IsBlank(t)
    ensures Run(Gap, g + CloseText(ms, t)) == Trail
  {
    if g != [] {
      assert g + CloseText(ms, t) == [g[0]] + (g[1..] + CloseText(ms, t));
      RunCons(Gap, g[0], g[1..] + CloseText(ms, t));
      GapComplete(g[1..], ms, t);
    } else {
      assert g + CloseText(ms, t) == ['('] + (ms + ("ms)" + t));
      RunCons(Gap, '(', ms + ("ms)" + t));
      CloseComplete(ms, t);
    }
  }

  /** From `Secs` or `Frac`, an `s` and the rest reach `Trail`. */
  lemma SuffixComplete(q: State, g: string, ms: string, t: string)
    requires q == Secs || q == Frac
    requires IsBlank(g) && Digits(ms) && IsBlank(t)
    ensures Run(q, SuffixText(g, ms, t)) == Trail
  {
    RunCons(q, 's', g + CloseText(ms, t));
    GapComplete(g, ms, t);
  }

  lemma {:induction false} FracComplete(d: string, g: string, ms: string, t: string)
    requires AllDigits(d) && IsBlank(g) && Digits(ms) && IsBlank(t)
    ensures Run(Frac, d + SuffixText(g, ms, t)) == Trail
  {
    if d != [] {
      assert d + SuffixText(g, ms, t) == [d[0]] + (d[1..] + SuffixText(g, ms, t));
      RunCons(Frac, d[0], d[1..] + SuffixText(g, ms, t));
      FracComplete(d[1..], g, ms, t);
    } else {
      assert d + SuffixText(g, ms, t) == SuffixText(g, ms, t);
      SuffixComplete(Frac, g, ms, t);
    }
  }

  lemma {:induction false} SecsComplete(d: string, frac: Option<string>, g: string, ms: string, t: string)
    requires AllDigits(d) && (frac.Some? ==> Digits(frac.value)) && IsBlank(g) && Digits(ms) && IsBlank(t)
    ensures Run(Secs, d + AfterSecsText(frac, g, ms, t)) == Trail
  {
    var after := AfterSecsText(frac, g, ms, t);
    if d != [] {
      assert d + after == [d[0]] + (d[1..] + after);
      RunCons(Secs, d[0], d[1..] + after);
      SecsComplete(d[1..], frac, g, ms, t);
    } else if frac.Some? {
      var f := frac.value;
      var rest := f[1..] + SuffixText(g, ms, t);
      assert d + after == ['.'] + ([f[0]] + rest);
      RunCons(Secs, '.', [f[0]] + rest);
      RunCons(Dot, f[0], rest);
      FracComplete(f[1..], g, ms, t);
    } else {
      assert d + after == SuffixText(g, ms, t);
      SuffixComplete(Secs, g, ms, t);
    }
  }

  lemma {:induction false} LeadComplete(w: string, p: TimeParts)
    requires IsBlank(w) && ValidParts(p)
    ensures Run(Lead, w + (p.secs + AfterSecsText(p.frac, p.gap, p.ms, p.trail))) == Trail
  {
    var body := p.secs + AfterSecsText(p.frac, p.gap, p.ms, p.trail);
    if w != [] {
      assert w + body == [w[0]] + (w[1..] + body);
      RunCons(Lead, w[0], w[1..] + body);
      LeadComplete(w[1..], p);
    } else {
      var rest := p.secs[1..] + AfterSecsText(p.frac, p.gap, p.ms, p.trail);
      assert w + body == [p.secs[0]] + rest;
      RunCons(Lead, p.secs[0], rest);
      SecsComplete(p.secs[1..], p.frac, p.gap, p.ms, p.trail);
    }
  }

  /** Every string spelled by valid pieces matches. */
  lemma MatchesComplete(p: TimeParts)
    requires ValidParts(p)
    ensures Matches(Assemble(p))
  {
    LeadComplete(p.lead, p);
  }

  // ---------------------------------------------------------------------
  // Soundness: every string that scans to `Trail` is spelled by valid
  // pieces, which the lemmas below read off the scan
  // ---------------------------------------------------------------------

  lemma {:induction false} TrailSound(r: string)
    ensures Run(Trail, r) == Trail ==> IsBlank(r)
  {
    if r != [] {
      RunCons(Trail, r[0], r[1..]);
      assert r == [r[0]] + r[1..];
      TrailSound(r[1..]);
      DeadStays(r[1..]);
    }
  }

  /** After the millisecond digits: `ms)` and whitespace. */
  lemma UnitSound(r: string)
    ensures Run(Millis, r) == Trail && r != [] && !IsDigit(r[0]) ==>
      |r| >= 3 && r[..3] == "ms)" && IsBlank(r[3..])
  {
    if r != [] && !IsDigit(r[0]) {
      assert r == [r[0]] + r[1..];
      RunCons(Millis, r[0], r[1..]);
      DeadStays(r[1..]);
      if r[0] == 'm' && |r| >= 2 {
        assert r[1..] == [r[1]] + r[2..];
        RunCons(UnitM, r[1], r[2..]);
        DeadStays(r[2..]);
        if r[1] == 's' && |r| >= 3 {
          assert r[2..] == [r[2]] + r[3..];
          RunCons(UnitS, r[2], r[3..]);
          DeadStays(r[3..]);
          TrailSound(r[3..]);
          assert r[..3] == [r[0], r[1], r[2]];
        }
      }
    }
  }

  lemma {:induction false} MillisSound(r: string) returns (d: string, t: string)
    ensures Run(Millis, r) == Trail ==> AllDigits(d) && IsBlank(t) && r == d + ("ms)" + t)
  {
    d, t := [], [];
    if r != [] && IsDigit(r[0]) {
      RunCons(Millis, r[0], r[1..]);
      var d', t' := MillisSound(r[1..]);
      d, t := [r[0]] + d', t';
      assert r == [r[0]] + r[1..];
    } else {
      UnitSound(r);
      if |r| >= 3 {
        t := r[3..];
        assert r == r[..3] + r[3..];
      }
    }
  }

  lemma CloseSound(r: string) returns (ms: string, t: string)
    ensures Run(Paren, r) == Trail ==> Digits(ms) && IsBlank(t) && r == ms + ("ms)" + t)
  {
    ms, t := [], [];
    if r != [] {
      RunCons(Paren, r[0], r[1..]);
      assert r == [r[0]] + r[1..];
      DeadStays(r[1..]);
      if IsDigit(r[0]) {
        var d, t' := MillisSound(r[1..]);
        ms, t := [r[0]] + d, t';
      }
    }
  }

  lemma {:induction false} GapSound(r: string) returns (g: string, ms: string, t: string)
    ensures Run(Gap, r) == Trail ==> IsBlank(g) && Digits(ms) && IsBlank(t) && r == g + CloseText(ms, t)
  {
    g, ms, t := [], [], [];
    if r != [] {
      RunCons(Gap, r[0], r[1..]);
      assert r == [r[0]] + r[1..];
      DeadStays(r[1..]);
      if IsSpace(r[0]) {
        var g', ms', t' := GapSound(r[1..]);
        g, ms, t := [r[0]] + g', ms', t';
      } else if r[0] == '(' {
        ms, t := CloseSound(r[1..]);
      }
    }
  }

  /** From `Secs` or `Frac`, what follows the digits: `s` and the rest. */
  lemma SuffixSound(q: State, r: string) returns (g: string, ms: string, t: string)
    requires q == Secs || q == Frac
    requires r != [] && r[0] == 's'
    ensures Run(q, r) == Trail ==> IsBlank(g) && Digits(ms) && IsBlank(t) && r == SuffixText(g, ms, t)
  {
    RunCons(q, r[0], r[1..]);
    assert r == [r[0]] + r[1..];
    g, ms, t := GapSound(r[1..]);
  }

  lemma {:induction false} FracSound(r: string) returns (d: string, g: string, ms: string, t: string)
    ensures Run(Frac, r) == Trail ==>
      AllDigits(d) && IsBlank(g) && Digits(ms) && IsBlank(t) && r == d + SuffixText(g, ms, t)
  {
    d, g, ms, t := [], [], [], [];
    if r != [] {
      RunCons(Frac, r[0], r[1..]);
      assert r == [r[0]] + r[1..];
      DeadStays(r[1..]);
      if IsDigit(r[0]) {
        var d', g', ms', t' := FracSound(r[1..]);
        d, g, ms, t := [r[0]] + d', g', ms', t';
      } else if r[0] == 's' {
        g, ms, t := SuffixSound(Frac, r);
      }
    }
  }

  /** The optional `.digits` right after the whole seconds. */
  lemma DotSound(r: string) returns (f: string, g: string, ms: string, t: string)
    requires r != [] && r[0] == '.'
    ensures Run(Secs, r) == Trail ==>
      Digits(f) && IsBlank(g) && Digits(ms) && IsBlank(t) && r == "." + (f + SuffixText(g, ms, t))
  {
    f, g, ms, t := [], [], [], [];
    RunCons(Secs, '.', r[1..]);
    assert r == ['.'] + r[1..];
    var q := r[1..];
    if q != [] {
      RunCons(Dot, q[0], q[1..]);
      assert q == [q[0]] + q[1..];
      DeadStays(q[1..]);
      if IsDigit(q[0]) {
        var d;
        d, g, ms, t := FracSound(q[1..]);
        f := [q[0]] + d;
      }
    }
  }

  lemma {:induction false} SecsSound(r: string) returns (d: string, frac: Option<string>, g: string, ms: string, t: string)
    ensures Run(Secs, r) == Trail ==>
      && AllDigits(d) && (frac.Some? ==> Digits(frac.value)) && IsBlank(g) && Digits(ms) && IsBlank(t)
      && r == d + AfterSecsText(frac, g, ms, t)
  {
    d, frac, g, ms, t := [], None, [], [], [];
    if r != [] {
      RunCons(Secs, r[0], r[1..]);
      assert r == [r[0]] + r[1..];
      DeadStays(r[1..]);
      if IsDigit(r[0]) {
        var d';
        d', frac, g, ms, t := SecsSound(r[1..]);
        d := [r[0]] + d';
      } else if r[0] == '.' {
        var f;
        f, g, ms, t := DotSound(r);
        frac := Some(f);
      } else if r[0] == 's' {
        g, ms, t := SuffixSound(Secs, r);
      }
    }
  }

  lemma {:induction false} LeadSound(r: string) returns (p: TimeParts)
    ensures Run(Lead, r) == Trail ==> ValidParts(p) && Assemble(p) == r
  {
    p := TimeParts([], [], None, [], [], []);
    if r != [] {
      RunCons(Lead, r[0], r[1..]);
      assert r == [r[0]] + r[1..];
      DeadStays(r[1..]);
      if IsSpace(r[0]) {
        var p' := LeadSound(r[1..]);
        p := p'.(lead := [r[0]] + p'.lead);
      } else if IsDigit(r[0]) {
        var d, frac, g, ms, t := SecsSound(r[1..]);
        p := TimeParts([], [r[0]] + d, frac, g, ms, t);
      }
    }
  }

  /** The automaton accepts exactly the strings spelled by valid pieces. */
  lemma MatchesCorrect(v: string)
    ensures Matches(v) <==> MatchesTime(v)
  {
    var p := LeadSound(v);
    if MatchesTime(v) {
      var q :| ValidParts(q) && Assemble(q) == v;
      MatchesComplete(q);
    }
  }

  // ---------------------------------------------------------------------
  // The server's time strings
  // ---------------------------------------------------------------------

  /** The shape `fmt_time` writes: `<seconds>.<3 digits>s (<ms>ms)`. */
  function FmtTimeShape(whole: string, millis3: string, ms: string): string {
    whole + "." + millis3 + "s (" + ms + "ms)"
  }

  /** Every string of the `fmt_time` shape is spelled by valid pieces and
      matches. */
  lemma FmtTimeAccepted(whole: string, millis3: string, ms: string)
    requires Digits(whole) && Digits(millis3) && |millis3| == 3 && Digits(ms)
    ensures ValidParts(TimeParts("", whole, Some(millis3), " ", ms, ""))
    ensures Assemble(TimeParts("", whole, Some(millis3), " ", ms, "")) == FmtTimeShape(whole, millis3, ms)
    ensures MatchesTime(FmtTimeShape(whole, millis3, ms))
    ensures Matches(FmtTimeShape(whole, millis3, ms))
  {
    var p := TimeParts("", whole, Some(millis3), " ", ms, "");
    assert IsBlank(" ");
    assert Assemble(p) == FmtTimeShape(whole, millis3, ms);
    MatchesComplete(p);
  }

  /** The documented example `0.385s (385ms)` matches. */
  lemma ExampleAccepted()
    ensures Matches("0.385s (385ms)")
  {
    assert FmtTimeShape("0", "385", "385") == "0.385s (385ms)";
    FmtTimeAccepted("0", "385", "385");
  }
}
