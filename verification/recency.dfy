/** The per-file recency test shared by every walker variant: the `report_*`
    helpers, the annotation built from them and the output line. */
module Recency {
  import opened Wrappers
  import opened Errors

  /** Seconds in a day (src/constants.rs:9, src/sync.rs:7, src/lib.rs:8). */
  const SECS_PER_DAY: nat := 86400

  /** Largest day count the command rejects (src/constants.rs:6): the f32 nearest to
      1e-7, which is 14073749 / 2^47, slightly above 1e-7. */
  const MIN_DAYS: real := 14073749.0 / 140737488355328.0

  const U64_MAX: nat := 0xFFFF_FFFF_FFFF_FFFF

  type U8 = x: int | 0 <= x < 256

  /** An f32 day count: a finite value, or NaN (which every comparison rejects). */
  datatype F32 = Num(value: real) | NaN

  function Ceil(x: real): (n: int)
    ensures n as real - 1.0 < x <= n as real
  {
    if x.Floor as real == x then x.Floor else x.Floor + 1
  }

  /** The window of the f32 variants, `ceil(SECS_PER_DAY * days) as u64`; the cast
      saturates, sending NaN and non-positive products to 0 and huge ones to u64::MAX. */
  function CeilWindow(days: F32): (w: nat)
    ensures w <= U64_MAX
    ensures days.NaN? || days.value <= 0.0 ==> w == 0
    ensures days.Num? && 0.0 < SECS_PER_DAY as real * days.value <= U64_MAX as real ==>
              w as real - 1.0 < SECS_PER_DAY as real * days.value <= w as real
    ensures days.Num? && SECS_PER_DAY as real * days.value >= U64_MAX as real ==> w == U64_MAX
  {
    match days
    case NaN => 0
    case Num(d) =>
      var p := SECS_PER_DAY as real * d;
      if p <= 0.0 then 0
      else if p >= U64_MAX as real then U64_MAX
      else Ceil(p)
  }

  /** The window of the u8 variants, `SECS_PER_DAY * days as u64`. */
  function DayWindow(days: U8): (w: nat)
    ensures w <= U64_MAX
    ensures w % SECS_PER_DAY == 0 && w / SECS_PER_DAY == days
  {
    SECS_PER_DAY * days
  }

  /** A day count above the minimum never yields a zero-width window. */
  lemma AboveMinimumWindowIsPositive(days: F32)
    requires days.Num? && days.value > MIN_DAYS
    ensures CeilWindow(days) >= 1
  {
  }

  /** For whole day counts the two windows agree, so the f32 variants extend the u8 ones. */
  lemma WholeDaysAgree(days: U8)
    ensures CeilWindow(Num(days as real)) == DayWindow(days)
  {
    var p := SECS_PER_DAY as real * days as real;
    assert p == (SECS_PER_DAY * days) as real;
    assert p.Floor == SECS_PER_DAY * days;
  }

  /** Outcome of reading one timestamp and asking how long ago it was. */
  datatype Reading =
    | Age(secs: nat)             // `elapsed()?.as_secs()`: whole seconds since the timestamp
    | Unavailable(msg: string)   // `accessed()` / `created()` / `modified()` failed (an io::Error)
    | Future(msg: string)        // `elapsed()` failed: the clock is behind the timestamp

  /** What the metadata of one entry yields: the `metadata()` call itself may fail. */
  datatype Stamps = Stamps(metaError: Option<string>, accessed: Reading, created: Reading, modified: Reading)

  /** The crate whose `metadata()` error type reaches the `?`: walkdir or ignore. */
  datatype Crawler = WalkDirCrate | IgnoreCrate

  datatype Field = Access | Create | Modify

  /** The three criteria flags (access, create, modify). */
  datatype Criteria = Criteria(byAccess: bool, byCreate: bool, byModify: bool)

  predicate AnyCriterion(c: Criteria)
  {
    c.byAccess || c.byCreate || c.byModify
  }

  function ReadingOf(st: Stamps, f: Field): Reading
  {
    match f
    case Access => st.accessed
    case Create => st.created
    case Modify => st.modified
  }

  /** Evaluation order of the three predicates. */
  function Rank(f: Field): nat
  {
    match f
    case Access => 0
    case Create => 1
    case Modify => 2
  }

  function Flag(f: Field): char
  {
    match f
    case Access => 'a'
    case Create => 'c'
    case Modify => 'm'
  }

  function MetadataCause(crawler: Crawler, msg: string): Cause
  {
    match crawler
    case WalkDirCrate => WalkDir(msg)
    case IgnoreCrate => Ignore(msg)
  }

  /** `report_accessed` / `report_created` / `report_modified`: whether the field's
      timestamp is strictly younger than `window` seconds, or the error on the way. */
  function Report(st: Stamps, f: Field, window: nat, crawler: Crawler): (r: Result<bool, AmbleError>)
    ensures r.Ok? <==> st.metaError.None? && ReadingOf(st, f).Age?
    ensures r.Ok? ==> (r.value <==> ReadingOf(st, f).secs < window)
    ensures st.metaError.Some? ==>
              r.Err? && r.error.msg == st.metaError.value &&
              (r.error.WalkDirError? <==> crawler == WalkDirCrate) &&
              (r.error.IgnoreError? <==> crawler == IgnoreCrate)
    ensures st.metaError.None? && ReadingOf(st, f).Unavailable? ==> r == Err(IoError(ReadingOf(st, f).msg))
    ensures st.metaError.None? && ReadingOf(st, f).Future? ==> r == Err(SystemTimeError(ReadingOf(st, f).msg))
  {
    if st.metaError.Some? then Err(Convert(MetadataCause(crawler, st.metaError.value)))
    else
      match ReadingOf(st, f)
      case Age(s) => Ok(s < window)
      case Unavailable(m) => Err(Convert(Io(m)))
      case Future(m) => Err(Convert(Clock(m)))
  }

  /** The comparison is strict: a timestamp exactly `window` seconds old does not match. */
  lemma BoundaryExcluded(st: Stamps, f: Field, window: nat, crawler: Crawler)
    requires st.metaError.None? && ReadingOf(st, f) == Age(window)
    ensures Report(st, f, window, crawler) == Ok(false)
  {
  }

  /** Widening the window never loses a match. */
  lemma WiderWindowKeepsMatch(st: Stamps, f: Field, w1: nat, w2: nat, crawler: Crawler)
    requires w1 <= w2 && Report(st, f, w1, crawler) == Ok(true)
    ensures Report(st, f, w2, crawler) == Ok(true)
  {
  }

  /** Whether a predicate takes part: `create` additionally needs the platform to
      support creation times (the `#[cfg(target_os = "macos")]` gate). */
  function Enabled(crit: Criteria, createGate: bool, f: Field): (on: bool)
    ensures on ==> AnyCriterion(crit)
    ensures f.Create? ==> (on <==> crit.byCreate && createGate)
    ensures f.Access? ==> (on <==> crit.byAccess)
    ensures f.Modify? ==> (on <==> crit.byModify)
  {
    match f
    case Access => crit.byAccess
    case Create => crit.byCreate && createGate
    case Modify => crit.byModify
  }

  /** One `if flag && report_x(..)?` step: a disabled predicate is never evaluated. */
  function Probe(st: Stamps, f: Field, window: nat, crit: Criteria, createGate: bool, crawler: Crawler): (r: Result<bool, AmbleError>)
    ensures !Enabled(crit, createGate, f) ==> r == Ok(false)
    ensures r == Ok(true) <==>
              Enabled(crit, createGate, f) && st.metaError.None? && ReadingOf(st, f).Age? && ReadingOf(st, f).secs < window
    ensures r.Err? <==> Enabled(crit, createGate, f) && (st.metaError.Some? || !ReadingOf(st, f).Age?)
    ensures Enabled(crit, createGate, f) ==> r == Report(st, f, window, crawler)
  {
    if Enabled(crit, createGate, f) then Report(st, f, window, crawler) else Ok(false)
  }

  predicate IsFlag(ch: char)
  {
    ch == 'a' || ch == 'c' || ch == 'm'
  }

  function FlagRank(ch: char): nat
  {
    if ch == 'a' then 0 else if ch == 'c' then 1 else 2
  }

  /** A well-formed annotation: flag characters only, in strictly increasing
      a, c, m order (so each at most once). */
  predicate IsAnnotation(s: string)
  {
    (forall i :: 0 <= i < |s| ==> IsFlag(s[i])) &&
    (forall i, j :: 0 <= i < j < |s| ==> FlagRank(s[i]) < FlagRank(s[j]))
  }

  /** The `meta` string: 'a', 'c', 'm' for each enabled predicate that holds, in that
      order, stopping at the first enabled predicate that fails. */
  function Annotate(st: Stamps, window: nat, crit: Criteria, createGate: bool, crawler: Crawler): (r: Result<string, AmbleError>)
    ensures r.Ok? <==> forall f :: Probe(st, f, window, crit, createGate, crawler).Ok?
    ensures r.Ok? ==> IsAnnotation(r.value)
    ensures r.Ok? ==> forall f :: Flag(f) in r.value <==> Probe(st, f, window, crit, createGate, crawler) == Ok(true)
    ensures r.Err? ==> exists f :: (Probe(st, f, window, crit, createGate, crawler) == Err(r.error) &&
              forall g :: Rank(g) < Rank(f) ==> Probe(st, g, window, crit, createGate, crawler).Ok?)
  {
    var a :- Probe(st, Access, window, crit, createGate, crawler);
    var c :- Probe(st, Create, window, crit, createGate, crawler);
    var m :- Probe(st, Modify, window, crit, createGate, crawler);
    Ok((if a then "a" else "") + (if c then "c" else "") + (if m then "m" else ""))
  }

  /** `format!("{} ({})", path, meta)`. */
  function Line(path: string, meta: string): string
  {
    path + " (" + meta + ")"
  }

  /** The line printed for a file: none when the annotation is empty. */
  function Emit(path: string, meta: string): (r: Option<string>)
    ensures r.Some? <==> meta != ""
    ensures r.Some? ==> |r.value| == |path| + |meta| + 3 && r.value[..|path|] == path
  {
    if meta == "" then None else Some(Line(path, meta))
  }

  /** A line is produced exactly when the annotation is non-empty, and it reads back
      into the path and annotation it came from. */
  lemma EmitReadsBack(path: string, meta: string)
    requires IsAnnotation(meta)
    ensures Emit(path, meta).Some? <==> meta != ""
    ensures Emit(path, meta).Some? ==> ParseLine(Emit(path, meta).value) == Some((path, meta))
  {
    if meta != "" {
      ParseLineRoundTrip(path, meta);
    }
  }

  /** Length of the longest suffix of `s` made of flag characters. */
  function TrailingFlags(s: string): (n: nat)
    ensures n <= |s|
    ensures forall i :: |s| - n <= i < |s| ==> IsFlag(s[i])
    ensures n < |s| ==> !IsFlag(s[|s| - n - 1])
  {
    if |s| == 0 || !IsFlag(s[|s| - 1]) then 0 else 1 + TrailingFlags(s[..|s| - 1])
  }

  /** Splits `<path> (<meta>)` at the trailing run of flag characters. */
  function ParseLine(s: string): Option<(string, string)>
  {
    if |s| == 0 || s[|s| - 1] != ')' then None
    else
      var body := s[..|s| - 1];
      var k := TrailingFlags(body);
      if k == 0 || |body| < k + 2 || body[|body| - k - 2 .. |body| - k] != " (" then None
      else Some((body[..|body| - k - 2], body[|body| - k..]))
  }

  lemma {:induction false} TrailingFlagsOfSuffix(u: string, m: string)
    requires |u| > 0 && !IsFlag(u[|u| - 1])
    requires forall i :: 0 <= i < |m| ==> IsFlag(m[i])
    ensures TrailingFlags(u + m) == |m|
    decreases |m|
  {
    if |m| == 0 {
      assert u + m == u;
    } else {
      var s := u + m;
      assert s[|s| - 1] == m[|m| - 1];
      assert s[..|s| - 1] == u + m[..|m| - 1];
      TrailingFlagsOfSuffix(u, m[..|m| - 1]);
    }
  }

  lemma ParseLineRoundTrip(path: string, meta: string)
    requires meta != ""
    ensures (forall i :: 0 <= i < |meta| ==> IsFlag(meta[i])) ==> ParseLine(Line(path, meta)) == Some((path, meta))
  {
    if exists i :: 0 <= i < |meta| && !IsFlag(meta[i]) {
      return;
    }
    var s := Line(path, meta);
    var u := path + " (";
    assert s == u + meta + ")";
    var body := s[..|s| - 1];
    assert body == u + meta;
    TrailingFlagsOfSuffix(u, meta);
    assert body[|body| - |meta| - 2 .. |body| - |meta|] == " (";
    assert body[..|body| - |meta| - 2] == path;
    assert body[|body| - |meta|..] == meta;
  }
}
