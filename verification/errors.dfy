/** The tool's error type (src/errors.rs): five tagged variants, each carrying a
    message, their display text and the conversions from foreign error types. */
module Errors {
  import opened Wrappers

  datatype AmbleError =
    | IoError(msg: string)
    | SystemTimeError(msg: string)
    | WalkDirError(msg: string)
    | IgnoreError(msg: string)
    | UnexpectedResult(msg: string)

  /** The prefix the `display` attribute puts in front of each variant's message. */
  function Tag(e: AmbleError): string
  {
    match e
    case IoError(_) => "IoError"
    case SystemTimeError(_) => "SystemTimeError"
    case WalkDirError(_) => "WalkDir"
    case IgnoreError(_) => "IgnoreError"
    case UnexpectedResult(_) => "UnexpectedResult"
  }

  /** `e.to_string()`: the tag, a colon and a space, then the message. */
  function Display(e: AmbleError): (r: string)
    ensures |r| == |Tag(e)| + 2 + |e.msg|
    ensures StartsWith(r, Tag(e)) && r[|Tag(e)|..|Tag(e)| + 2] == ": "
    ensures r[|r| - |e.msg|..] == e.msg
  {
    Tag(e) + ": " + e.msg
  }

  predicate StartsWith(s: string, prefix: string)
  {
    |prefix| <= |s| && s[..|prefix|] == prefix
  }

  /** Reads a displayed error back: the inverse of Display. */
  function Parse(s: string): Option<AmbleError>
  {
    if StartsWith(s, "IoError: ") then Some(IoError(s[|"IoError: "|..]))
    else if StartsWith(s, "SystemTimeError: ") then Some(SystemTimeError(s[|"SystemTimeError: "|..]))
    else if StartsWith(s, "WalkDir: ") then Some(WalkDirError(s[|"WalkDir: "|..]))
    else if StartsWith(s, "IgnoreError: ") then Some(IgnoreError(s[|"IgnoreError: "|..]))
    else if StartsWith(s, "UnexpectedResult: ") then Some(UnexpectedResult(s[|"UnexpectedResult: "|..]))
    else None
  }

  /** A string that differs from `prefix` at position `i` does not start with it. */
  lemma DiffersAt(s: string, prefix: string, i: nat)
    requires i < |prefix| && i < |s| && s[i] != prefix[i]
    ensures !StartsWith(s, prefix)
  {
  }

  /** The displayed text names the variant unambiguously and carries the message
      intact. In each case the prefixes Parse tries first are ruled out by the
      character at which they differ from the displayed tag. */
  lemma ParseDisplay(e: AmbleError)
    ensures Parse(Display(e)) == Some(e)
  {
    var s := Display(e);
    var t := Tag(e) + ": ";
    assert s[..|t|] == t;
    match e
    case IoError(m) =>
    case SystemTimeError(m) =>
      DiffersAt(s, "IoError: ", 0);
    case WalkDirError(m) =>
      DiffersAt(s, "IoError: ", 0);
      DiffersAt(s, "SystemTimeError: ", 0);
    case IgnoreError(m) =>
      DiffersAt(s, "IoError: ", 1);
      DiffersAt(s, "SystemTimeError: ", 0);
      DiffersAt(s, "WalkDir: ", 0);
    case UnexpectedResult(m) =>
      DiffersAt(s, "IoError: ", 0);
      DiffersAt(s, "SystemTimeError: ", 0);
      DiffersAt(s, "WalkDir: ", 0);
      DiffersAt(s, "IgnoreError: ", 0);
  }

  /** Two errors that print the same are the same error. */
  lemma DisplayInjective(e1: AmbleError, e2: AmbleError)
    requires Display(e1) == Display(e2)
    ensures e1 == e2
  {
    ParseDisplay(e1);
    ParseDisplay(e2);
  }

  /** The foreign errors the `From` impls accept, each with its `to_string()` text. */
  datatype Cause =
    | Io(text: string)
    | Clock(text: string)
    | WalkDir(text: string)
    | Ignore(text: string)

  /** Which foreign error, if any, an error value was converted from. */
  function Origin(e: AmbleError): Option<Cause>
  {
    match e
    case IoError(m) => Some(Io(m))
    case SystemTimeError(m) => Some(Clock(m))
    case WalkDirError(m) => Some(WalkDir(m))
    case IgnoreError(m) => Some(Ignore(m))
    case UnexpectedResult(_) => None
  }

  /** `AmbleError::from`: each foreign kind has its own variant and keeps its text. */
  function Convert(c: Cause): (e: AmbleError)
    ensures e.msg == c.text
    ensures Origin(e) == Some(c)
    ensures !e.UnexpectedResult?
  {
    match c
    case Io(m) => IoError(m)
    case Clock(m) => SystemTimeError(m)
    case WalkDir(m) => WalkDirError(m)
    case Ignore(m) => IgnoreError(m)
  }

  /** Conversions never collide: distinct foreign errors give distinct values, and
      distinct foreign kinds give distinct display tags. */
  lemma ConvertInjective(c1: Cause, c2: Cause)
    ensures Convert(c1) == Convert(c2) ==> c1 == c2
    ensures c1.Io? != c2.Io? || c1.Clock? != c2.Clock? || c1.WalkDir? != c2.WalkDir?
            ==> Tag(Convert(c1)) != Tag(Convert(c2))
  {
  }
}
