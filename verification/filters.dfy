/** Name-based entry filters: the skip list and the hidden-name test. Both look
    at the entry's base name only, compared exactly and case-sensitively. */
module Filters {

  /** The `for item in list` loop of `matches_list`: true at the first item equal to
      the name. */
  function AnyEquals(name: string, list: seq<string>): (r: bool)
    ensures r <==> exists i :: 0 <= i < |list| && list[i] == name
  {
    if |list| == 0 then false
    else if list[0] == name then true
    else AnyEquals(name, list[1..])
  }

  /** `matches_list` of src/syncwalk.rs and src/sync.rs: an empty list matches nothing,
      otherwise the base name must equal one of the items. */
  function MatchesList(name: string, list: seq<string>): (r: bool)
    ensures r <==> name in list
    ensures |list| == 0 ==> !r
  {
    if |list| == 0 then false else AnyEquals(name, list)
  }

  /** `is_hidden`: only when checking is on, a base name starting with ".". */
  function IsHidden(name: string, check: bool): (r: bool)
    ensures !check ==> !r
    ensures check ==> (r <==> "." <= name)
  {
    if !check then false else |name| > 0 && name[0] == '.'
  }
}
