/** src/sync.rs: the earlier single-threaded walk with whole (u8) days, a skip
    list and no platform gate on the creation-time predicate. */
module Sync {
  import opened Wrappers
  import opened Errors
  import opened Recency
  import opened Filters
  import opened Tree
  import opened Sequential

  /** The `filter_entry` closure: keep exactly the names not on the skip list. */
  function Keep(skip: seq<string>): (k: string -> bool)
    ensures forall name :: k(name) <==> name !in skip
  {
    name => !MatchesList(name, skip)
  }

  /** `find_matching`: with no criterion it returns at once; otherwise one line per
      matching regular file in walk order, stopping at the first predicate error. */
  function FindMatching(root: Node, startDir: string, days: U8, crit: Criteria, skip: seq<string>): (r: Printed)
    ensures !AnyCriterion(crit) ==> r == Printed([], None)
    ensures r.failure.Some? ==>
              exists v :: v in All(root, startDir, []) && v.node.File? &&
                FileStep(v, DayWindow(days), crit, true) == Err(r.failure.value)
  {
    if !AnyCriterion(crit) then Printed([], None)
    else
      var vs := Walk(root, startDir, [], Keep(skip));
      var r := Run(vs, FileSteps(DayWindow(days), crit, true));
      if r.failure.Some? then
        RunStopsAtFirstFailure(vs, FileSteps(DayWindow(days), crit, true));
        PruneExactly(root, startDir, Keep(skip));
        r
      else r
  }

  /** Every printed line belongs to a regular file that is not skip-listed and has
      no skip-listed directory above it; without a predicate error, every such
      file that matches is printed. */
  lemma SkipListedNeverDescended(root: Node, startDir: string, days: U8, crit: Criteria, skip: seq<string>)
    ensures forall l :: l in FindMatching(root, startDir, days, crit, skip).lines ==>
              exists v :: v in All(root, startDir, []) && v.node.File? && v.node.name !in skip &&
                (forall i :: 0 <= i < |v.above| ==> v.above[i] !in skip) &&
                FileStep(v, DayWindow(days), crit, true) == Ok(Some(l))
    ensures AnyCriterion(crit) && FindMatching(root, startDir, days, crit, skip).failure.None? ==>
              forall v :: (v in All(root, startDir, []) && v.node.File? && v.node.name !in skip &&
                           (forall i :: 0 <= i < |v.above| ==> v.above[i] !in skip) &&
                           FileStep(v, DayWindow(days), crit, true).Ok? &&
                           FileStep(v, DayWindow(days), crit, true).value.Some?) ==>
                FileStep(v, DayWindow(days), crit, true).value.value in FindMatching(root, startDir, days, crit, skip).lines
  {
    var keep := Keep(skip);
    if AnyCriterion(crit) {
      RunLinesFromSteps(Walk(root, startDir, [], keep), FileSteps(DayWindow(days), crit, true));
      PruneExactly(root, startDir, keep);
    }
  }

  /** The creation-time predicate is consulted whenever `create` is set, on every
      platform: an unreadable creation time aborts the walk with its io error. */
  lemma CreateAlwaysConsulted(v: Visit, days: U8, crit: Criteria)
    requires v.node.File? && v.node.stamps.metaError.None? && crit.byCreate
    requires v.node.stamps.created.Unavailable?
    requires crit.byAccess ==> v.node.stamps.accessed.Age?
    ensures FileStep(v, DayWindow(days), crit, true) == Err(IoError(v.node.stamps.created.msg))
  {
    var st := v.node.stamps;
    assert Probe(st, Access, DayWindow(days), crit, true, WalkDirCrate).Ok?;
    assert Probe(st, Create, DayWindow(days), crit, true, WalkDirCrate) == Err(IoError(st.created.msg));
  }
}
