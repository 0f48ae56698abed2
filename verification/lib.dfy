/** src/lib.rs: the earliest walk. No skip list and no file-type test: every entry
    the walker yields, directories included, is checked against the criteria, and its base name is
    printed when any enabled predicate holds. */
module Lib {
  import opened Wrappers
  import opened Errors
  import opened Recency
  import opened Tree
  import opened Sequential

  /** The `report = report || report_x(..)?` chain: once `report` is true the later
      predicates are not evaluated, so their errors cannot surface. There is no
      platform gate on creation time. */
  function Decide(st: Stamps, window: nat, crit: Criteria): (r: Result<bool, AmbleError>)
    ensures r.Ok? ==> (r.value <==> exists f :: Probe(st, f, window, crit, true, WalkDirCrate) == Ok(true))
    ensures r.Ok? <==>
              forall f :: Probe(st, f, window, crit, true, WalkDirCrate).Err? ==>
                exists g :: Rank(g) < Rank(f) && Probe(st, g, window, crit, true, WalkDirCrate) == Ok(true)
    ensures r.Err? ==>
              exists f :: Probe(st, f, window, crit, true, WalkDirCrate) == Err(r.error) &&
                forall g :: Rank(g) < Rank(f) ==> Probe(st, g, window, crit, true, WalkDirCrate) == Ok(false)
  {
    var a :- Probe(st, Access, window, crit, true, WalkDirCrate);
    var c :- if a then Ok(true) else Probe(st, Create, window, crit, true, WalkDirCrate);
    var m :- if c then Ok(true) else Probe(st, Modify, window, crit, true, WalkDirCrate);
    Ok(m)
  }

  /** One iteration: walker errors were already dropped by `filter_map`; any other
      entry prints its base name when `Decide` says so. */
  function Step(v: Visit, window: nat, crit: Criteria): (r: Result<Option<string>, AmbleError>)
    ensures v.node.Broken? ==> r == Ok(None)
    ensures !v.node.Broken? ==>
              (r.Ok? <==> Decide(v.node.stamps, window, crit).Ok?) &&
              (r.Ok? ==> (r.value.Some? <==> Decide(v.node.stamps, window, crit) == Ok(true))) &&
              (r.Ok? && r.value.Some? ==> r.value.value == v.node.name)
  {
    if v.node.Broken? then Ok(None)
    else
      var hit :- Decide(v.node.stamps, window, crit);
      Ok(if hit then Some(v.node.name) else None)
  }

  function Steps(window: nat, crit: Criteria): Step
  {
    v => Step(v, window, crit)
  }

  /** `find_matching`: with no criterion it returns at once; otherwise the walk is
      unfiltered and stops at the first predicate error. */
  function FindMatching(root: Node, startDir: string, days: U8, crit: Criteria): (r: Printed)
    ensures !AnyCriterion(crit) ==> r == Printed([], None)
  {
    if !AnyCriterion(crit) then Printed([], None)
    else Run(All(root, startDir, []), Steps(DayWindow(days), crit))
  }

  /** Without a predicate error, the printed names are exactly the base names of the
      entries (of any type) for which some enabled predicate holds. */
  lemma ReportsEveryRecentEntry(root: Node, startDir: string, days: U8, crit: Criteria)
    requires AnyCriterion(crit) && FindMatching(root, startDir, days, crit).failure.None?
    ensures forall v :: (v in All(root, startDir, []) && !v.node.Broken? &&
                         Decide(v.node.stamps, DayWindow(days), crit) == Ok(true)) ==>
              v.node.name in FindMatching(root, startDir, days, crit).lines
    ensures forall l :: l in FindMatching(root, startDir, days, crit).lines ==>
              exists v :: v in All(root, startDir, []) && !v.node.Broken? && v.node.name == l &&
                Decide(v.node.stamps, DayWindow(days), crit) == Ok(true)
  {
    var vs := All(root, startDir, []);
    var step := Steps(DayWindow(days), crit);
    RunLinesFromSteps(vs, step);
    forall v | v in vs && !v.node.Broken? && Decide(v.node.stamps, DayWindow(days), crit) == Ok(true)
      ensures v.node.name in FindMatching(root, startDir, days, crit).lines
    {
      assert step(v) == Ok(Some(v.node.name));
    }
  }

  /** A true access predicate decides the entry: the create and modify predicates are
      never evaluated, so even failing ones cannot abort the walk. */
  lemma AccessHitShortCircuits(st: Stamps, window: nat, crit: Criteria)
    requires crit.byAccess && Report(st, Access, window, WalkDirCrate) == Ok(true)
    ensures Decide(st, window, crit) == Ok(true)
  {
  }
}
