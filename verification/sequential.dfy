/** The single-threaded `for entry in walker { ... ? ... }` loop shared by the
    walkdir variants: each entry prints at most one line, and the first entry
    whose step fails ends the loop with that error, lines already printed staying
    printed. */
module Sequential {
  import opened Wrappers
  import opened Errors
  import opened Recency
  import opened Tree

  /** The per-entry step: `Ok(Some(line))` prints a line, `Ok(None)` moves on. */
  type Step = Visit -> Result<Option<string>, AmbleError>

  /** What the loop printed, and the error that ended it early, if one did. */
  datatype Printed = Printed(lines: seq<string>, failure: Option<AmbleError>)

  /** The lines the steps print when none of them fails, in visiting order. */
  function Lines(vs: seq<Visit>, step: Step): seq<string>
  {
    if |vs| == 0 then []
    else
      (match step(vs[0]) case Ok(Some(l)) => [l] case _ => []) + Lines(vs[1..], step)
  }

  /** Each line comes from a visit whose step printed it, and every line a step
      prints is among them. */
  lemma {:induction false} LinesFromSteps(vs: seq<Visit>, step: Step)
    ensures forall l :: l in Lines(vs, step) ==> exists v :: v in vs && step(v) == Ok(Some(l))
    ensures forall v :: v in vs && step(v).Ok? && step(v).value.Some? ==> step(v).value.value in Lines(vs, step)
    decreases |vs|
  {
    if |vs| > 0 {
      LinesFromSteps(vs[1..], step);
      assert forall v :: v in vs[1..] ==> v in vs;
      assert forall v :: v in vs ==> v == vs[0] || v in vs[1..];
    }
  }

  lemma {:induction false} LinesAppend(a: seq<Visit>, b: seq<Visit>, step: Step)
    ensures Lines(a + b, step) == Lines(a, step) + Lines(b, step)
    decreases |a|
  {
    if |a| == 0 {
      assert a + b == b;
    } else {
      assert (a + b)[1..] == a[1..] + b;
      LinesAppend(a[1..], b, step);
    }
  }

  /** The loop itself. Without a failing step it prints every line in order. */
  function Run(vs: seq<Visit>, step: Step): (r: Printed)
    ensures r.failure.None? <==> forall i :: 0 <= i < |vs| ==> step(vs[i]).Ok?
    ensures r.failure.None? ==> r.lines == Lines(vs, step)
  {
    if |vs| == 0 then Printed([], None)
    else
      match step(vs[0])
      case Err(e) => Printed([], Some(e))
      case Ok(line) =>
        var rest := Run(vs[1..], step);
        assert forall i :: 1 <= i < |vs| ==> vs[i] == vs[1..][i - 1];
        Printed((if line.Some? then [line.value] else []) + rest.lines, rest.failure)
  }

  /** One successful step in front of a run adds its line, if any, in front. */
  lemma RunCons(v: Visit, vs: seq<Visit>, step: Step)
    requires step(v).Ok?
    ensures Run([v] + vs, step) ==
            Printed((if step(v).value.Some? then [step(v).value.value] else []) + Run(vs, step).lines, Run(vs, step).failure)
  {
    assert ([v] + vs)[0] == v;
    assert ([v] + vs)[1..] == vs;
  }

  /** A failing step stops the loop there, after the lines of the steps before it. */
  lemma {:induction false} RunStopsAtFirstFailure(vs: seq<Visit>, step: Step)
    requires Run(vs, step).failure.Some?
    ensures exists k :: 0 <= k < |vs| && step(vs[k]) == Err(Run(vs, step).failure.value) &&
              (forall i :: 0 <= i < k ==> step(vs[i]).Ok?) &&
              Run(vs, step).lines == Lines(vs[..k], step)
    decreases |vs|
  {
    assert |vs| > 0;
    match step(vs[0])
    case Err(e) =>
      assert vs[..0] == [];
      assert step(vs[0]) == Err(Run(vs, step).failure.value);
    case Ok(line) =>
      var rest := Run(vs[1..], step);
      RunStopsAtFirstFailure(vs[1..], step);
      var k :| 0 <= k < |vs| - 1 && step(vs[1..][k]) == Err(rest.failure.value) &&
               (forall i :: 0 <= i < k ==> step(vs[1..][i]).Ok?) &&
               rest.lines == Lines(vs[1..][..k], step);
      assert vs[..k + 1] == [vs[0]] + vs[1..][..k];
      LinesAppend([vs[0]], vs[1..][..k], step);
      assert forall i :: 0 <= i < k + 1 ==> step(vs[i]).Ok? by {
        forall i | 0 <= i < k + 1
          ensures step(vs[i]).Ok?
        {
          if i > 0 {
            assert vs[i] == vs[1..][i - 1];
          }
        }
      }
      assert step(vs[k + 1]) == Err(Run(vs, step).failure.value);
  }

  /** Every printed line comes from a step that printed it, on or before the failing
      entry; without a failure, every line a step would print is printed. */
  lemma RunLinesFromSteps(vs: seq<Visit>, step: Step)
    ensures forall l :: l in Run(vs, step).lines ==> exists v :: v in vs && step(v) == Ok(Some(l))
    ensures Run(vs, step).failure.None? ==>
              forall v :: v in vs && step(v).Ok? && step(v).value.Some? ==> step(v).value.value in Run(vs, step).lines
  {
    var r := Run(vs, step);
    LinesFromSteps(vs, step);
    if r.failure.Some? {
      RunStopsAtFirstFailure(vs, step);
      var k :| 0 <= k < |vs| && r.lines == Lines(vs[..k], step);
      LinesFromSteps(vs[..k], step);
      assert forall v :: v in vs[..k] ==> v in vs;
    }
  }

  /** The body of the walkdir loops for one entry: walker errors and non-files are
      passed over; a regular file prints `<path> (<meta>)` when its annotation is
      non-empty, and a failing predicate aborts. */
  function FileStep(v: Visit, window: nat, crit: Criteria, createGate: bool): (r: Result<Option<string>, AmbleError>)
    ensures !v.node.File? ==> r == Ok(None)
    ensures v.node.File? ==>
              (r.Ok? <==> forall f :: Probe(v.node.stamps, f, window, crit, createGate, WalkDirCrate).Ok?)
  {
    match v.node
    case File(_, st) =>
      var meta :- Annotate(st, window, crit, createGate, WalkDirCrate);
      Ok(Emit(v.path, meta))
    case _ => Ok(None)
  }

  /** What a file's line says: it reads back into the file's path and an annotation
      holding exactly the flags of the enabled predicates that matched, and there
      is a line exactly when at least one did. */
  lemma FileStepLine(v: Visit, window: nat, crit: Criteria, createGate: bool)
    requires v.node.File? && FileStep(v, window, crit, createGate).Ok?
    ensures var r := FileStep(v, window, crit, createGate);
            r.value.Some? <==> exists f :: Probe(v.node.stamps, f, window, crit, createGate, WalkDirCrate) == Ok(true)
    ensures var r := FileStep(v, window, crit, createGate);
            r.value.Some? ==>
              var p := ParseLine(r.value.value);
              p.Some? && p.value.0 == v.path && IsAnnotation(p.value.1) &&
              forall f :: Flag(f) in p.value.1 <==> Probe(v.node.stamps, f, window, crit, createGate, WalkDirCrate) == Ok(true)
  {
    var meta := Annotate(v.node.stamps, window, crit, createGate, WalkDirCrate).value;
    EmitReadsBack(v.path, meta);
    if meta != "" {
      assert IsFlag(meta[0]);
      assert Flag(Access) in meta || Flag(Create) in meta || Flag(Modify) in meta;
    }
  }

  /** FileStep as a step value, one per configuration. */
  function FileSteps(window: nat, crit: Criteria, createGate: bool): Step
  {
    v => FileStep(v, window, crit, createGate)
  }
}
