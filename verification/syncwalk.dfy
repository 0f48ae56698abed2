/** src/syncwalk.rs: the single-threaded walk over walkdir with f32 days, a
    skip list, a hidden-name flag and the macOS-only creation-time predicate. */
module SyncWalk {
  import opened Wrappers
  import opened Errors
  import opened Recency
  import opened Filters
  import opened Tree
  import opened Sequential

  /** The `filter_entry` closure as written: keep when the name is not skip-listed
      OR is hidden. */
  function Keep(skip: seq<string>, ignoreHidden: bool): (k: string -> bool)
    ensures forall name :: k(name) <==> name !in skip || (ignoreHidden && "." <= name)
  {
    name => !MatchesList(name, skip) || IsHidden(name, ignoreHidden)
  }

  /** The filter the names suggest: drop skip-listed names and, when asked, hidden
      ones. */
  function KeepIntended(skip: seq<string>, ignoreHidden: bool): (k: string -> bool)
    ensures forall name :: k(name) <==> name !in skip && !(ignoreHidden && "." <= name)
  {
    name => !MatchesList(name, skip) && !IsHidden(name, ignoreHidden)
  }

  /** The body of `find_matching` with a given entry filter. */
  function Scan(root: Node, startDir: string, days: F32, crit: Criteria, macos: bool, keep: string -> bool): Printed
  {
    if !AnyCriterion(crit) then Printed([], None)
    else Run(Walk(root, startDir, [], keep), FileSteps(CeilWindow(days), crit, macos))
  }

  /** `find_matching`: with no criterion it returns at once; otherwise it prints one
      line per matching regular file in walk order and stops at the first predicate
      error. `_threads` is unused and so not a parameter. */
  function FindMatching(root: Node, startDir: string, days: F32, crit: Criteria,
                        skip: seq<string>, ignoreHidden: bool, macos: bool): (r: Printed)
    ensures !AnyCriterion(crit) ==> r == Printed([], None)
    ensures r.failure.Some? ==>
              exists v :: v in All(root, startDir, []) && v.node.File? &&
                FileStep(v, CeilWindow(days), crit, macos) == Err(r.failure.value)
  {
    var keep := Keep(skip, ignoreHidden);
    var r := Scan(root, startDir, days, crit, macos, keep);
    if r.failure.Some? then
      var vs := Walk(root, startDir, [], keep);
      RunStopsAtFirstFailure(vs, FileSteps(CeilWindow(days), crit, macos));
      PruneExactly(root, startDir, keep);
      r
    else r
  }

  /** `find_matching` with the intended filter in place of the written one. */
  function FindMatchingIntended(root: Node, startDir: string, days: F32, crit: Criteria,
                                skip: seq<string>, ignoreHidden: bool, macos: bool): Printed
  {
    Scan(root, startDir, days, crit, macos, KeepIntended(skip, ignoreHidden))
  }

  /** What the scan prints, for any filter: each line is the line of a regular file
      that the filter lets through together with every directory above it; and
      when no predicate fails, every such file with a non-empty annotation is
      printed. So a pruned directory contributes nothing. */
  lemma ScanReportsVisibleFiles(root: Node, startDir: string, days: F32, crit: Criteria, macos: bool, keep: string -> bool)
    ensures forall l :: l in Scan(root, startDir, days, crit, macos, keep).lines ==>
              exists v :: v in All(root, startDir, []) && Visible(v, keep) && v.node.File? &&
                FileStep(v, CeilWindow(days), crit, macos) == Ok(Some(l))
    ensures AnyCriterion(crit) && Scan(root, startDir, days, crit, macos, keep).failure.None? ==>
              forall v :: (v in All(root, startDir, []) && Visible(v, keep) &&
                           FileStep(v, CeilWindow(days), crit, macos).Ok? && FileStep(v, CeilWindow(days), crit, macos).value.Some?) ==>
                FileStep(v, CeilWindow(days), crit, macos).value.value in Scan(root, startDir, days, crit, macos, keep).lines
  {
    if AnyCriterion(crit) {
      RunLinesFromSteps(Walk(root, startDir, [], keep), FileSteps(CeilWindow(days), crit, macos));
      PruneExactly(root, startDir, keep);
    }
  }

  /** As written, a hidden name is always kept when the hidden flag is on, even when
      it is on the skip list. */
  lemma HiddenNamesAreKept(skip: seq<string>, name: string)
    requires "." <= name
    ensures Keep(skip, true)(name)
  {
  }

  /** With the hidden flag off, the written filter prunes exactly the skip-listed names. */
  lemma WithoutHiddenFlagOnlySkipListPrunes(skip: seq<string>, name: string)
    ensures !Keep(skip, false)(name) <==> name in skip
  {
  }

  /** The intended filter drops a name exactly when it is skip-listed or, with the
      flag on, hidden. */
  lemma IntendedDropsSkippedAndHidden(skip: seq<string>, ignoreHidden: bool, name: string)
    ensures !KeepIntended(skip, ignoreHidden)(name) <==> name in skip || (ignoreHidden && "." <= name)
  {
  }

  /** Stamps whose three timestamps are all `secs` seconds old. */
  function Aged(secs: nat): Stamps
  {
    Stamps(None, Age(secs), Age(secs), Age(secs))
  }

  const HiddenFile: Node := File(".hidden", Aged(3600))
  const FileA: Node := File("a.txt", Aged(172800))
  const FileB: Node := File("b.txt", Aged(3600))
  const KeepDir: Node := Dir("keep", Aged(0), [FileA])
  const SkipDir: Node := Dir("skip_me", Aged(0), [FileB])

  /** `/data` with `.hidden` modified an hour ago, `keep/a.txt` two days ago and
      `skip_me/b.txt` an hour ago. */
  const Sample: Node := Dir("data", Aged(0), [HiddenFile, KeepDir, SkipDir])

  const RootVisit: Visit := Visit(Sample, "/data", [])
  const HiddenVisit: Visit := Visit(HiddenFile, "/data/.hidden", ["data"])
  const KeepVisit: Visit := Visit(KeepDir, "/data/keep", ["data"])
  const AVisit: Visit := Visit(FileA, "/data/keep/a.txt", ["data", "keep"])

  lemma SampleWalk(keep: string -> bool, hiddenKept: bool)
    requires keep("data") && keep("keep") && keep("a.txt") && !keep("skip_me")
    requires keep(".hidden") == hiddenKept
    ensures Walk(Sample, "/data", [], keep) ==
            [RootVisit] + (if hiddenKept then [HiddenVisit] else []) + [KeepVisit, AVisit]
  {
    var root := Sample;
    assert Join("/data", ".hidden") == "/data/.hidden";
    assert Join("/data", "keep") == "/data/keep";
    assert Join("/data", "skip_me") == "/data/skip_me";
    assert Join("/data/keep", "a.txt") == "/data/keep/a.txt";
    assert [] + ["data"] == ["data"];
    assert ["data"] + ["keep"] == ["data", "keep"];
    assert KeepDir.children[1..] == [];
    assert Walk(FileA, "/data/keep/a.txt", ["data", "keep"], keep) == [AVisit];
    assert WalkOf(KeepDir.children, "/data/keep", ["data", "keep"], keep) == [AVisit];
    assert Walk(KeepDir, "/data/keep", ["data"], keep) == [KeepVisit, AVisit];
    assert Walk(SkipDir, "/data/skip_me", ["data"], keep) == [];
    assert root.children[2..][1..] == [];
    assert WalkOf(root.children[2..], "/data", ["data"], keep) == [];
    assert root.children[1..][1..] == root.children[2..];
    assert WalkOf(root.children[1..], "/data", ["data"], keep) == [KeepVisit, AVisit];
    var hs := if hiddenKept then [HiddenVisit] else [];
    assert Walk(HiddenFile, "/data/.hidden", ["data"], keep) == hs;
    assert WalkOf(root.children, "/data", ["data"], keep) == hs + [KeepVisit, AVisit];
  }

  /** With modification time as the only criterion, a file modified less than
      `window` seconds ago prints `<path> (m)`. */
  lemma RecentlyModifiedFile(v: Visit, window: nat, macos: bool)
    requires v.node.File? && v.node.stamps.metaError.None?
    requires v.node.stamps.modified.Age? && v.node.stamps.modified.secs < window
    ensures FileStep(v, window, Criteria(false, false, true), macos) == Ok(Some(Line(v.path, "m")))
  {
    var st := v.node.stamps;
    var crit := Criteria(false, false, true);
    assert Probe(st, Access, window, crit, macos, WalkDirCrate) == Ok(false);
    assert Probe(st, Create, window, crit, macos, WalkDirCrate) == Ok(false);
    assert Probe(st, Modify, window, crit, macos, WalkDirCrate) == Ok(true);
    assert Annotate(st, window, crit, macos, WalkDirCrate) == Ok("" + "" + "m");
    assert "" + "" + "m" == "m";
  }

  lemma SampleSteps()
    ensures FileSteps(259200, Criteria(false, false, true), false)(AVisit) == Ok(Some("/data/keep/a.txt (m)"))
    ensures FileSteps(259200, Criteria(false, false, true), false)(HiddenVisit) == Ok(Some("/data/.hidden (m)"))
    ensures FileSteps(259200, Criteria(false, false, true), false)(KeepVisit) == Ok(None)
    ensures FileSteps(259200, Criteria(false, false, true), false)(RootVisit) == Ok(None)
  {
    RecentlyModifiedFile(AVisit, 259200, false);
    assert Line("/data/keep/a.txt", "m") == "/data/keep/a.txt (m)";
    RecentlyModifiedFile(HiddenVisit, 259200, false);
    assert Line("/data/.hidden", "m") == "/data/.hidden (m)";
  }

  lemma SampleRun(hiddenKept: bool)
    ensures Run([RootVisit] + (if hiddenKept then [HiddenVisit] else []) + [KeepVisit, AVisit],
                FileSteps(259200, Criteria(false, false, true), false))
            == Printed((if hiddenKept then ["/data/.hidden (m)"] else []) + ["/data/keep/a.txt (m)"], None)
  {
    var step := FileSteps(259200, Criteria(false, false, true), false);
    SampleSteps();
    RunCons(AVisit, [], step);
    assert [AVisit] + [] == [AVisit];
    RunCons(KeepVisit, [AVisit], step);
    assert [KeepVisit] + [AVisit] == [KeepVisit, AVisit];
    var tail := (if hiddenKept then [HiddenVisit] else []) + [KeepVisit, AVisit];
    if hiddenKept {
      RunCons(HiddenVisit, [KeepVisit, AVisit], step);
    } else {
      assert tail == [KeepVisit, AVisit];
    }
    RunCons(RootVisit, tail, step);
    assert [RootVisit] + (if hiddenKept then [HiddenVisit] else []) + [KeepVisit, AVisit] == [RootVisit] + tail;
  }

  /** Runs the sample scan with a filter that keeps `data`, `keep` and `a.txt` and
      rejects `skip_me`; `hiddenKept` says whether it keeps `.hidden`. */
  lemma SampleScan(keep: string -> bool, hiddenKept: bool)
    requires keep("data") && keep("keep") && keep("a.txt") && !keep("skip_me")
    requires keep(".hidden") == hiddenKept
    ensures Scan(Sample, "/data", Num(3.0), Criteria(false, false, true), false, keep)
            == Printed((if hiddenKept then ["/data/.hidden (m)"] else []) + ["/data/keep/a.txt (m)"], None)
  {
    SampleWalk(keep, hiddenKept);
    assert CeilWindow(Num(3.0)) == 259200;
    SampleRun(hiddenKept);
  }

  /** Three days, modification time only, hidden flag on, `skip_me` skipped: as
      written, `.hidden` is printed because the hidden test keeps it. */
  lemma SampleAsWritten()
    ensures FindMatching(Sample, "/data", Num(3.0), Criteria(false, false, true), ["skip_me"], true, false)
            == Printed(["/data/.hidden (m)", "/data/keep/a.txt (m)"], None)
  {
    var keep := Keep(["skip_me"], true);
    assert keep("data") && keep("keep") && keep("a.txt") && !keep("skip_me") && keep(".hidden");
    SampleScan(keep, true);
  }

  /** The same run with the intended filter prints only `/data/keep/a.txt (m)`. */
  lemma SampleIntended()
    ensures FindMatchingIntended(Sample, "/data", Num(3.0), Criteria(false, false, true), ["skip_me"], true, false)
            == Printed(["/data/keep/a.txt (m)"], None)
  {
    var keep := KeepIntended(["skip_me"], true);
    assert keep("data") && keep("keep") && keep("a.txt") && !keep("skip_me") && !keep(".hidden");
    SampleScan(keep, false);
  }
}
