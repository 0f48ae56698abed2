/** How the sequential walkdir variant and the parallel ignore-crate variant relate.
    With an empty skip list and hidden entries allowed, the walkdir filter keeps
    everything and the parallel walk visits everything, so when the sequential run
    does not stop early both print the same lines, up to order. With hidden entries
    ignored, only the intended walkdir filter agrees with the parallel walk. */
module Agreement {
  import opened Wrappers
  import opened Errors
  import opened Recency
  import opened Tree
  import opened Sequential
  import SyncWalk
  import AsyncWalk

  /** Whether a time is read through walkdir or the ignore crate changes only how a
      metadata error is wrapped, never a successful answer. */
  lemma ProbeCrawlerIrrelevant(st: Stamps, f: Field, window: nat, crit: Criteria, gate: bool, c1: Crawler, c2: Crawler)
    requires Probe(st, f, window, crit, gate, c1).Ok?
    ensures Probe(st, f, window, crit, gate, c2) == Probe(st, f, window, crit, gate, c1)
  {
  }

  lemma AnnotateCrawlerIrrelevant(st: Stamps, window: nat, crit: Criteria, gate: bool)
    requires Annotate(st, window, crit, gate, WalkDirCrate).Ok?
    ensures Annotate(st, window, crit, gate, IgnoreCrate) == Annotate(st, window, crit, gate, WalkDirCrate)
  {
    ProbeCrawlerIrrelevant(st, Access, window, crit, gate, WalkDirCrate, IgnoreCrate);
    ProbeCrawlerIrrelevant(st, Create, window, crit, gate, WalkDirCrate, IgnoreCrate);
    ProbeCrawlerIrrelevant(st, Modify, window, crit, gate, WalkDirCrate, IgnoreCrate);
  }

  /** An entry the sequential loop gets past sends to the match channel exactly the
      line the loop prints, and does not crash its worker. */
  lemma EntryAgrees(v: Visit, window: nat, crit: Criteria, skip: seq<string>, macos: bool)
    requires FileStep(v, window, crit, macos).Ok?
    ensures AsyncWalk.Outcome(v, AsyncWalk.Params(window, crit, skip, macos)).matches
            == AsyncWalk.Bag(FileStep(v, window, crit, macos).value)
    ensures AsyncWalk.Outcome(v, AsyncWalk.Params(window, crit, skip, macos)).panics == 0
  {
    if v.node.File? {
      var st := v.node.stamps;
      assert Probe(st, Access, window, crit, macos, WalkDirCrate).Ok?;
      assert !AsyncWalk.PanicsOnMetadata(st, crit);
      AnnotateCrawlerIrrelevant(st, window, crit, macos);
    }
  }

  lemma {:induction false} LinesAgree(vs: seq<Visit>, window: nat, crit: Criteria, skip: seq<string>, macos: bool)
    requires forall i :: 0 <= i < |vs| ==> FileStep(vs[i], window, crit, macos).Ok?
    ensures multiset(Lines(vs, FileSteps(window, crit, macos)))
            == AsyncWalk.Collect(vs, AsyncWalk.Params(window, crit, skip, macos)).matches
    ensures AsyncWalk.Collect(vs, AsyncWalk.Params(window, crit, skip, macos)).panics == 0
    decreases |vs|
  {
    if |vs| > 0 {
      var p := AsyncWalk.Params(window, crit, skip, macos);
      EntryAgrees(vs[0], window, crit, skip, macos);
      LinesAgree(vs[1..], window, crit, skip, macos);
      assert AsyncWalk.Collect(vs, p) == AsyncWalk.Plus(AsyncWalk.Outcome(vs[0], p), AsyncWalk.Collect(vs[1..], p));
    }
  }

  /** With no skip list and hidden entries allowed, a sequential run that does not
      stop on an error prints the same lines as the parallel run sends, and no
      parallel worker panics. The ignore crate's ignore-file rules are not modelled:
      the agreement is for trees in which they exclude nothing. With hidden entries
      ignored the two differ; see `HiddenFilesOnlyPrintedBySync`. */
  lemma SequentialAndParallelAgree(root: Node, startDir: string, days: F32, crit: Criteria,
                                   ignoreHidden: bool, macos: bool, threads: Option<U8>)
    requires AnyCriterion(crit)
    requires !ignoreHidden
    requires SyncWalk.FindMatching(root, startDir, days, crit, [], ignoreHidden, macos).failure.None?
    ensures var s := AsyncWalk.AsyncSearch(startDir, days, crit.byAccess, crit.byCreate, crit.byModify,
                                           ignoreHidden, [], threads);
            var r := AsyncWalk.FindMatching(s, root, macos);
            r.Drained? && r.streams.panics == 0 &&
            r.streams.matches == multiset(SyncWalk.FindMatching(root, startDir, days, crit, [], ignoreHidden, macos).lines)
  {
    var s := AsyncWalk.AsyncSearch(startDir, days, crit.byAccess, crit.byCreate, crit.byModify,
                                   ignoreHidden, [], threads);
    var p := AsyncWalk.ParamsOf(s, macos);
    var keep := SyncWalk.Keep([], ignoreHidden);
    forall name
      ensures keep(name)
    {
    }
    WalkKeepingAllIsAll(root, startDir, keep);
    AsyncWalk.EveryEntryVisited(root, startDir, p);
    var vs := All(root, startDir, []);
    var run := Run(vs, FileSteps(CeilWindow(days), crit, macos));
    assert SyncWalk.FindMatching(root, startDir, days, crit, [], ignoreHidden, macos) == run;
    forall i | 0 <= i < |vs|
      ensures FileStep(vs[i], CeilWindow(days), crit, macos).Ok?
    {
      assert FileSteps(CeilWindow(days), crit, macos)(vs[i]).Ok?;
    }
    LinesAgree(vs, CeilWindow(days), crit, [], macos);
  }

  /** As written, with hidden entries ignored and no skip list, the sequential filter
      keeps everything, so a recent hidden file below the start directory is printed
      by the sequential run, while the parallel walk's own hidden filter never hands
      it to the callback. */
  lemma HiddenFilesOnlyPrintedBySync(root: Node, startDir: string, days: F32, crit: Criteria,
                                     macos: bool, threads: Option<U8>, v: Visit)
    requires AnyCriterion(crit)
    requires SyncWalk.FindMatching(root, startDir, days, crit, [], true, macos).failure.None?
    requires v in All(root, startDir, []) && |v.above| > 0 && v.node.File? && "." <= v.node.name
    requires FileStep(v, CeilWindow(days), crit, macos).Ok? && FileStep(v, CeilWindow(days), crit, macos).value.Some?
    ensures FileStep(v, CeilWindow(days), crit, macos).value.value
            in SyncWalk.FindMatching(root, startDir, days, crit, [], true, macos).lines
    ensures var s := AsyncWalk.AsyncSearch(startDir, days, crit.byAccess, crit.byCreate, crit.byModify,
                                           true, [], threads);
            v !in AsyncWalk.Visited(root, startDir, AsyncWalk.ParamsOf(s, macos), s.ignoreHidden)
  {
    var keep := SyncWalk.Keep([], true);
    forall name
      ensures keep(name)
    {
    }
    assert Visible(v, keep);
    SyncWalk.ScanReportsVisibleFiles(root, startDir, days, crit, macos, keep);
    var s := AsyncWalk.AsyncSearch(startDir, days, crit.byAccess, crit.byCreate, crit.byModify,
                                   true, [], threads);
    if v in AsyncWalk.Visited(root, startDir, AsyncWalk.ParamsOf(s, macos), true) {
      AsyncWalk.HiddenEntriesNotVisited(root, startDir, AsyncWalk.ParamsOf(s, macos), v);
      assert false;
    }
  }

  /** With the intended sequential filter and no skip list, the two variants agree
      for either setting of the hidden flag, as long as the start directory itself
      passes the hidden test (the ignore crate never filters the start directory). */
  lemma IntendedAgreesWithParallel(root: Node, startDir: string, days: F32, crit: Criteria,
                                   ignoreHidden: bool, macos: bool, threads: Option<U8>)
    requires AnyCriterion(crit)
    requires root.Broken? || !(ignoreHidden && "." <= root.name)
    requires SyncWalk.FindMatchingIntended(root, startDir, days, crit, [], ignoreHidden, macos).failure.None?
    ensures var s := AsyncWalk.AsyncSearch(startDir, days, crit.byAccess, crit.byCreate, crit.byModify,
                                           ignoreHidden, [], threads);
            var r := AsyncWalk.FindMatching(s, root, macos);
            r.Drained? && r.streams.panics == 0 &&
            r.streams.matches == multiset(SyncWalk.FindMatchingIntended(root, startDir, days, crit, [], ignoreHidden, macos).lines)
  {
    var s := AsyncWalk.AsyncSearch(startDir, days, crit.byAccess, crit.byCreate, crit.byModify,
                                   ignoreHidden, [], threads);
    var p := AsyncWalk.ParamsOf(s, macos);
    var k := AsyncWalk.CrateKeep(ignoreHidden);
    var intended := SyncWalk.KeepIntended([], ignoreHidden);
    forall name
      ensures intended(name) == k(name)
    {
    }
    WalkSameKeep(root, startDir, [], intended, k);
    AsyncWalk.VisitedIsFilteredWalk(root, startDir, p, ignoreHidden);
    var vs := Walk(root, startDir, [], k);
    var run := Run(vs, FileSteps(CeilWindow(days), crit, macos));
    assert SyncWalk.FindMatchingIntended(root, startDir, days, crit, [], ignoreHidden, macos) == run;
    forall i | 0 <= i < |vs|
      ensures FileStep(vs[i], CeilWindow(days), crit, macos).Ok?
    {
      assert FileSteps(CeilWindow(days), crit, macos)(vs[i]).Ok?;
    }
    LinesAgree(vs, CeilWindow(days), crit, [], macos);
  }
}
