/** src/amble.rs `main`: validate the arguments, default the criteria, and hand
    them to the chosen search. Whether the directory exists is an input, and so is
    the platform (`macos`), which stands for the `#[cfg(target_os)]` blocks. */
module Amble {
  import opened Wrappers
  import opened Recency
  import opened Tree
  import Sequential
  import SyncWalk
  import AsyncWalk

  /** The parsed command line. */
  datatype Opt = Opt(
    byAccess: bool,
    byModify: bool,
    byCreate: bool,
    ignore: bool,
    days: F32,
    skip: seq<string>,
    threads: Option<U8>,
    dir: string,
    dirExists: bool,
    sync: bool)

  /** `days > MIN_DAYS` on an f32: false for NaN. */
  function DaysAccepted(days: F32): (ok: bool)
    ensures ok ==> CeilWindow(days) >= 1
    ensures days.NaN? ==> !ok
    ensures days.Num? && days.value > MIN_DAYS ==> ok
    ensures days.Num? && days.value <= MIN_DAYS ==> !ok
  {
    days.Num? && days.value > MIN_DAYS
  }

  /** The criteria `main` passes on: the user's flags when any is given, otherwise
      access and modification, plus creation on macOS only. */
  function ResolveCriteria(opt: Opt, macos: bool): (c: Criteria)
    ensures AnyCriterion(c)
    ensures opt.byAccess || opt.byCreate || opt.byModify ==>
              c.byAccess == opt.byAccess && c.byCreate == opt.byCreate && c.byModify == opt.byModify
    ensures !(opt.byAccess || opt.byCreate || opt.byModify) ==>
              c.byAccess && c.byModify && (c.byCreate <==> macos)
  {
    if !(opt.byAccess || opt.byCreate || opt.byModify) then Criteria(true, macos, true)
    else Criteria(opt.byAccess, opt.byCreate, opt.byModify)
  }

  /** The arguments of the synchronous search; it takes no thread count. */
  datatype SyncArgs = SyncArgs(startDir: string, days: F32, crit: Criteria, skip: seq<string>, ignoreHidden: bool)

  /** What `main` decides to do: print a warning and return Ok, or start a search. */
  datatype Plan = Exit | RunSync(args: SyncArgs) | RunAsync(search: AsyncWalk.AsyncSearch)

  /** `main` up to the call of `find_matching`. The asynchronous search is built by
      the same setter chain as the source. */
  function Resolve(opt: Opt, macos: bool): (p: Plan)
    ensures p.Exit? <==> !opt.dirExists || !DaysAccepted(opt.days)
    ensures p.RunSync? <==> !p.Exit? && opt.sync
    ensures p.RunSync? ==>
              p.args == SyncArgs(opt.dir, opt.days, ResolveCriteria(opt, macos), opt.skip, opt.ignore)
    ensures p.RunAsync? ==>
              p.search.startDir == opt.dir && p.search.days == opt.days &&
              p.search.Crit() == ResolveCriteria(opt, macos) &&
              p.search.skip == opt.skip && p.search.ignoreHidden == opt.ignore &&
              p.search.threads == opt.threads
  {
    if !opt.dirExists then Exit
    else if !DaysAccepted(opt.days) then Exit
    else
      var c := ResolveCriteria(opt, macos);
      if opt.sync then RunSync(SyncArgs(opt.dir, opt.days, c, opt.skip, opt.ignore))
      else
        RunAsync(AsyncWalk.New(opt.dir).WithDays(opt.days)
                                       .WithAccess(c.byAccess)
                                       .WithCreate(c.byCreate)
                                       .WithModify(c.byModify)
                                       .WithSkip(opt.skip)
                                       .WithIgnoreHidden(opt.ignore)
                                       .WithThreads(opt.threads))
  }

  /** Every search `main` starts, synchronous or asynchronous, has a window of at
      least one second. */
  lemma AcceptedDaysOpenAWindow(opt: Opt, macos: bool)
    requires !Resolve(opt, macos).Exit?
    ensures CeilWindow(opt.days) >= 1
    ensures Resolve(opt, macos).RunSync? ==> CeilWindow(Resolve(opt, macos).args.days) >= 1
    ensures Resolve(opt, macos).RunAsync? ==> CeilWindow(Resolve(opt, macos).search.days) >= 1
  {
    AboveMinimumWindowIsPositive(opt.days);
  }

  /** The thread count reaches only the asynchronous search. */
  lemma ThreadsOnlyReachAsync(opt: Opt, macos: bool, threads: Option<U8>)
    requires opt.sync
    ensures Resolve(opt.(threads := threads), macos) == Resolve(opt, macos)
  {
  }

  /** The whole command over the tree found at `opt.dir`. Since `main` always
      resolves at least one criterion, an asynchronous search it starts never takes
      the "no search criteria" early return. */
  datatype Ran = Exited | Synced(printed: Sequential.Printed) | Spawned(run: AsyncWalk.AsyncRun)

  function Execute(opt: Opt, macos: bool, root: Node): (r: Ran)
    ensures r.Exited? <==> !opt.dirExists || !DaysAccepted(opt.days)
    ensures r.Synced? <==> !r.Exited? && opt.sync
    ensures r.Spawned? ==> r.run.Drained?
  {
    match Resolve(opt, macos)
    case Exit => Exited
    case RunSync(a) => Synced(SyncWalk.FindMatching(root, a.startDir, a.days, a.crit, a.skip, a.ignoreHidden, macos))
    case RunAsync(s) => Spawned(AsyncWalk.FindMatching(s, root, macos))
  }

  /** The synchronous finder's "no search criteria" branch cannot be reached from
      `main` either: every synchronous search it starts walks the tree with the
      skip and hidden filter. */
  lemma NoCriteriaBranchUnreachable(opt: Opt, macos: bool, root: Node)
    ensures Execute(opt, macos, root).Synced? ==>
              var c := ResolveCriteria(opt, macos);
              Execute(opt, macos, root).printed
              == SyncWalk.Scan(root, opt.dir, opt.days, c, macos, SyncWalk.Keep(opt.skip, opt.ignore))
  {
  }
}
