/** src/asyncwalk.rs: the builder-configured parallel walk over the ignore crate.
    Each entry goes through `process_entry`; the callback sends lines to a match
    channel and error texts to an error channel. The crate's hidden filter is
    modelled; its ignore-file rules (.ignore, .gitignore) are not, so the crate
    yields every other entry. Threads and channels are not modelled: the run is the
    multiset of what every visited entry sends. */
module AsyncWalk {
  import opened Wrappers
  import opened Errors
  import opened Recency
  import opened Filters
  import opened Tree

  /** The `AsyncSearch` builder's fields. */
  datatype AsyncSearch = AsyncSearch(
    startDir: string,
    days: F32,
    byAccess: bool,
    byCreate: bool,
    byModify: bool,
    ignoreHidden: bool,
    skip: seq<string>,
    threads: Option<U8>)
  {
    function Crit(): Criteria
    {
      Criteria(byAccess, byCreate, byModify)
    }

    /** Each setter replaces its own field and leaves every other field alone. */
    function WithStartDir(d: string): (r: AsyncSearch)
      ensures r.startDir == d && r.(startDir := startDir) == this
    {
      this.(startDir := d)
    }

    function WithDays(d: F32): (r: AsyncSearch)
      ensures r.days == d && r.(days := days) == this
    {
      this.(days := d)
    }

    function WithAccess(b: bool): (r: AsyncSearch)
      ensures r.byAccess == b && r.(byAccess := byAccess) == this
    {
      this.(byAccess := b)
    }

    function WithCreate(b: bool): (r: AsyncSearch)
      ensures r.byCreate == b && r.(byCreate := byCreate) == this
    {
      this.(byCreate := b)
    }

    function WithModify(b: bool): (r: AsyncSearch)
      ensures r.byModify == b && r.(byModify := byModify) == this
    {
      this.(byModify := b)
    }

    function WithIgnoreHidden(b: bool): (r: AsyncSearch)
      ensures r.ignoreHidden == b && r.(ignoreHidden := ignoreHidden) == this
    {
      this.(ignoreHidden := b)
    }

    function WithSkip(s: seq<string>): (r: AsyncSearch)
      ensures r.skip == s && r.(skip := skip) == this
    {
      this.(skip := s)
    }

    function WithThreads(t: Option<U8>): (r: AsyncSearch)
      ensures r.threads == t && r.(threads := threads) == this
    {
      this.(threads := t)
    }
  }

  /** `AsyncSearch::new`: eight days, all three criteria, hidden entries ignored, no
      skip list, the crate's default thread count. */
  function New(startDir: string): (s: AsyncSearch)
    ensures s.startDir == startDir && s.days == Num(8.0)
    ensures AnyCriterion(s.Crit()) && s.byAccess && s.byCreate && s.byModify
    ensures s.ignoreHidden && s.skip == [] && s.threads == None
  {
    AsyncSearch(startDir, Num(8.0), true, true, true, true, [], None)
  }

  /** Setting every field after `new`, as the command does, leaves no default behind. */
  lemma FullChainOverridesDefaults(dir: string, days: F32, a: bool, c: bool, m: bool,
                                   skip: seq<string>, hidden: bool, threads: Option<U8>)
    ensures New(dir).WithDays(days).WithAccess(a).WithCreate(c).WithModify(m)
              .WithSkip(skip).WithIgnoreHidden(hidden).WithThreads(threads)
            == AsyncSearch(dir, days, a, c, m, hidden, skip, threads)
  {
  }

  /** One builder call with its argument. */
  datatype Setting =
    | StartDirTo(dir: string)
    | DaysTo(days: F32)
    | AccessTo(byAccess: bool)
    | CreateTo(byCreate: bool)
    | ModifyTo(byModify: bool)
    | IgnoreHiddenTo(hidden: bool)
    | SkipTo(skip: seq<string>)
    | ThreadsTo(threads: Option<U8>)

  /** The field a setting writes, numbered in declaration order. */
  function FieldOf(x: Setting): nat
  {
    match x
    case StartDirTo(_) => 0
    case DaysTo(_) => 1
    case AccessTo(_) => 2
    case CreateTo(_) => 3
    case ModifyTo(_) => 4
    case IgnoreHiddenTo(_) => 5
    case SkipTo(_) => 6
    case ThreadsTo(_) => 7
  }

  function Apply(s: AsyncSearch, x: Setting): AsyncSearch
  {
    match x
    case StartDirTo(d) => s.WithStartDir(d)
    case DaysTo(d) => s.WithDays(d)
    case AccessTo(b) => s.WithAccess(b)
    case CreateTo(b) => s.WithCreate(b)
    case ModifyTo(b) => s.WithModify(b)
    case IgnoreHiddenTo(b) => s.WithIgnoreHidden(b)
    case SkipTo(k) => s.WithSkip(k)
    case ThreadsTo(t) => s.WithThreads(t)
  }

  /** For any two builder calls: on different fields they commute, and on the same
      field the later one wins. */
  lemma SettersCommuteAndOverride(s: AsyncSearch, x: Setting, y: Setting)
    ensures FieldOf(x) != FieldOf(y) ==> Apply(Apply(s, x), y) == Apply(Apply(s, y), x)
    ensures FieldOf(x) == FieldOf(y) ==> Apply(Apply(s, x), y) == Apply(s, y)
  {
  }

  /** The ignore crate's verdict on a directory. */
  datatype WalkState = Continue | Skip | Quit

  /** What a call of `process_entry` did: it returned its Result, or it panicked on
      the `unwrap` of `report_accessed`. */
  datatype Attempt =
    | Returned(result: Result<(WalkState, Option<string>), AmbleError>)
    | Panicked

  /** `matches_list` as written: the guard returns false for every non-empty list,
      and the loop is only reached for the empty list, where it finds nothing. */
  function MatchesList(name: string, list: seq<string>): (r: bool)
    ensures !r
  {
    if |list| != 0 then false else AnyEquals(name, list)
  }

  /** A skip-listed directory is not skipped: the counterexample to the guard. */
  lemma SkipListIgnored()
    ensures !MatchesList("target", ["target"])
    ensures Filters.MatchesList("target", ["target"])
  {
  }

  /** The directory branch of `process_entry` as written: a directory is never
      skipped. */
  function DirState(name: string, skip: seq<string>): (s: WalkState)
    ensures s == Continue
  {
    if |skip| != 0 && MatchesList(name, skip) then Skip else Continue
  }

  /** The same branch with the list test the other variants use: a directory is
      skipped exactly when its name is on the skip list. */
  function IntendedDirState(name: string, skip: seq<string>): (s: WalkState)
    ensures s == Skip <==> name in skip
    ensures s != Quit
  {
    if |skip| != 0 && Filters.MatchesList(name, skip) then Skip else Continue
  }

  /** `report_accessed` unwraps the metadata; the other two propagate its error. */
  predicate PanicsOnMetadata(st: Stamps, crit: Criteria)
  {
    crit.byAccess && st.metaError.Some?
  }

  /** `process_entry`: a walker error becomes an `IgnoreError`; a directory is skipped
      only when `matches_list` says so, which never happens; a regular file yields its
      line when its annotation is non-empty; anything else continues silently. */
  function ProcessEntry(v: Visit, window: nat, crit: Criteria, skip: seq<string>, macos: bool): (a: Attempt)
    ensures a.Returned? && a.result.Ok? ==> a.result.value.0 == Continue
    ensures v.node.Broken? ==> a == Returned(Err(IgnoreError(v.node.msg)))
    ensures v.node.Dir? || v.node.Other? ==> a == Returned(Ok((Continue, None)))
    ensures a.Panicked? <==> v.node.File? && PanicsOnMetadata(v.node.stamps, crit)
    ensures v.node.File? && a.Returned? ==>
              (a.result.Err? <==> exists f :: Probe(v.node.stamps, f, window, crit, macos, IgnoreCrate).Err?)
    ensures v.node.File? && a.Returned? && a.result.Ok? ==>
              (a.result.value.1.Some? <==> exists f :: Probe(v.node.stamps, f, window, crit, macos, IgnoreCrate) == Ok(true))
  {
    match v.node
    case Broken(msg) => Returned(Err(Convert(Ignore(msg))))
    case Dir(name, _, _) => Returned(Ok((DirState(name, skip), None)))
    case File(_, st) =>
      if PanicsOnMetadata(st, crit) then Panicked
      else (
        match Annotate(st, window, crit, macos, IgnoreCrate)
        case Err(e) => Returned(Err(e))
        case Ok(meta) => Returned(Ok((Continue, Emit(v.path, meta)))))
    case Other(_, _) => Returned(Ok((Continue, None)))
  }

  /** A disabled predicate is never evaluated: with modification time as the only
      criterion, unreadable access and creation times cannot make a file fail. */
  lemma DisabledPredicatesNeverFail(v: Visit, window: nat, skip: seq<string>, macos: bool)
    requires v.node.File? && v.node.stamps.metaError.None? && v.node.stamps.modified.Age?
    ensures ProcessEntry(v, window, Criteria(false, false, true), skip, macos).Returned?
    ensures ProcessEntry(v, window, Criteria(false, false, true), skip, macos).result.Ok?
  {
    var st := v.node.stamps;
    var crit := Criteria(false, false, true);
    assert Probe(st, Access, window, crit, macos, IgnoreCrate).Ok?;
    assert Probe(st, Create, window, crit, macos, IgnoreCrate).Ok?;
    assert Probe(st, Modify, window, crit, macos, IgnoreCrate).Ok?;
  }

  /** What one callback invocation sends and returns; `Crashed` when the worker
      panicked. */
  datatype Sent =
    | Sent(state: WalkState, toMatches: Option<string>, toErrors: Option<string>)
    | Crashed

  /** The closure handed to `walker.run`: a line goes to the match channel with the
      entry's state, an error's text goes to the error channel and the walk
      continues. */
  function Callback(a: Attempt): (s: Sent)
    ensures s.Crashed? <==> a.Panicked?
    ensures s.Sent? ==> !(s.toMatches.Some? && s.toErrors.Some?)
    ensures a.Returned? && a.result.Err? ==>
              s.Sent? && s.state == Continue && s.toErrors.Some? && Parse(s.toErrors.value) == Some(a.result.error)
    ensures a.Returned? && a.result.Ok? ==> s == Sent(a.result.value.0, a.result.value.1, None)
  {
    match a
    case Panicked => Crashed
    case Returned(Ok((state, line))) => Sent(state, line, None)
    case Returned(Err(e)) =>
      ParseDisplay(e);
      Sent(Continue, None, Some(Display(e)))
  }

  /** What both channels received, and how many workers panicked. */
  datatype Streams = Streams(matches: multiset<string>, errors: multiset<string>, panics: nat)

  function Plus(x: Streams, y: Streams): Streams
  {
    Streams(x.matches + y.matches, x.errors + y.errors, x.panics + y.panics)
  }

  function Bag(o: Option<string>): multiset<string>
  {
    if o.Some? then multiset{o.value} else multiset{}
  }

  function Delivered(s: Sent): Streams
  {
    match s
    case Crashed => Streams(multiset{}, multiset{}, 1)
    case Sent(_, m, e) => Streams(Bag(m), Bag(e), 0)
  }

  /** The settings each worker closure copies out of the search. */
  datatype Params = Params(window: nat, crit: Criteria, skip: seq<string>, macos: bool)

  function ParamsOf(s: AsyncSearch, macos: bool): Params
  {
    Params(CeilWindow(s.days), s.Crit(), s.skip, macos)
  }

  /** What visiting one entry sends. */
  function Outcome(v: Visit, p: Params): Streams
  {
    Delivered(Callback(ProcessEntry(v, p.window, p.crit, p.skip, p.macos)))
  }

  /** What a sequence of entries sends, each entry sending `out(v)`. */
  function Gather(vs: seq<Visit>, out: Visit -> Streams): Streams
  {
    if |vs| == 0 then Streams(multiset{}, multiset{}, 0)
    else Plus(out(vs[0]), Gather(vs[1..], out))
  }

  function Outcomes(p: Params): Visit -> Streams
  {
    v => Outcome(v, p)
  }

  /** Everything sent while visiting `vs`, in whatever order the workers took them. */
  function Collect(vs: seq<Visit>, p: Params): Streams
  {
    Gather(vs, Outcomes(p))
  }

  /** The walk's prune decision: the callback returned `Skip`. */
  function Prunes(p: Params): Visit -> bool
  {
    v => Callback(ProcessEntry(v, p.window, p.crit, p.skip, p.macos)) == Sent(Skip, None, None)
  }

  /** The crate's own filter as `hidden(ignore_hidden)` configures it: with the
      flag on, a name starting with `.` is rejected. */
  function CrateKeep(ignoreHidden: bool): (k: string -> bool)
    ensures forall name :: k(name) <==> !(ignoreHidden && "." <= name)
  {
    name => !IsHidden(name, ignoreHidden)
  }

  /** The entries the parallel walk hands to the callback, flattened in pre-order. */
  function Visited(root: Node, startDir: string, p: Params, ignoreHidden: bool): seq<Visit>
  {
    Crawl(root, startDir, CrateKeep(ignoreHidden), Prunes(p))
  }

  /** The result of `find_matching`: without a criterion it returns before any
      thread starts; otherwise both channels are drained to the end. */
  datatype AsyncRun = NotStarted | Drained(streams: Streams)

  function FindMatching(s: AsyncSearch, root: Node, macos: bool): (r: AsyncRun)
    ensures r.NotStarted? <==> !AnyCriterion(s.Crit())
  {
    if !AnyCriterion(s.Crit()) then NotStarted
    else Drained(Collect(Visited(root, s.startDir, ParamsOf(s, macos), s.ignoreHidden), ParamsOf(s, macos)))
  }

  /** The callback never answers `Skip`. */
  lemma NeverPrunes(p: Params)
    ensures forall v :: !Prunes(p)(v)
  {
    forall v
      ensures !Prunes(p)(v)
    {
      var a := ProcessEntry(v, p.window, p.crit, p.skip, p.macos);
      if a.Returned? && a.result.Ok? {
        assert a.result.value.0 == Continue;
      }
    }
  }

  /** Since no directory is ever skipped, whatever the skip list, the parallel walk
      is walkdir's walk filtered by the crate's hidden test alone, provided the start
      directory itself passes that test. */
  lemma VisitedIsFilteredWalk(root: Node, startDir: string, p: Params, ignoreHidden: bool)
    requires root.Broken? || CrateKeep(ignoreHidden)(root.name)
    ensures Visited(root, startDir, p, ignoreHidden) == Walk(root, startDir, [], CrateKeep(ignoreHidden))
  {
    NeverPrunes(p);
    CrawlWithoutSkipIsWalk(root, startDir, CrateKeep(ignoreHidden), Prunes(p));
  }

  /** With hidden entries allowed, the parallel walk reaches every entry of the tree,
      skip list or not. */
  lemma EveryEntryVisited(root: Node, startDir: string, p: Params)
    ensures Visited(root, startDir, p, false) == All(root, startDir, [])
  {
    NeverPrunes(p);
    CrawlKeepingAllIsAll(root, startDir, CrateKeep(false), Prunes(p));
  }

  /** With hidden entries ignored, no entry below the start directory whose name
      starts with `.` is handed to the callback, and nothing beneath such a
      directory. */
  lemma HiddenEntriesNotVisited(root: Node, startDir: string, p: Params, v: Visit)
    requires v in Visited(root, startDir, p, true) && |v.above| > 0
    ensures v.node.Broken? || !("." <= v.node.name)
    ensures forall i :: 1 <= i < |v.above| ==> !("." <= v.above[i])
  {
    CrawlKeeps(root, startDir, CrateKeep(true), Prunes(p));
  }

  /** Entries are processed independently: what a sequence of entries sends is what
      its parts send, so one entry's error never removes another entry's output. */
  lemma {:induction false} GatherAppend(a: seq<Visit>, b: seq<Visit>, out: Visit -> Streams)
    ensures Gather(a + b, out) == Plus(Gather(a, out), Gather(b, out))
    decreases |a|
  {
    if |a| == 0 {
      assert a + b == b;
    } else {
      assert (a + b)[1..] == a[1..] + b;
      GatherAppend(a[1..], b, out);
    }
  }

  lemma SplitAt(b: seq<Visit>, j: nat)
    requires j < |b|
    ensures b == (b[..j] + [b[j]]) + b[j + 1..]
  {
  }

  lemma GatherOne(x: Visit, out: Visit -> Streams)
    ensures Gather([x], out) == out(x)
  {
    assert [x][1..] == [];
  }

  /** Taking one entry out of the middle of a sequence. */
  lemma GatherWithout(b: seq<Visit>, j: nat, out: Visit -> Streams)
    requires j < |b|
    ensures Gather(b, out) == Plus(out(b[j]), Gather(b[..j] + b[j + 1..], out))
  {
    var l, x, r := b[..j], b[j], b[j + 1..];
    SplitAt(b, j);
    GatherAppend(l + [x], r, out);
    GatherAppend(l, [x], out);
    GatherAppend(l, r, out);
    GatherOne(x, out);
  }

  lemma MultisetWithout(a: seq<Visit>, b: seq<Visit>, j: nat)
    requires multiset(a) == multiset(b) && 0 < |a| && j < |b| && b[j] == a[0]
    ensures multiset(a[1..]) == multiset(b[..j] + b[j + 1..])
  {
    assert a == [a[0]] + a[1..];
    assert b == b[..j] + [b[j]] + b[j + 1..];
    assert multiset(a[1..]) == multiset(a) - multiset{a[0]};
    assert multiset(b[..j] + b[j + 1..]) == multiset(b) - multiset{b[j]};
  }

  /** The order in which the workers take the entries does not matter: any
      rearrangement sends the same multisets. */
  lemma {:induction false} GatherAnyOrder(a: seq<Visit>, b: seq<Visit>, out: Visit -> Streams)
    requires multiset(a) == multiset(b)
    ensures Gather(a, out) == Gather(b, out)
    decreases |a|
  {
    if |a| == 0 {
      assert |b| == |multiset(b)| == 0;
    } else {
      assert a[0] in multiset(b);
      var j :| 0 <= j < |b| && b[j] == a[0];
      MultisetWithout(a, b, j);
      GatherAnyOrder(a[1..], b[..j] + b[j + 1..], out);
      GatherWithout(b, j, out);
    }
  }

  /** The parallel run, whatever the schedule, sends exactly what processing the
      walked entries one by one in pre-order sends. */
  lemma AnyScheduleSameStreams(s: AsyncSearch, root: Node, macos: bool, order: seq<Visit>)
    requires AnyCriterion(s.Crit())
    requires multiset(order) == multiset(Visited(root, s.startDir, ParamsOf(s, macos), s.ignoreHidden))
    ensures FindMatching(s, root, macos) == Drained(Collect(order, ParamsOf(s, macos)))
  {
    GatherAnyOrder(order, Visited(root, s.startDir, ParamsOf(s, macos), s.ignoreHidden), Outcomes(ParamsOf(s, macos)));
  }

  /** Every visited entry's output reaches its channel. */
  lemma {:induction false} EveryOutcomeDelivered(vs: seq<Visit>, out: Visit -> Streams, v: Visit)
    requires v in vs
    ensures out(v).matches <= Gather(vs, out).matches
    ensures out(v).errors <= Gather(vs, out).errors
    ensures out(v).panics <= Gather(vs, out).panics
    decreases |vs|
  {
    if vs[0] != v {
      assert v in vs[1..];
      EveryOutcomeDelivered(vs[1..], out, v);
    }
  }
}
