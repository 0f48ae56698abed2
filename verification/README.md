# dir-ageism in Dafny

`amble` walks a directory tree and reports files whose access, creation or
modification time is younger than a given number of days. Each reported line
has the form `<path> (<meta>)`, where `<meta>` holds `a`, `c`, `m` for the
criteria that hold. This project models the per-entry decision logic of the
tool and its walks over an abstract directory tree:

- **`Errors`** (`errors.dfy`): the `AmbleError` variants, their display text
  and the `From` conversions.
- **`Recency`** (`recency.dfy`): the `report_*` helpers, the day window and the
  annotation builder. It also defines the output line and a reader that takes
  the line apart again.
- **`Filters`** (`filters.dfy`): `matches_list` and `is_hidden` as the
  walkdir-based variants write them.
- **`Tree`** (`tree.dfy`): a directory tree datatype with three walks:
  - the full pre-order walk;
  - walkdir's `filter_entry` walk, which drops a rejected entry and everything
    beneath it;
  - the ignore crate's walk, which applies the crate's own filter to every entry
    below the start directory and whose callback may answer `Skip` for a
    directory.

  Walker errors are `Broken` nodes at the position where the walker yields them.
- **`Sequential`** (`sequential.dfy`): the single-threaded
  `for entry in walker { … ? … }` loop. Each entry prints at most one line, and
  the first failing predicate ends the loop with its error.
- **`SyncWalk`**, **`Sync`**, **`Lib`**: the three single-threaded variants.
  - `src/syncwalk.rs` uses f32 days, a skip list and a hidden flag.
  - `src/sync.rs` uses u8 days and a skip list.
  - `src/lib.rs` is the earliest variant. It has a short-circuit `||` of the
    predicates, no file-type test, and prints base names.
- **`AsyncWalk`** (`asyncwalk.dfy`): the `AsyncSearch` builder, `process_entry`
  and the callback that routes results to the match and error channels. The
  walk applies the crate's hidden filter, and the parallel run is the multiset
  of what the visited entries send.
- **`Agreement`** (`agreement.dfy`): with an empty skip list and hidden entries
  allowed, the sequential and the parallel variants report the same lines up to
  order when the sequential run ends without error. (When a predicate fails, the
  sequential loop stops at that entry, while the parallel callback sends the error
  and goes on.) With hidden entries ignored they differ, because of the sequential filter
  at src/syncwalk.rs:60; with that filter corrected they agree again, provided
  the start directory is not itself hidden.
- **`Amble`** (`amble.dfy`): argument validation, criteria defaulting and the
  choice of search in `main`.

The following are parameters of the model:

- the clock and the metadata system calls: each timestamp is a `Reading`, either
  an age in whole seconds, an io error, or a clock that is behind the timestamp;
- the `#[cfg(target_os = "macos")]` gate, a boolean (`macos` / `createGate`);
- whether the start directory exists;
- the tree found at the start directory.

`days` is an f32 modelled as a real number or NaN. The window
`ceil(86400 * days) as u64` is computed exactly on reals, with the saturating
cast written out.

## Model

| member | source | states |
|---|---|---|
| Errors.ParseDisplay | src/errors.rs:5-18 | each variant displays as its tag (`IoError`, `SystemTimeError`, `WalkDir`, `IgnoreError`, `UnexpectedResult`), `": "` and its message, and that text reads back to the same variant and message |
| Errors.Display | src/errors.rs:5-18 | the displayed text is the variant's tag, `": "`, then the message unchanged as its suffix; that it reads back is `Errors.ParseDisplay` |
| Errors.DisplayInjective | src/errors.rs:5-18 | two errors with the same displayed text are the same error |
| Errors.Convert | src/errors.rs:21-43 | an io, clock, walkdir or ignore error converts to its own variant carrying its text unchanged, never to `UnexpectedResult` |
| Errors.ConvertInjective | src/errors.rs:21-43 | distinct foreign errors convert to distinct values, and distinct foreign kinds to distinct display tags |
| Recency.CeilWindow | src/syncwalk.rs:105-109 | the f32 window is the ceiling of 86400·days, saturated into a u64: NaN and non-positive day counts give 0, and a product at or above u64::MAX gives u64::MAX |
| Recency.DayWindow | src/sync.rs:89-93 | the u8 window is a whole number of days: 86400·days seconds, within a u64 |
| Recency.WholeDaysAgree | src/lib.rs:52-56 | for a whole number of days the f32 and u8 windows are equal |
| Recency.AboveMinimumWindowIsPositive | src/constants.rs:6 | a day count above `MIN_DAYS` opens a window of at least one second |
| Recency.Report | src/syncwalk.rs:105-120 | a predicate succeeds exactly when the metadata and the timestamp are readable and the clock is not behind. It then holds iff the age is strictly below the window. A metadata error is wrapped by the walker crate's variant, an unreadable timestamp is an `IoError`, and a clock behind the timestamp is a `SystemTimeError` |
| Recency.Enabled | src/asyncwalk.rs:154-167 | a predicate takes part only when some criterion is set; access and modification take part iff their flag is set, and creation iff its flag is set and the macOS gate holds |
| Recency.Probe | src/asyncwalk.rs:154-167 | a disabled predicate yields false without reading anything; an enabled one holds iff the metadata and its timestamp are readable and younger than the window, and fails iff one of them is not readable, with exactly the error the `report_*` helper returns |
| Recency.BoundaryExcluded | src/syncwalk.rs:106-108 | a timestamp exactly one window old does not match |
| Recency.WiderWindowKeepsMatch | src/syncwalk.rs:106-108 | widening the window never loses a match |
| Recency.Annotate | src/asyncwalk.rs:153-170 | the annotation exists iff every enabled predicate succeeds. It then holds the flags `a`, `c`, `m` in that order, each present iff its predicate is enabled and true. Otherwise the error is that of the first failing predicate, and the predicates before it succeeded. A disabled predicate is never consulted |
| Recency.Emit | src/asyncwalk.rs:172-175 | a line is produced iff the annotation is non-empty; it starts with the path and is three characters longer than path and annotation together |
| Recency.EmitReadsBack | src/asyncwalk.rs:172-175 | a line is produced iff the annotation is non-empty, and the line `<path> (<meta>)` reads back into that path and annotation |
| Recency.ParseLineRoundTrip | src/syncwalk.rs:95-98 | a printed line `<path> (<flags>)` splits back into its path and flags |
| Filters.AnyEquals | src/syncwalk.rs:16-24 | the loop over the list finds a match iff some item equals the name exactly |
| Filters.MatchesList | src/syncwalk.rs:11-25 | `matches_list` holds iff the base name is on the list; it never holds for the empty list |
| Filters.IsHidden | src/syncwalk.rs:31-38 | with the flag off nothing is hidden; with it on, a name is hidden iff it starts with `.` |
| Tree.Walk | src/syncwalk.rs:59-60 | the `filter_entry` walk yields an entry iff it is a walker error or passes the filter, and then yields it first; `Tree.WalkIsFilteredAll` states the whole walk |
| Tree.Descend | src/asyncwalk.rs:254-265 | the ignore-crate walk below the start directory yields an entry iff it is a walker error or passes the crate's filter, and then yields it first |
| Tree.Crawl | src/asyncwalk.rs:254-265 | the ignore-crate walk always yields the start directory first, whatever the filter |
| Tree.CrawlWithoutSkipIsWalk | src/asyncwalk.rs:254-265 | when the callback never answers `Skip` and the start directory passes the filter, the ignore-crate walk is the same filtered walk as walkdir's |
| Tree.CrawlKeepingAllIsAll | src/asyncwalk.rs:145-148 | with neither `Skip` nor a filter, the ignore-crate walk reaches every entry in pre-order |
| Tree.DescendKeeps | src/asyncwalk.rs:254-265 | every entry the ignore-crate walk yields below a directory passes the filter, and so does every directory between them |
| Tree.CrawlKeeps | src/asyncwalk.rs:254-265 | below the start directory the ignore-crate walk yields nothing that fails the filter and nothing beneath a directory that fails it |
| Tree.Filter | src/syncwalk.rs:59-60 | reference for the pruned walk: keeps, in order, exactly the visits whose own name and every directory name above them pass the filter |
| Tree.WalkIsFilteredAll | src/syncwalk.rs:59-60 | the `filter_entry` walk equals the full pre-order walk with every entry below a rejected directory removed, order preserved |
| Tree.PruneExactly | src/sync.rs:46-47 | an entry is yielded iff it is in the tree, passes the filter, and every directory above it passes. Nothing beneath a pruned directory is yielded |
| Tree.DescendWithoutSkipIsWalk | src/asyncwalk.rs:145-148 | if the callback never answers `Skip`, the ignore-crate walk below a directory is walkdir's filtered walk |
| Tree.WalkSameKeep | src/syncwalk.rs:59-60 | two filters that accept the same names give the same walk |
| Tree.WalkKeepingAllIsAll | src/syncwalk.rs:59-60 | a filter that keeps every name leaves the walk complete |
| Sequential.Run | src/syncwalk.rs:59-99 | the loop ends without error iff every entry's step succeeds, and then it prints every step's line in walk order |
| Sequential.RunStopsAtFirstFailure | src/syncwalk.rs:74-93 | a failed run ends with the error of some entry. Every earlier entry succeeded and its line was printed; no later entry was processed |
| Sequential.RunLinesFromSteps | src/syncwalk.rs:95-98 | every printed line is some entry's output; without a failure every entry's output is printed |
| Sequential.FileStep | src/syncwalk.rs:62-93 | walker errors, directories and other non-files are passed over without error. A regular file's step succeeds iff every enabled predicate succeeds |
| Sequential.FileStepLine | src/syncwalk.rs:74-98 | a file prints a line iff some enabled predicate holds, and the line reads back into the file's path and the flags of exactly those predicates |
| SyncWalk.Keep | src/syncwalk.rs:60 | as written, the filter keeps a name iff it is not on the skip list or, with the flag on, starts with `.` |
| SyncWalk.KeepIntended | src/syncwalk.rs:60 | the corrected filter keeps a name iff it is not on the skip list and, with the flag on, does not start with `.` |
| SyncWalk.FindMatching | src/syncwalk.rs:50-99 | with no criterion nothing is printed and the result is Ok. A failure is the error of some regular file's predicate |
| SyncWalk.ScanReportsVisibleFiles | src/syncwalk.rs:59-99 | every printed line belongs to a regular file the filter lets through; without an error, every such file with a true predicate is printed |
| SyncWalk.WithoutHiddenFlagOnlySkipListPrunes | src/syncwalk.rs:59-60 | with `ignore_hidden` off, an entry is pruned iff its name is on the skip list |
| SyncWalk.HiddenNamesAreKept | src/syncwalk.rs:60 | as written, a name starting with `.` always passes the filter with `ignore_hidden` on, even when it is on the skip list |
| SyncWalk.IntendedDropsSkippedAndHidden | src/syncwalk.rs:59-60 | the corrected filter prunes a name iff it is on the skip list or, with the flag on, starts with `.` |
| SyncWalk.SampleAsWritten | src/syncwalk.rs:59-99 | on a sample tree with a hidden file and a skip-listed directory, the code as written prints the hidden file |
| SyncWalk.SampleIntended | src/syncwalk.rs:59-99 | on the same tree the corrected filter prints only the file outside hidden and skipped entries |
| Sync.Keep | src/sync.rs:47 | the filter keeps a name iff it is not on the skip list |
| Sync.FindMatching | src/sync.rs:37-86 | with no criterion nothing is printed; a failure is the error of some regular file's predicate |
| Sync.SkipListedNeverDescended | src/sync.rs:46-84 | every printed line belongs to a regular file that is neither skip-listed nor below a skip-listed directory; without an error, every such matching file is printed |
| Sync.CreateAlwaysConsulted | src/sync.rs:68-72 | the creation predicate is evaluated whenever `create` is set, on every platform, and an unreadable creation time aborts with an `IoError` |
| Lib.Decide | src/lib.rs:30-41 | the entry is reported iff some enabled predicate holds. Evaluation fails iff some predicate fails with no earlier true one; the error is then the first failing predicate's, all earlier ones being false |
| Lib.Step | src/lib.rs:28-46 | walker errors are dropped; any other entry, directories included, prints its base name iff it is reported |
| Lib.FindMatching | src/lib.rs:19-22 | with no criterion nothing is printed and the result is Ok |
| Lib.ReportsEveryRecentEntry | src/lib.rs:25-48 | without an error, the printed names are exactly the base names of the entries of any type for which some enabled predicate holds |
| Lib.AccessHitShortCircuits | src/lib.rs:31-33 | a true access predicate decides the entry before creation and modification are read |
| AsyncWalk.New | src/asyncwalk.rs:70-81 | a new search has 8.0 days, all three criteria, hidden entries ignored, an empty skip list and no thread count |
| AsyncWalk.AsyncSearch.WithStartDir | src/asyncwalk.rs:84-87 | sets the start directory and leaves every other field as it was |
| AsyncWalk.AsyncSearch.WithDays | src/asyncwalk.rs:89-92 | sets the day count and leaves every other field as it was |
| AsyncWalk.AsyncSearch.WithAccess | src/asyncwalk.rs:95-98 | sets the access flag and leaves every other field as it was |
| AsyncWalk.AsyncSearch.WithCreate | src/asyncwalk.rs:101-104 | sets the creation flag and leaves every other field as it was |
| AsyncWalk.AsyncSearch.WithModify | src/asyncwalk.rs:107-110 | sets the modification flag and leaves every other field as it was |
| AsyncWalk.AsyncSearch.WithIgnoreHidden | src/asyncwalk.rs:115-118 | sets the hidden flag and leaves every other field as it was |
| AsyncWalk.AsyncSearch.WithSkip | src/asyncwalk.rs:121-124 | sets the skip list and leaves every other field as it was |
| AsyncWalk.AsyncSearch.WithThreads | src/asyncwalk.rs:127-130 | sets the thread count and leaves every other field as it was |
| AsyncWalk.SettersCommuteAndOverride | src/asyncwalk.rs:84-130 | for any two of the eight setter calls: on different fields they commute, and on the same field the later value wins |
| AsyncWalk.FullChainOverridesDefaults | src/asyncwalk.rs:70-130 | `new` followed by every setter yields exactly the values given, with no default left |
| AsyncWalk.MatchesList | src/asyncwalk.rs:199-213 | as written, `matches_list` never holds: the guard returns for every non-empty list, and the loop over the empty list finds nothing |
| AsyncWalk.SkipListIgnored | src/asyncwalk.rs:199-202 | a directory named on a one-item skip list is not matched, though the walkdir variants match it |
| AsyncWalk.DirState | src/asyncwalk.rs:145-148 | as written, a directory is never answered `Skip` |
| AsyncWalk.IntendedDirState | src/asyncwalk.rs:145-148 | with the corrected list test, a directory is answered `Skip` iff its name is on the skip list |
| AsyncWalk.ProcessEntry | src/asyncwalk.rs:136-179 | the result is never `Skip`. A walker error becomes an `IgnoreError` with its text, and directories and other entries continue silently. A regular file panics iff the access predicate is enabled and the metadata is unreadable. Otherwise it fails iff some enabled predicate fails, and on success it yields a line iff some enabled predicate holds |
| AsyncWalk.DisabledPredicatesNeverFail | src/asyncwalk.rs:154-170 | with only modification time enabled, unreadable access and creation times cannot make a file fail |
| AsyncWalk.Callback | src/asyncwalk.rs:276-291 | a result's line goes to the match channel with its state. An error goes to the error channel as its displayed text, which reads back to the same error, and the walk continues. Nothing is sent to both. A worker panic is the only crash |
| AsyncWalk.FindMatching | src/asyncwalk.rs:220-223 | with no criterion the search returns before any thread starts; otherwise it drains both channels |
| AsyncWalk.CrateKeep | src/asyncwalk.rs:256 | the crate's `hidden(ignore_hidden)` filter rejects a name iff the flag is on and the name starts with `.` |
| AsyncWalk.NeverPrunes | src/asyncwalk.rs:276-291 | as written, the callback never answers `Skip` |
| AsyncWalk.VisitedIsFilteredWalk | src/asyncwalk.rs:254-292 | when the start directory passes the crate's hidden test, the parallel walk is walkdir's walk filtered by that test alone, whatever the skip list |
| AsyncWalk.EveryEntryVisited | src/asyncwalk.rs:145-148 | with hidden entries allowed, the parallel walk visits every entry of the tree, whatever the skip list |
| AsyncWalk.HiddenEntriesNotVisited | src/asyncwalk.rs:261-262 | with hidden entries ignored, no entry below the start directory whose name starts with `.`, and nothing beneath such a directory, reaches the callback |
| AsyncWalk.GatherAppend | src/asyncwalk.rs:276-291 | entries are processed independently: a sequence of entries sends the sum of what its parts send |
| AsyncWalk.GatherAnyOrder | src/asyncwalk.rs:267-292 | any rearrangement of the entries sends the same multisets of lines and errors and the same number of panics |
| AsyncWalk.AnyScheduleSameStreams | src/asyncwalk.rs:267-292 | whatever order the workers take the walked entries in, the run sends exactly what processing them one by one in pre-order sends |
| AsyncWalk.EveryOutcomeDelivered | src/asyncwalk.rs:279-289 | every visited entry's line and error reach their channel; one entry's error never removes another's output |
| Agreement.AnnotateCrawlerIrrelevant | src/asyncwalk.rs:182-197 | whether metadata comes from walkdir or the ignore crate changes only how a metadata error is wrapped, never a successful annotation |
| Agreement.EntryAgrees | src/asyncwalk.rs:149-176 | an entry the sequential loop gets past sends, in the parallel walk, exactly the line the loop prints, and its worker does not panic |
| Agreement.LinesAgree | src/syncwalk.rs:59-99 | over a sequence of entries whose steps succeed, the multiset of sequential lines equals what the parallel callback sends to the match channel |
| Agreement.SequentialAndParallelAgree | src/asyncwalk.rs:218-297 | with an empty skip list and hidden entries allowed, a sequential run without error prints the same lines, up to order, as the parallel run sends, and no worker panics |
| Agreement.HiddenFilesOnlyPrintedBySync | src/syncwalk.rs:60 | with an empty skip list and hidden entries ignored, a recent hidden file below the start directory is printed by the sequential run but never reaches the parallel callback |
| Agreement.IntendedAgreesWithParallel | src/asyncwalk.rs:254-292 | with the corrected sequential filter and an empty skip list, the two variants print the same lines up to order for either hidden setting, provided the start directory is not itself hidden |
| Amble.ResolveCriteria | src/amble.rs:95-106 | after defaulting at least one criterion is set. Flags the user gave pass through unchanged. With none given, access and modification are set, and creation only on macOS |
| Amble.Resolve | src/amble.rs:77-125 | `main` exits without a search iff the directory is missing or the day count is not above `MIN_DAYS` (NaN included). `--sync` selects the synchronous search. The search receives the directory, days, resolved criteria, skip list and hidden flag, and only the asynchronous one receives the thread count |
| Amble.DaysAccepted | src/amble.rs:88 | a day count is accepted iff it is a number above `MIN_DAYS`, so NaN is rejected, and an accepted count opens a window of at least one second |
| Amble.AcceptedDaysOpenAWindow | src/amble.rs:88-91 | every search that `main` starts, synchronous or asynchronous, is given a day count whose window is at least one second |
| Amble.ThreadsOnlyReachAsync | src/amble.rs:108-115 | with `--sync`, the thread count does not affect what `main` does |
| Amble.Execute | src/amble.rs:77-125 | the command exits without searching iff the directory is missing or the day count is rejected; otherwise `--sync` runs the synchronous search, and an asynchronous search always drains its channels, never taking the "no search criteria" return |
| Amble.NoCriteriaBranchUnreachable | src/amble.rs:95-106 | the synchronous finder's "no search criteria" branch is unreachable from `main`: every synchronous search walks the tree through the skip and hidden filter |

## Left out

- Threads, the crossbeam channels, spawning, joining and drop ordering: the parallel run is the multiset of what each visited entry sends, and every schedule is covered by allowing any permutation of the entries.
- Printing to stdout and stderr, the red colouring of errors, and the `println!` of the start directory in src/lib.rs.
- The internals of the walkdir and ignore crates: symlink following, loop detection and the order of children within a directory. The tree and its child order are inputs.
- The ignore crate's ignore-file rules (`.ignore`, `.gitignore`, `.git/info/exclude`, global excludes), which `WalkBuilder` enables by default: the parallel walk applies only the `hidden(ignore_hidden)` filter, so it yields every other entry. The agreement lemmas hold only for trees in which those rules exclude nothing.
- Agreement.SequentialAndParallelAgree: promised only with hidden entries allowed, because with them ignored the two variants as written really differ (`Agreement.HiddenFilesOnlyPrintedBySync`).
- f32 and f64 rounding, and infinities in `days`: the window is computed exactly on reals. `days` is an f32 value taken as the exact real it denotes, and `MIN_DAYS` is the exact value of the f32 literal `0.0000001` (14073749 / 2^47), so the comparison at src/amble.rs:88 is exact.
- The structopt parser: `Opt` is taken as already parsed.
- `entry.file_type().unwrap()` in `process_entry`: it only fails for stdin entries, which a directory walk never yields.
- Lossy UTF-8 conversion of paths and names: names that are not valid UTF-8 never match the skip list in the source, and here every name is a string.
- `Path::join` normalisation: a child's path is its parent's path, `/`, and its name.
- Panics other than the unwrap of the metadata in `report_accessed` (which is modelled, and whose effect on the rest of the walk is not): the `into_string().unwrap()` of a non-UTF-8 directory name in the warning at src/amble.rs:84, the channel `send(..).unwrap()` calls at src/asyncwalk.rs:280 and src/asyncwalk.rs:284, which fail only once a receiver is gone, and the `join().unwrap()` calls at src/asyncwalk.rs:296-297, which fail only if a printing thread panicked.
- src/amble.rs calls a `SyncSearch` builder that src/syncwalk.rs does not define (its `SyncSearch` has no fields and its `find_matching` takes the arguments directly). `Amble.Resolve` passes the resolved arguments to that function, which is evidently what the builder chain means.
- src/traits.rs only declares the `Finder` interface; it is not part of this model.
- Lib.FindMatching: its contract states only the early return; what it prints is stated by `Lib.ReportsEveryRecentEntry`, which needs the run to end without error.

## Findings

| source | as written | input that shows it | evidently intended | confidence | as-written member | corrected member |
|---|---|---|---|---|---|---|
| src/asyncwalk.rs:200 | the guard of `matches_list` returns false for every non-empty list, so no directory is ever skipped | skip list `["target"]` and a directory named `target`: it is walked into | return false only for an empty list, then compare each item with the base name | high; not executed | AsyncWalk.MatchesList, AsyncWalk.DirState, AsyncWalk.SkipListIgnored | Filters.MatchesList, AsyncWalk.IntendedDirState |
| src/syncwalk.rs:60 | the filter keeps an entry when it is not skip-listed OR is hidden, so with `ignore_hidden` on hidden entries are always kept, even skip-listed ones, while the parallel variant drops them | tree `data/{.hidden, keep/a.txt, skip_me/b.txt}`, skip list `["skip_me"]`, `ignore_hidden` on: `/data/.hidden (m)` is printed; with skip list `[]` the parallel variant does not print it | keep an entry only when it is neither skip-listed nor (with the flag on) hidden, exempting the start directory as the ignore crate does (the literal correction would also prune a start directory such as `.`, giving no output for `amble -i .`) | medium; not executed | SyncWalk.Keep, SyncWalk.HiddenNamesAreKept, SyncWalk.SampleAsWritten, Agreement.HiddenFilesOnlyPrintedBySync | SyncWalk.KeepIntended, SyncWalk.FindMatchingIntended, SyncWalk.IntendedDropsSkippedAndHidden, SyncWalk.SampleIntended, Agreement.IntendedAgreesWithParallel |
