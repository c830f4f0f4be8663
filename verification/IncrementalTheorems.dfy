/** Incremental reindexing against full reindexing: when the two leave the same rows, what the
    sweep for unreported renames takes, and what a whole series of incremental runs amounts to. */
module IncrementalTheorems {
  import opened Wrappers
  import opened Paths
  import opened Exclude
  import opened PathRows
  import opened Indexer
  import opened IndexTheorems

  // ------------------------------------------------------------ settled rows

  /** The rows a full run leaves for a path of a readable disk: a fixed point of visiting it again. */
  ghost predicate Settled(g: Registry, rules: Rules, p: string, d: Disk, r: Rows) {
    if p in d && !IsExcluded(rules, p) then
      r == Kept(g, p, r) && VisitRows(g, r, p, false, Stable(d[p]), false) == Visit(r)
    else r == NO_ROWS
  }

  lemma FullRunSettles(g: Registry, rules: Rules, r: Rows, p: string, d: Disk, force: bool)
    ensures Settled(g, rules, p, d, FullTarget(g, rules, r, p, d, force))
  {
    hide IsExcluded;
    if p in d && !IsExcluded(rules, p) {
      StableVisits(g, r, p, false, d[p], force);
    }
  }

  /** Visiting new content from settled rows gives settled rows. */
  lemma VisitSettles(g: Registry, p: string, r: Rows, c: Content)
    requires r == Kept(g, p, r)
    ensures VisitRows(g, r, p, false, Stable(c), false).Visit?
    ensures var t := VisitRows(g, r, p, false, Stable(c), false).rows;
      t == Kept(g, p, t) && VisitRows(g, t, p, false, Stable(c), false) == Visit(t)
  {
  }

  /** What a report says is what the disk holds there. */
  ghost predicate Faithful(rules: Rules, d: Disk, report: Report) {
    match report.state
    case IsDir(events) => report.path !in d && IsWalk(rules, d, report.path, events)
    case IsFile(f) => report.path in d && f == Stable(d[report.path])
    case NoStat(_) => false
    case Missing => forall p :: p in d ==> !AtOrUnder(p, report.path)
  }

  /** The report covers `p`: it names it, or a directory above it that is one, or is gone. */
  predicate Covers(report: Report, p: string) {
    p == report.path || (Under(p, report.path) && !report.state.IsFile?)
  }

  /** The disk content of `p` is the same on both disks. */
  predicate Unchanged(d: Disk, d': Disk, p: string) {
    (p in d <==> p in d') && (p in d ==> d[p] == d'[p])
  }

  /** A directory is not a file. */
  ghost predicate TreeShaped(d: Disk) {
    forall p, q :: p in d && q in d ==> !Under(p, q)
  }

  lemma TargetOfUnchanged(g: Registry, rules: Rules, base: Rows, p: string, d: Disk, d': Disk)
    requires Settled(g, rules, p, d, base) && Unchanged(d, d', p)
    ensures FullTarget(g, rules, base, p, d', false) == base
  {
    hide VisitRows, IsExcluded;
  }

  /** A report that covers `p` brings its rows, settled or already up to date, up to date. */
  lemma CoveredReport(g: Registry, rules: Rules, base: Rows, r: Rows, p: string, d: Disk, d': Disk, report: Report)
    requires Settled(g, rules, p, d, base) && (r == base || r == FullTarget(g, rules, base, p, d', false))
    requires Faithful(rules, d', report) && TreeShaped(d') && report.path != "" && Covers(report, p)
    ensures ReportRows(g, rules, r, p, report) == FullTarget(g, rules, base, p, d', false)
  {
    var target, dir := FullTarget(g, rules, base, p, d', false), report.path;
    if IsExcluded(rules, dir) {
      ExcludedBelow(rules, dir, p);
    } else if p in d' && !IsExcluded(rules, p) {
      CoveredFile(g, rules, base, r, p, d, d', report);
    } else {
      hide VisitRows, IsExcluded;
      assert r == NO_ROWS || !IsExcluded(rules, p);
      if report.state.IsDir? {
        WalkRowsAt(g, rules, r, p, d', dir, report.state.events, false);
        WalkSeen(g, rules, d', dir, report.state.events, p);
      }
    }
  }

  lemma CoveredFile(g: Registry, rules: Rules, base: Rows, r: Rows, p: string, d: Disk, d': Disk, report: Report)
    requires Settled(g, rules, p, d, base) && (r == base || r == FullTarget(g, rules, base, p, d', false))
    requires Faithful(rules, d', report) && TreeShaped(d') && report.path != "" && Covers(report, p)
    requires !IsExcluded(rules, report.path) && p in d' && !IsExcluded(rules, p)
    ensures ReportRows(g, rules, r, p, report) == FullTarget(g, rules, base, p, d', false)
  {
    var target, dir := FullTarget(g, rules, base, p, d', false), report.path;
    assert base == Kept(g, p, base);
    VisitSettles(g, p, base, d'[p]);
    VisitSettles(g, p, target, d'[p]);
    hide VisitRows, IsExcluded;
    if report.state.IsDir? {
      WalkRowsAt(g, rules, r, p, d', dir, report.state.events, false);
      WalkSeen(g, rules, d', dir, report.state.events, p);
    }
  }

  /** A report that does not cover `p` leaves its rows alone. */
  lemma UncoveredReport(g: Registry, rules: Rules, r: Rows, p: string, d: Disk, report: Report)
    requires Faithful(rules, d, report) && report.path != "" && !Covers(report, p)
    ensures ReportRows(g, rules, r, p, report) == r
  {
    hide VisitRows, IsExcluded;
    if report.state.IsDir? {
      WalkRowsAt(g, rules, r, p, d, report.path, report.state.events, false);
    }
  }

  predicate AnyCovers(reports: seq<Report>, p: string) {
    exists i :: 0 <= i < |reports| && Covers(reports[i], p)
  }

  lemma {:induction false} ReportsReachTarget(
    g: Registry, rules: Rules, base: Rows, p: string, d: Disk, d': Disk, reports: seq<Report>)
    requires Settled(g, rules, p, d, base) && TreeShaped(d')
    requires forall i :: 0 <= i < |reports| ==> Faithful(rules, d', reports[i]) && reports[i].path != ""
    ensures ReportsRows(g, rules, base, p, reports) ==
            if AnyCovers(reports, p) then FullTarget(g, rules, base, p, d', false) else base
  {
    hide FullTarget, ReportRows, Covers, Faithful, TreeShaped, Settled;
    if reports != [] {
      var n := |reports| - 1;
      var r := ReportsRows(g, rules, base, p, reports[..n]);
      ReportsReachTarget(g, rules, base, p, d, d', reports[..n]);
      if Covers(reports[n], p) {
        CoveredReport(g, rules, base, r, p, d, d', reports[n]);
      } else {
        UncoveredReport(g, rules, r, p, d', reports[n]);
        assert AnyCovers(reports, p) <==> AnyCovers(reports[..n], p) by {
          if i :| 0 <= i < |reports| && Covers(reports[i], p) { assert reports[..n][i] == reports[i]; }
        }
      }
    }
  }

  /** Files on disk, and the directories above them, are found there. */
  ghost predicate SeesDisk(onDisk: string -> bool, d: Disk) {
    forall p, q :: p in d && AtOrUnder(p, q) ==> onDisk(q)
  }

  /** The rename sweep only takes what is not on disk. */
  lemma RenameSweepSafe(t: Tables, created: seq<string>, onDisk: string -> bool, d: Disk, p: string)
    requires SeesDisk(onDisk, d) && RenamedAway(t, created, onDisk, p)
    ensures p !in d
  {
    hide SameHash, ChildOf, Stored, RenamedDirectory;
    assert AtOrUnder(p, p);
    if p !in Vanished(t, created, onDisk) {
      var q :| q in OldDirs(t, created, onDisk) && AtOrUnder(p, q);
      assert !onDisk(q);
    }
  }

  // ------------------------------------------------------------ in step with a disk

  /** The rows of `t` are those of disk `d`. */
  ghost predicate InStep(g: Registry, rules: Rules, d: Disk, t: Tables) {
    forall p :: Settled(g, rules, p, d, At(t, p))
  }

  /** That is: a full run over `d` changes nothing. */
  lemma InStepIff(g: Registry, rules: Rules, d: Disk, t: Tables, events: seq<Event>, t': Tables)
    requires IsWalk(rules, d, "", events) && Ran(g, FullRun(rules, events, false), t, t')
    ensures InStep(g, rules, d, t) <==> forall p :: At(t', p) == At(t, p)
    ensures InStep(g, rules, d, t')
  {
    hide IsWalk, FullRows, Settled, At, FullTarget;
    forall p ensures At(t', p) == FullTarget(g, rules, At(t, p), p, d, false) && Settled(g, rules, p, d, At(t', p)) {
      FullRowsAre(g, rules, At(t, p), p, d, events, false);
      FullRunSettles(g, rules, At(t, p), p, d, false);
    }
    forall p | Settled(g, rules, p, d, At(t, p)) ensures At(t', p) == At(t, p) {
      TargetOfUnchanged(g, rules, At(t, p), p, d, d);
    }
  }

  /** A full run leaves the rows in step with the disk it walked. */
  lemma FullRunInStep(
    g: Registry, rules: Rules, d: Disk, events: seq<Event>, force: bool, t: Tables, t': Tables)
    requires IsWalk(rules, d, "", events) && Ran(g, FullRun(rules, events, force), t, t')
    ensures InStep(g, rules, d, t')
  {
    hide IsWalk, FullRows, Settled, At, FullTarget;
    forall p ensures Settled(g, rules, p, d, At(t', p)) {
      FullRowsAre(g, rules, At(t, p), p, d, events, force);
      FullRunSettles(g, rules, At(t, p), p, d, force);
    }
  }

  /** A batch of reported paths over a readable disk: each report tells what is there. */
  ghost predicate Batch(rules: Rules, d: Disk, reports: seq<Report>, onDisk: string -> bool) {
    && TreeShaped(d) && SeesDisk(onDisk, d)
    && forall i :: 0 <= i < |reports| ==> Faithful(rules, d, reports[i]) && reports[i].path != ""
  }

  /** Such a batch never fails. */
  lemma {:induction false} FaithfulReportsOk(g: Registry, rules: Rules, t: Tables, d: Disk, reports: seq<Report>)
    requires forall i :: 0 <= i < |reports| ==> Faithful(rules, d, reports[i])
    ensures ReportsOk(g, rules, t, reports)
  {
    hide Faithful, ReportOk, RowsAfter;
    if reports != [] {
      var n := |reports| - 1;
      FaithfulReportsOk(g, rules, t, d, reports[..n]);
      FaithfulReportOk(g, rules, RowsAfter(g, rules, t, reports[..n]), d, reports[n]);
    }
  }

  lemma FaithfulReportOk(g: Registry, rules: Rules, rows: string -> Rows, d: Disk, report: Report)
    requires Faithful(rules, d, report)
    ensures ReportOk(g, rules, rows, report)
  {
    hide VisitRows, IsExcluded;
    match report.state
    case IsDir(events) => StableWalkOk(g, rules, rows, d, events);
    case IsFile(f) =>
      StableVisits(g, WalkRows(g, rules, rows(report.path), report.path, [], false), report.path,
                   IsExcluded(rules, report.path), d[report.path], false);
    case NoStat(_) =>
    case Missing =>
  }

  lemma {:induction false} StableWalkOk(g: Registry, rules: Rules, rows: string -> Rows, d: Disk, events: seq<Event>)
    requires forall i :: 0 <= i < |events| ==>
      events[i].AtFile? && events[i].path in d && events[i].found == Stable(d[events[i].path])
    ensures WalkOk(g, rules, rows, events, false)
  {
    hide VisitRows, IsExcluded;
    if events != [] {
      var n := |events| - 1;
      var p := events[n].path;
      StableWalkOk(g, rules, rows, d, events[..n]);
      StableVisits(g, WalkRows(g, rules, rows(p), p, events[..n], false), p, IsExcluded(rules, p), d[p], false);
    }
  }

  // ------------------------------------------------------------ incremental refines full

  /** Every path that changed is excluded, or covered by a report. */
  ghost predicate ChangesCovered(rules: Rules, d: Disk, d': Disk, reports: seq<Report>) {
    forall q :: Unchanged(d, d', q) || IsExcluded(rules, q) || AnyCovers(reports, q)
  }

  /** The rows of every path after such a batch are those of a full run over the new disk. */
  lemma CoveredRunRows(
    g: Registry, rules: Rules, d: Disk, d': Disk, reports: seq<Report>, onDisk: string -> bool,
    mid: Tables, created: seq<string>, t: Tables, t': Tables, p: string)
    requires InStep(g, rules, d, t) && Batch(rules, d', reports, onDisk) && ChangesCovered(rules, d, d', reports)
    requires Ran(g, PathsRun(rules, reports, onDisk, mid, created), t, t')
    ensures At(t', p) == FullTarget(g, rules, At(t, p), p, d', false) && Settled(g, rules, p, d', At(t', p))
  {
    hide ReportsRows, RenamedAway, Faithful, TreeShaped, SeesDisk, VisitRows, AnyCovers;
    var base := At(t, p);
    ReportsReachTarget(g, rules, base, p, d, d', reports);
    FullRunSettles(g, rules, base, p, d', false);
    if Unchanged(d, d', p) { TargetOfUnchanged(g, rules, base, p, d, d'); }
    if RenamedAway(mid, created, onDisk, p) { RenameSweepSafe(mid, created, onDisk, d', p); }
  }

  /** Incremental reindexing refines full reindexing. From rows in step with disk `d`, when every
      path that differs on `d'` is excluded or covered by a report, the rows after the incremental
      run over `d'` are those a full run over `d'` would leave. */
  lemma IncrementalRefinesFull(
    g: Registry, rules: Rules, d: Disk, d': Disk, t: Tables, reports: seq<Report>, onDisk: string -> bool,
    mid: Tables, created: seq<string>, t1: Tables, events: seq<Event>, t2: Tables, p: string)
    requires InStep(g, rules, d, t) && Batch(rules, d', reports, onDisk) && ChangesCovered(rules, d, d', reports)
    requires Ran(g, PathsRun(rules, reports, onDisk, mid, created), t, t1)
    requires IsWalk(rules, d', "", events) && Ran(g, FullRun(rules, events, false), t, t2)
    ensures At(t1, p) == At(t2, p)
  {
    hide InStep, Batch, ChangesCovered, Settled, ReportsRows, RenamedAway, IsWalk, FullRows;
    CoveredRunRows(g, rules, d, d', reports, onDisk, mid, created, t, t1, p);
    FullRowsAre(g, rules, At(t, p), p, d', events, false);
  }

  /** One incremental run all of whose changes are covered. */
  ghost predicate CoveredRun(g: Registry, rules: Rules, d: Disk, d': Disk, run: Run, t: Tables, t': Tables) {
    && run.PathsRun? && run.rules == rules && Batch(rules, d', run.reports, run.onDisk)
    && ChangesCovered(rules, d, d', run.reports) && Ran(g, run, t, t')
  }

  /** A series of such runs over a changing disk. */
  ghost predicate Series(g: Registry, rules: Rules, disks: seq<Disk>, runs: seq<Run>, states: seq<Tables>) {
    && |disks| == |states| == |runs| + 1 && InStep(g, rules, disks[0], states[0])
    && forall i :: 0 <= i < |runs| ==> CoveredRun(g, rules, disks[i], disks[i + 1], runs[i], states[i], states[i + 1])
  }

  /** The same disks, each brought in by a full run. */
  ghost predicate FullSeries(
    g: Registry, rules: Rules, disks: seq<Disk>, walks: seq<seq<Event>>, states: seq<Tables>)
  {
    && |disks| == |states| == |walks| + 1
    && forall i :: 0 <= i < |walks| ==>
         IsWalk(rules, disks[i + 1], "", walks[i]) && Ran(g, FullRun(rules, walks[i], false), states[i], states[i + 1])
  }

  /** After any number of incremental runs the rows are in step with the last disk. */
  lemma {:induction false} SeriesInStep(
    g: Registry, rules: Rules, disks: seq<Disk>, runs: seq<Run>, states: seq<Tables>, k: nat)
    requires Series(g, rules, disks, runs, states) && k < |disks|
    ensures InStep(g, rules, disks[k], states[k])
  {
    hide Batch, ChangesCovered, Settled, ReportsRows, RenamedAway, At, FullTarget;
    if k > 0 {
      SeriesInStep(g, rules, disks, runs, states, k - 1);
      var run := runs[k - 1];
      assert CoveredRun(g, rules, disks[k - 1], disks[k], run, states[k - 1], states[k]);
      forall p ensures Settled(g, rules, p, disks[k], At(states[k], p)) {
        CoveredRunRows(g, rules, disks[k - 1], disks[k], run.reports, run.onDisk, run.mid, run.created,
                       states[k - 1], states[k], p);
      }
    }
  }

  /** And they are those that full runs in their place would have left, for every kind of file. */
  lemma {:induction false} SeriesRefinesFull(
    g: Registry, rules: Rules, disks: seq<Disk>, runs: seq<Run>, states: seq<Tables>,
    walks: seq<seq<Event>>, fulls: seq<Tables>, k: nat, p: string)
    requires Series(g, rules, disks, runs, states) && FullSeries(g, rules, disks, walks, fulls)
    requires k < |disks| && At(fulls[0], p) == At(states[0], p)
    ensures At(fulls[k], p) == At(states[k], p)
  {
    hide Batch, ChangesCovered, InStep, Settled, ReportsRows, RenamedAway, IsWalk, FullRows, At, FullTarget;
    if k > 0 {
      SeriesRefinesFull(g, rules, disks, runs, states, walks, fulls, k - 1, p);
      SeriesInStep(g, rules, disks, runs, states, k - 1);
      var run := runs[k - 1];
      assert CoveredRun(g, rules, disks[k - 1], disks[k], run, states[k - 1], states[k]);
      CoveredRunRows(g, rules, disks[k - 1], disks[k], run.reports, run.onDisk, run.mid, run.created,
                     states[k - 1], states[k], p);
      FullRowsAre(g, rules, At(fulls[k - 1], p), p, disks[k], walks[k - 1], false);
    }
  }

  /** The rows a source path has for a disk. */
  function DiskRows(g: Registry, rules: Rules, p: string, d: Disk): Rows
    requires KindOf(g, p).Source?
  {
    if p in d && !IsExcluded(rules, p) then FreshRows(g, p, d[p].bytes) else NO_ROWS
  }

  /** For source paths rows in step with a disk are the fresh rows of that disk. */
  lemma InStepIsFresh(g: Registry, rules: Rules, d: Disk, r: Rows, p: string)
    requires HashInjective(g) && KindOf(g, p).Source? && CacheOk(g, p, r) && Settled(g, rules, p, d, r)
    ensures r == DiskRows(g, rules, p, d)
  {
    hide VisitRows, CacheOk, IsExcluded;
    if p in d && !IsExcluded(rules, p) { VisitIsFresh(g, r, p, d[p], false); }
  }

  /** So a whole series of incremental runs leaves for them what indexing the last disk from
      nothing would. */
  lemma SeriesIsFresh(
    g: Registry, rules: Rules, disks: seq<Disk>, runs: seq<Run>, states: seq<Tables>, k: nat, p: string)
    requires Series(g, rules, disks, runs, states) && k < |disks|
    requires HashInjective(g) && KindOf(g, p).Source? && forall q :: CacheOk(g, q, At(states[0], q))
    ensures At(states[k], p) == DiskRows(g, rules, p, disks[k])
  {
    hide CacheOk, Settled, CoveredRun, IsExcluded, FreshRows;
    SeriesKeepsCache(g, rules, disks, runs, states, k);
    SeriesInStep(g, rules, disks, runs, states, k);
    InStepIsFresh(g, rules, disks[k], At(states[k], p), p);
  }

  lemma {:induction false} SeriesKeepsCache(
    g: Registry, rules: Rules, disks: seq<Disk>, runs: seq<Run>, states: seq<Tables>, k: nat)
    requires Series(g, rules, disks, runs, states) && k < |disks| && forall q :: CacheOk(g, q, At(states[0], q))
    ensures forall q :: CacheOk(g, q, At(states[k], q))
  {
    hide CacheOk, InStep, Batch, ChangesCovered, Ran, At;
    if k > 0 {
      SeriesKeepsCache(g, rules, disks, runs, states, k - 1);
      assert CoveredRun(g, rules, disks[k - 1], disks[k], runs[k - 1], states[k - 1], states[k]);
      RunKeepsCache(g, runs[k - 1], states[k - 1], states[k]);
    }
  }

  /** An index with any history, brought in by a full run, forced or not, and then kept up by covered
      incremental runs holds for every source path what indexing the last disk from nothing would. */
  lemma IndexStaysFresh(
    g: Registry, past: seq<Run>, before: seq<Tables>, rules: Rules, events: seq<Event>, force: bool,
    disks: seq<Disk>, runs: seq<Run>, states: seq<Tables>, k: nat, p: string)
    requires HashInjective(g) && KindOf(g, p).Source? && History(g, past, before)
    requires |disks| == |states| == |runs| + 1 && k < |disks|
    requires IsWalk(rules, disks[0], "", events) && Ran(g, FullRun(rules, events, force), before[|past|], states[0])
    requires forall i :: 0 <= i < |runs| ==>
      CoveredRun(g, rules, disks[i], disks[i + 1], runs[i], states[i], states[i + 1])
    ensures At(states[k], p) == DiskRows(g, rules, p, disks[k])
  {
    hide CacheOk, InStep, CoveredRun, Ran, IsWalk, At, DiskRows;
    HistoryKeepsCache(g, past, before, |past|);
    RunKeepsCache(g, FullRun(rules, events, force), before[|past|], states[0]);
    FullRunInStep(g, rules, disks[0], events, force, before[|past|], states[0]);
    SeriesIsFresh(g, rules, disks, runs, states, k, p);
  }

  // ------------------------------------------------------------ what the sweep for renames takes

  /** A path is indexed for the first time: reported, on disk, without rows so far, with rows now. */
  ghost predicate NewlyIndexed(g: Registry, rules: Rules, t: Tables, d: Disk, reports: seq<Report>, q: string) {
    && AnyCovers(reports, q) && q in d && !IsExcluded(rules, q)
    && At(t, q) == NO_ROWS && FullTarget(g, rules, NO_ROWS, q, d, false) != NO_ROWS
  }

  /** The stored row of `o` has the content hash of the file now at `q`. */
  ghost predicate SameContent(g: Registry, rules: Rules, t: Tables, d: Disk, o: string, q: string) {
    var file := FullTarget(g, rules, NO_ROWS, q, d, false).file;
    At(t, o).file.Some? && file.Some? && At(t, o).file.value.hash == file.value.hash
  }

  /** A path with rows is neither reported nor on disk. */
  ghost predicate LeftBehind(t: Tables, reports: seq<Report>, onDisk: string -> bool, o: string) {
    !AnyCovers(reports, o) && !onDisk(o) && At(t, o) != NO_ROWS
  }

  /** The file at `o` moved to `q`, and its directory `dir` is gone with it. */
  ghost predicate MovedDir(
    g: Registry, rules: Rules, t: Tables, d: Disk, reports: seq<Report>, onDisk: string -> bool,
    o: string, q: string, dir: string)
  {
    && LeftBehind(t, reports, onDisk, o) && NewlyIndexed(g, rules, t, d, reports, q)
    && SameContent(g, rules, t, d, o, q) && RenamedDirectory(o, q) == Some(dir) && !onDisk(dir)
  }

  ghost predicate LeftBeside(
    g: Registry, rules: Rules, t: Tables, d: Disk, reports: seq<Report>, p: string, q: string)
  {
    NewlyIndexed(g, rules, t, d, reports, q) && (SameContent(g, rules, t, d, p, q) || ChildOf(p, ParentOf(q)))
  }

  /** What the sweep takes, told from the rows before the run, the reports and the disk: a path left
      behind whose content, or whose neighbour, is newly indexed; and all of a directory that moved. */
  ghost predicate SweptAway(
    g: Registry, rules: Rules, t: Tables, d: Disk, reports: seq<Report>, onDisk: string -> bool, p: string)
  {
    || (LeftBehind(t, reports, onDisk, p) && exists q :: LeftBeside(g, rules, t, d, reports, p, q))
    || exists o, q, dir :: MovedDir(g, rules, t, d, reports, onDisk, o, q, dir) && AtOrUnder(p, dir)
  }

  /** A walk that visits a path once creates it exactly when that visit gives it its first rows. */
  lemma {:induction false} CreatedVisitedAt(
    g: Registry, rules: Rules, r: Rows, p: string, events: seq<Event>, i: nat)
    requires i < |events| && events[i].AtFile? && events[i].path == p
    requires forall j :: 0 <= j < |events| && j != i ==> events[j].Fault? || events[j].path != p
    ensures CreatedAt(g, rules, r, p, events, false) <==>
      && (EventSeen(g, rules, events[i]).SeenSource? || EventSeen(g, rules, events[i]).SeenManifest?)
      && !HasRows(r) && HasRows(StepRows(g, rules, r, p, events[i], false))
  {
    hide StepRows, EventSeen, HasRows;
    var n := |events| - 1;
    if i == n {
      WalkUnvisited(g, rules, r, p, events[..n], false);
      WalkVisitedAt(g, rules, r, p, events, false, i);
      NotCreated(g, rules, r, p, events[..n]);
    } else {
      CreatedVisitedAt(g, rules, r, p, events[..n], i);
    }
  }

  lemma {:induction false} NotCreated(g: Registry, rules: Rules, r: Rows, p: string, events: seq<Event>)
    requires forall i :: 0 <= i < |events| ==> events[i].Fault? || events[i].path != p
    ensures !CreatedAt(g, rules, r, p, events, false)
  {
    if events != [] { NotCreated(g, rules, r, p, events[..|events| - 1]); }
  }

  /** For a readable disk: the path is in the walk, had no rows, and the visit gives some. */
  lemma CreatedByWalk(
    g: Registry, rules: Rules, r: Rows, p: string, d: Disk, dir: string, events: seq<Event>)
    requires IsWalk(rules, d, dir, events)
    ensures CreatedAt(g, rules, r, p, events, false) <==>
      && p in d && !IsExcluded(rules, p) && (dir == "" || Under(p, dir))
      && r == NO_ROWS && VisitRows(g, r, p, false, Stable(d[p]), false).rows != NO_ROWS
  {
    hide VisitRows, IsExcluded;
    WalkRowsAt(g, rules, r, p, d, dir, events, false);
    if Visited(events, p) {
      var i :| 0 <= i < |events| && events[i].AtFile? && events[i].path == p;
      forall j | 0 <= j < |events| && j != i ensures events[j].path != p {
        if j < i { assert events[j].path != events[i].path; } else { assert events[i].path != events[j].path; }
      }
      CreatedVisitedAt(g, rules, r, p, events, i);
      StableVisits(g, r, p, false, d[p], false);
    } else {
      NotCreated(g, rules, r, p, events);
    }
  }

  /** One faithful report creates a path exactly when it covers it and gives it its first rows. */
  lemma CreatedByOne(
    g: Registry, rules: Rules, base: Rows, r: Rows, p: string, d: Disk, d': Disk, report: Report)
    requires Settled(g, rules, p, d, base) && (r == base || r == FullTarget(g, rules, base, p, d', false))
    requires Faithful(rules, d', report) && TreeShaped(d') && report.path != ""
    ensures CreatedByReport(g, rules, r, p, report) <==>
      && Covers(report, p) && p in d' && !IsExcluded(rules, p)
      && r == NO_ROWS && FullTarget(g, rules, base, p, d', false) != NO_ROWS
  {
    var dir := report.path;
    FirstRows(g, rules, base, r, p, d, d');
    if IsExcluded(rules, dir) {
      if Covers(report, p) { ExcludedBelow(rules, dir, p); }
    } else {
      hide VisitRows, IsExcluded, Settled, FullTarget;
      match report.state
      case IsDir(events) => CreatedByWalk(g, rules, r, p, d', dir, events);
      case IsFile(f) =>
        CreatedSingle(g, rules, r, p, AtFile(dir, f));
        StableVisits(g, r, p, false, d'[dir], false);
      case NoStat(_) =>
      case Missing =>
    }
  }

  /** A visit gives rows to a path that has none exactly when a full run would. */
  lemma FirstRows(g: Registry, rules: Rules, base: Rows, r: Rows, p: string, d: Disk, d': Disk)
    requires Settled(g, rules, p, d, base) && (r == base || r == FullTarget(g, rules, base, p, d', false))
    ensures p in d' && !IsExcluded(rules, p) && r == NO_ROWS ==>
      (VisitRows(g, r, p, false, Stable(d'[p]), false).rows != NO_ROWS <==>
       FullTarget(g, rules, base, p, d', false) != NO_ROWS)
  {
    hide IsExcluded;
    if p in d' && !IsExcluded(rules, p) && r == NO_ROWS {
      VisitSettles(g, p, NO_ROWS, d'[p]);
      FullRunSettles(g, rules, base, p, d', false);
    }
  }

  /** A batch creates exactly the newly indexed paths. */
  lemma {:induction false} CreatedByBatch(
    g: Registry, rules: Rules, base: Rows, p: string, d: Disk, d': Disk, reports: seq<Report>)
    requires Settled(g, rules, p, d, base) && TreeShaped(d')
    requires forall i :: 0 <= i < |reports| ==> Faithful(rules, d', reports[i]) && reports[i].path != ""
    ensures CreatedBy(g, rules, base, p, reports) <==>
      && AnyCovers(reports, p) && p in d' && !IsExcluded(rules, p)
      && base == NO_ROWS && FullTarget(g, rules, base, p, d', false) != NO_ROWS
  {
    hide FullTarget, CreatedByReport, ReportRows, Covers, Faithful, TreeShaped, Settled, IsExcluded;
    if reports != [] {
      var n := |reports| - 1;
      var r := ReportsRows(g, rules, base, p, reports[..n]);
      CreatedByBatch(g, rules, base, p, d, d', reports[..n]);
      ReportsReachTarget(g, rules, base, p, d, d', reports[..n]);
      CreatedByOne(g, rules, base, r, p, d, d', reports[n]);
      AnyCoversSnoc(reports, p);
    }
  }

  lemma AnyCoversSnoc(reports: seq<Report>, p: string)
    requires reports != []
    ensures AnyCovers(reports, p) <==>
      AnyCovers(reports[..|reports| - 1], p) || Covers(reports[|reports| - 1], p)
  {
    hide Covers;
    var n := |reports| - 1;
    if i :| 0 <= i < n && Covers(reports[..n][i], p) { assert reports[..n][i] == reports[i]; }
    if i :| 0 <= i < |reports| && Covers(reports[i], p) { assert i < n ==> reports[..n][i] == reports[i]; }
  }

  /** The state before the sweep and the list of created paths, told from the input. */
  ghost predicate MidState(
    g: Registry, rules: Rules, t: Tables, d: Disk, reports: seq<Report>, mid: Tables, created: seq<string>)
  {
    && (forall p :: At(mid, p) ==
          if AnyCovers(reports, p) then FullTarget(g, rules, At(t, p), p, d, false) else At(t, p))
    && (forall p :: p in created <==> NewlyIndexed(g, rules, t, d, reports, p))
  }

  lemma BatchMidState(
    g: Registry, rules: Rules, d: Disk, d': Disk, reports: seq<Report>, onDisk: string -> bool, now: int,
    t: Tables, m: Meta, mid: Tables, created: seq<string>, t1: Tables, m1: Meta)
    requires InStep(g, rules, d, t) && Batch(rules, d', reports, onDisk)
    requires PathsCommit(g, rules, reports, onDisk, now, t, m, mid, created, t1, m1)
    ensures MidState(g, rules, t, d', reports, mid, created)
  {
    hide At, FullTarget, ReportsRows, CreatedBy, RenamedAway, Faithful, TreeShaped, AnyCovers, Settled;
    hide IsExcluded, Published;
    forall p ensures At(mid, p) ==
      if AnyCovers(reports, p) then FullTarget(g, rules, At(t, p), p, d', false) else At(t, p)
    {
      ReportsReachTarget(g, rules, At(t, p), p, d, d', reports);
    }
    forall p ensures p in created <==> NewlyIndexed(g, rules, t, d', reports, p) {
      CreatedByBatch(g, rules, At(t, p), p, d, d', reports);
    }
  }

  /** Whether the hashes of an uncovered path and a created one agree can be told from the input. */
  lemma SameHashIff(
    g: Registry, rules: Rules, t: Tables, d: Disk, reports: seq<Report>, mid: Tables, created: seq<string>,
    o: string, q: string)
    requires MidState(g, rules, t, d, reports, mid, created) && q in created && !AnyCovers(reports, o)
    ensures SameHash(mid, o, q) <==> SameContent(g, rules, t, d, o, q)
  {
    hide AnyCovers, FullTarget;
    assert At(mid, o) == At(t, o);
    assert At(mid, q) == FullTarget(g, rules, NO_ROWS, q, d, false);
  }

  /** A path whose rows the sweep compares is not covered: a covered one with a file row is on disk. */
  lemma VanishedUncovered(
    g: Registry, rules: Rules, t: Tables, d: Disk, reports: seq<Report>, onDisk: string -> bool,
    mid: Tables, created: seq<string>, o: string)
    requires MidState(g, rules, t, d, reports, mid, created) && SeesDisk(onDisk, d)
    requires o in mid.files && !onDisk(o)
    ensures LeftBehind(t, reports, onDisk, o)
  {
    hide AnyCovers, IsExcluded, VisitRows;
    assert At(mid, o).file.Some?;
    assert AtOrUnder(o, o);
  }

  /** A directory that moved is swept. */
  lemma MovedDirSwept(
    g: Registry, rules: Rules, t: Tables, d: Disk, reports: seq<Report>, onDisk: string -> bool,
    mid: Tables, created: seq<string>, o: string, q: string, dir: string)
    requires MidState(g, rules, t, d, reports, mid, created)
    requires MovedDir(g, rules, t, d, reports, onDisk, o, q, dir)
    ensures dir in OldDirs(mid, created, onDisk)
  {
    hide AnyCovers, FullTarget, ChildOf, ParentOf, RenamedDirectory, IsExcluded;
    var i :| 0 <= i < |created| && created[i] == q;
    SameHashIff(g, rules, t, d, reports, mid, created, o, q);
    assert o !in created;
    assert o in Vanished(mid, created, onDisk);
  }

  lemma OldDirMoved(
    g: Registry, rules: Rules, t: Tables, d: Disk, reports: seq<Report>, onDisk: string -> bool,
    mid: Tables, created: seq<string>, dir: string) returns (o: string, q: string)
    requires MidState(g, rules, t, d, reports, mid, created) && SeesDisk(onDisk, d)
    requires dir in OldDirs(mid, created, onDisk)
    ensures MovedDir(g, rules, t, d, reports, onDisk, o, q, dir)
  {
    hide AnyCovers, FullTarget, ChildOf, ParentOf, RenamedDirectory, IsExcluded, MidState, SeesDisk;
    hide NewlyIndexed, SameContent;
    var a, i :| a in Vanished(mid, created, onDisk) && 0 <= i < |created| && SameHash(mid, a, created[i])
      && RenamedDirectory(a, created[i]).Some? && !onDisk(RenamedDirectory(a, created[i]).value)
      && RenamedDirectory(a, created[i]).value == dir;
    o, q := a, created[i];
    VanishedUncovered(g, rules, t, d, reports, onDisk, mid, created, o);
    SameHashIff(g, rules, t, d, reports, mid, created, o, q);
    CreatedIsNew(g, rules, t, d, reports, mid, created, q);
  }

  lemma CreatedIsNew(
    g: Registry, rules: Rules, t: Tables, d: Disk, reports: seq<Report>, mid: Tables, created: seq<string>, q: string)
    requires MidState(g, rules, t, d, reports, mid, created)
    ensures q in created <==> NewlyIndexed(g, rules, t, d, reports, q)
  {
  }

  /** A single uncovered path with rows vanishes exactly when its content or a neighbour is newly indexed. */
  lemma VanishedIff(
    g: Registry, rules: Rules, t: Tables, d: Disk, reports: seq<Report>, onDisk: string -> bool,
    mid: Tables, created: seq<string>, p: string)
    requires MidState(g, rules, t, d, reports, mid, created) && !AnyCovers(reports, p) && At(t, p) != NO_ROWS
    ensures p in Vanished(mid, created, onDisk) <==>
      LeftBehind(t, reports, onDisk, p) && exists q :: LeftBeside(g, rules, t, d, reports, p, q)
  {
    hide AnyCovers, FullTarget, ChildOf, ParentOf, IsExcluded, SameHash, SameContent;
    assert At(mid, p) == At(t, p);
    assert p in Stored(mid);
    assert p !in created;
    forall i | 0 <= i < |created| ensures SameHash(mid, p, created[i]) <==> SameContent(g, rules, t, d, p, created[i]) {
      SameHashIff(g, rules, t, d, reports, mid, created, p, created[i]);
    }
    if i :| 0 <= i < |created| && (SameHash(mid, p, created[i]) || ChildOf(p, ParentOf(created[i]))) {
      assert LeftBeside(g, rules, t, d, reports, p, created[i]);
    }
    if q :| LeftBeside(g, rules, t, d, reports, p, q) {
      assert q in created;
      var i :| 0 <= i < |created| && created[i] == q;
    }
  }

  /** What the sweep takes of the uncovered rows, exactly. */
  lemma SweepExact(
    g: Registry, rules: Rules, t: Tables, d: Disk, reports: seq<Report>, onDisk: string -> bool,
    mid: Tables, created: seq<string>, p: string)
    requires MidState(g, rules, t, d, reports, mid, created) && SeesDisk(onDisk, d)
    requires !AnyCovers(reports, p) && At(t, p) != NO_ROWS
    ensures RenamedAway(mid, created, onDisk, p) <==> SweptAway(g, rules, t, d, reports, onDisk, p)
  {
    hide MidState, SeesDisk, AnyCovers, Vanished, OldDirs, LeftBehind, LeftBeside, MovedDir, At;
    VanishedIff(g, rules, t, d, reports, onDisk, mid, created, p);
    if UnderAny(p, OldDirs(mid, created, onDisk)) {
      var dir :| dir in OldDirs(mid, created, onDisk) && AtOrUnder(p, dir);
      var o, q := OldDirMoved(g, rules, t, d, reports, onDisk, mid, created, dir);
    }
    if o, q, dir :| MovedDir(g, rules, t, d, reports, onDisk, o, q, dir) && AtOrUnder(p, dir) {
      MovedDirSwept(g, rules, t, d, reports, onDisk, mid, created, o, q, dir);
    }
  }

  // ------------------------------------------------------------ exactly when the two runs agree

  /** The rows of `p` say what a readable file `c` says: nothing is left for a visit to change. */
  predicate Current(g: Registry, p: string, r: Rows, c: Content) {
    match KindOf(g, p)
    case Other => true
    case Pending(language) => r.unsupported == Some(language)
    case Manifest(_) =>
      && r.readFailure == None
      && (g.isRockspec(p) ==>
            var a := if g.decode(c.bytes).Some? then g.analyse(g.decode(c.bytes).value) else g.unreadableRockspec;
            r.deps == a.summary && r.items == a.items)
      && (!g.isRockspec(p) && g.decode(c.bytes).Some? ==> r.deps == g.parseManifest(p, g.decode(c.bytes).value))
    case Asset =>
      r.readFailure == None && r.file.Some? && r.file.value.hash == g.assetHash(|c.bytes|, c.mtime)
    case Source(_) =>
      && r.readFailure == None
      && if r.file.Some? then r.file.value.hash == g.hash(c.bytes) && r.syntax == None
         else FreshFile(g, p, c.bytes) == None && r.syntax == FreshIssue(g, p, c.bytes)
  }

  predicate UpToDate(g: Registry, rules: Rules, r: Rows, p: string, d: Disk) {
    if p in d && !IsExcluded(rules, p) then Current(g, p, r, d[p]) else r == NO_ROWS
  }

  /** Then, and only then, a full run leaves them alone. */
  lemma UpToDateIff(g: Registry, rules: Rules, r: Rows, p: string, d: Disk)
    requires r == Kept(g, p, r)
    ensures UpToDate(g, rules, r, p, d) <==> FullTarget(g, rules, r, p, d, false) == r
  {
    hide IsExcluded;
    if p in d && !IsExcluded(rules, p) { CurrentIff(g, p, r, d[p]); }
  }

  lemma CurrentIff(g: Registry, p: string, r: Rows, c: Content)
    requires r == Kept(g, p, r)
    ensures var v := VisitRows(g, r, p, false, Stable(c), false);
      v.Visit? && (Current(g, p, r, c) <==> Kept(g, p, v.rows) == r)
  {
  }

  /** Exactly which paths an incremental run brings up to date, from any rows in step with the old
      disk and for any batch: the covered ones, those whose rows say what the new disk says already,
      and those the sweep takes. All of it can be told before the run. */
  lemma IncrementalExact(
    g: Registry, rules: Rules, d: Disk, d': Disk, reports: seq<Report>, onDisk: string -> bool, now: int,
    t: Tables, m: Meta, mid: Tables, created: seq<string>, t1: Tables, m1: Meta,
    events: seq<Event>, t2: Tables, p: string)
    requires InStep(g, rules, d, t) && Batch(rules, d', reports, onDisk)
    requires PathsCommit(g, rules, reports, onDisk, now, t, m, mid, created, t1, m1)
    requires IsWalk(rules, d', "", events) && Ran(g, FullRun(rules, events, false), t, t2)
    ensures At(t1, p) == At(t2, p) <==>
      || AnyCovers(reports, p)
      || UpToDate(g, rules, At(t, p), p, d')
      || SweptAway(g, rules, t, d', reports, onDisk, p)
  {
    hide At, FullTarget, AnyCovers, IsWalk, FullRows, ReportsRows, CreatedBy, RenamedAway, UpToDate, SweptAway,
      TreeShaped, SeesDisk, Faithful, Published, MidState, Settled;
    var base := At(t, p);
    BatchMidState(g, rules, d, d', reports, onDisk, now, t, m, mid, created, t1, m1);
    MidRows(g, rules, t, d', reports, mid, created, p);
    FullRowsAre(g, rules, base, p, d', events, false);
    SettledKept(g, rules, p, d, base);
    UpToDateIff(g, rules, base, p, d');
    SweptIsGone(g, rules, base, p, d', onDisk, mid, created);
    if !AnyCovers(reports, p) {
      if base != NO_ROWS {
        SweepExact(g, rules, t, d', reports, onDisk, mid, created, p);
      } else {
        NothingSwept(g, rules, t, d', reports, onDisk, p);
      }
    }
  }

  lemma MidRows(
    g: Registry, rules: Rules, t: Tables, d: Disk, reports: seq<Report>, mid: Tables, created: seq<string>, p: string)
    requires MidState(g, rules, t, d, reports, mid, created)
    ensures At(mid, p) == if AnyCovers(reports, p) then FullTarget(g, rules, At(t, p), p, d, false) else At(t, p)
  {
  }

  lemma SettledKept(g: Registry, rules: Rules, p: string, d: Disk, r: Rows)
    requires Settled(g, rules, p, d, r)
    ensures r == Kept(g, p, r)
  {
  }

  /** Whatever the sweep of a run takes is not on the disk, so no rows are right for it. */
  lemma SweptIsGone(
    g: Registry, rules: Rules, r: Rows, p: string, d: Disk, onDisk: string -> bool, mid: Tables, created: seq<string>)
    requires SeesDisk(onDisk, d)
    ensures RenamedAway(mid, created, onDisk, p) ==> FullTarget(g, rules, r, p, d, false) == NO_ROWS
  {
    hide RenamedAway, VisitRows, IsExcluded, SeesDisk;
    if RenamedAway(mid, created, onDisk, p) { RenameSweepSafe(mid, created, onDisk, d, p); }
  }

  /** A path without rows has none to take: what lies in a moved directory is not on disk. */
  lemma NothingSwept(
    g: Registry, rules: Rules, t: Tables, d: Disk, reports: seq<Report>, onDisk: string -> bool, p: string)
    requires SeesDisk(onDisk, d) && At(t, p) == NO_ROWS
    ensures SweptAway(g, rules, t, d, reports, onDisk, p) ==> UpToDate(g, rules, At(t, p), p, d)
  {
    hide At, AnyCovers, NewlyIndexed, SameContent, RenamedDirectory, Current;
    if o, q, dir :| MovedDir(g, rules, t, d, reports, onDisk, o, q, dir) && AtOrUnder(p, dir) {
      assert !onDisk(dir);
    }
  }

  /** For source paths: the covered ones, those whose rows are the same for both disks, and those the
      sweep takes. */
  lemma IncrementalExactSource(
    g: Registry, rules: Rules, d: Disk, d': Disk, reports: seq<Report>, onDisk: string -> bool, now: int,
    t: Tables, m: Meta, mid: Tables, created: seq<string>, t1: Tables, m1: Meta,
    events: seq<Event>, t2: Tables, p: string)
    requires HashInjective(g) && KindOf(g, p).Source? && CacheOk(g, p, At(t, p))
    requires InStep(g, rules, d, t) && Batch(rules, d', reports, onDisk)
    requires PathsCommit(g, rules, reports, onDisk, now, t, m, mid, created, t1, m1)
    requires IsWalk(rules, d', "", events) && Ran(g, FullRun(rules, events, false), t, t2)
    ensures At(t1, p) == At(t2, p) <==>
      || AnyCovers(reports, p)
      || DiskRows(g, rules, p, d) == DiskRows(g, rules, p, d')
      || SweptAway(g, rules, t, d', reports, onDisk, p)
  {
    hide *;
    IncrementalExact(g, rules, d, d', reports, onDisk, now, t, m, mid, created, t1, m1, events, t2, p);
    RowsInStep(g, rules, d, t, p);
    InStepIsFresh(g, rules, d, At(t, p), p);
    SettledKept(g, rules, p, d, At(t, p));
    UpToDateIff(g, rules, At(t, p), p, d');
    TargetIsFresh(g, rules, At(t, p), p, d');
  }

  lemma RowsInStep(g: Registry, rules: Rules, d: Disk, t: Tables, p: string)
    requires InStep(g, rules, d, t)
    ensures Settled(g, rules, p, d, At(t, p))
  {
  }

  lemma TargetIsFresh(g: Registry, rules: Rules, r: Rows, p: string, d: Disk)
    requires HashInjective(g) && KindOf(g, p).Source? && CacheOk(g, p, r) && r == Kept(g, p, r)
    ensures FullTarget(g, rules, r, p, d, false) == DiskRows(g, rules, p, d)
  {
    hide VisitRows, CacheOk, IsExcluded;
    if p in d && !IsExcluded(rules, p) { VisitIsFresh(g, r, p, d[p], false); }
  }

  /** So the two runs differ when a file takes the place of an indexed directory and only the file is
      reported: the row of another file that was in the directory stays. */
  lemma FileReplacesDirectory(
    g: Registry, rules: Rules, c: Content, c': Content, onDisk: string -> bool, now: int,
    t: Tables, m: Meta, mid: Tables, created: seq<string>, t1: Tables, m1: Meta, events: seq<Event>, t2: Tables)
    requires HashInjective(g) && KindOf(g, "a/x").Source? && KindOf(g, "a").Source?
    requires FreshFile(g, "a/x", c.bytes).Some? && c.bytes != c'.bytes
    requires !IsExcluded(rules, "a/x") && SeesDisk(onDisk, map["a" := c'])
    requires InStep(g, rules, map["a/x" := c], t) && CacheOk(g, "a/x", At(t, "a/x"))
    requires PathsCommit(g, rules, [Report("a", IsFile(Stable(c')))], onDisk, now, t, m, mid, created, t1, m1)
    requires IsWalk(rules, map["a" := c'], "", events) && Ran(g, FullRun(rules, events, false), t, t2)
    ensures Batch(rules, map["a" := c'], [Report("a", IsFile(Stable(c')))], onDisk)
    ensures At(t1, "a/x") == FreshRows(g, "a/x", c.bytes) != At(t2, "a/x") == NO_ROWS
  {
    hide PathsCommit, IsWalk, FullRows, Settled, CacheOk, At, IsExcluded, FreshRows, FreshFile, VisitRows;
    var d, d', reports := map["a/x" := c], map["a" := c'], [Report("a", IsFile(Stable(c')))];
    assert Under("a/x", "a");
    FileBatch(rules, c', onDisk);
    StaleRow(g, rules, c, c', onDisk, t);
    FullRowsAre(g, rules, At(t, "a/x"), "a/x", d', events, false);
    IncrementalExact(g, rules, d, d', reports, onDisk, now, t, m, mid, created, t1, m1, events, t2, "a/x");
    BatchMidState(g, rules, d, d', reports, onDisk, now, t, m, mid, created, t1, m1);
    MidRows(g, rules, t, d', reports, mid, created, "a/x");
    PathsCommitAt(g, rules, reports, onDisk, now, t, m, mid, created, t1, m1, "a/x");
  }

  lemma PathsCommitAt(
    g: Registry, rules: Rules, reports: seq<Report>, onDisk: string -> bool, now: int,
    t: Tables, m: Meta, mid: Tables, created: seq<string>, t1: Tables, m1: Meta, p: string)
    requires PathsCommit(g, rules, reports, onDisk, now, t, m, mid, created, t1, m1)
    ensures At(t1, p) == At(mid, p) || At(t1, p) == NO_ROWS
  {
    hide At, ReportsRows, CreatedBy, RenamedAway;
  }

  /** The one file and what is above it is what the disk has. */
  lemma FileBatch(rules: Rules, c: Content, onDisk: string -> bool)
    requires SeesDisk(onDisk, map["a" := c])
    ensures Batch(rules, map["a" := c], [Report("a", IsFile(Stable(c)))], onDisk)
  {
    hide IsExcluded;
  }

  /** The row of the old file is not covered, not up to date, and nothing makes the sweep take it. */
  lemma StaleRow(
    g: Registry, rules: Rules, c: Content, c': Content, onDisk: string -> bool, t: Tables)
    requires HashInjective(g) && KindOf(g, "a/x").Source? && KindOf(g, "a").Source?
    requires FreshFile(g, "a/x", c.bytes).Some? && c.bytes != c'.bytes
    requires !IsExcluded(rules, "a/x")
    requires InStep(g, rules, map["a/x" := c], t) && CacheOk(g, "a/x", At(t, "a/x"))
    ensures var reports := [Report("a", IsFile(Stable(c')))];
      && At(t, "a/x") == FreshRows(g, "a/x", c.bytes) != NO_ROWS
      && !AnyCovers(reports, "a/x") && !UpToDate(g, rules, At(t, "a/x"), "a/x", map["a" := c'])
      && !SweptAway(g, rules, t, map["a" := c'], reports, onDisk, "a/x")
  {
    hide CacheOk, At, IsExcluded, FreshFile, FreshIssue, FullTarget, VisitRows;
    var d, d', p := map["a/x" := c], map["a" := c'], "a/x";
    RowsInStep(g, rules, d, t, p);
    InStepIsFresh(g, rules, d, At(t, p), p);
    SplitPart("a");
    assert ParentOf("a") == "" && p[1] == '/';
    NoRowsCacheOk(g, "a");
    TargetIsFresh(g, rules, NO_ROWS, "a", d');
    if FreshFile(g, "a", c'.bytes).Some? { FreshHash(g, "a", c'.bytes); }
    FreshHash(g, p, c.bytes);
    assert !SameContent(g, rules, t, d', p, "a");
    forall o | At(t, o) != NO_ROWS ensures o == p { RowsInStep(g, rules, d, t, o); }
  }

  lemma FreshHash(g: Registry, p: string, bytes: Bytes)
    requires KindOf(g, p).Source? && FreshFile(g, p, bytes).Some?
    ensures FreshFile(g, p, bytes).value.hash == g.hash(bytes)
  {
  }

  // ------------------------------------------------------------ renamed directories

  /** After a directory was renamed, with one file moved along unchanged, nothing is left under its old
      name: whatever else the batch reports, as long as it reports the file at its new place and not
      at its old one (whose row would be gone before the sweep could compare it). */
  lemma RenamedDirectoryCleared(
    g: Registry, rules: Rules, d: Disk, d': Disk, reports: seq<Report>, onDisk: string -> bool, now: int,
    t: Tables, m: Meta, mid: Tables, created: seq<string>, t1: Tables, m1: Meta,
    oldDir: seq<string>, newDir: seq<string>, rest: seq<string>, p: string)
    requires InStep(g, rules, d, t) && Batch(rules, d', reports, onDisk)
    requires PathsCommit(g, rules, reports, onDisk, now, t, m, mid, created, t1, m1)
    requires oldDir != [] && rest != [] && (newDir == [] || oldDir[|oldDir| - 1] != newDir[|newDir| - 1])
    requires forall k :: 0 <= k < |oldDir| ==> IsPart(oldDir[k])
    requires forall k :: 0 <= k < |newDir| ==> IsPart(newDir[k])
    requires forall k :: 0 <= k < |rest| ==> IsPart(rest[k])
    requires NewlyIndexed(g, rules, t, d', reports, Join(newDir + rest))
    requires SameContent(g, rules, t, d', Join(oldDir + rest), Join(newDir + rest))
    requires !AnyCovers(reports, Join(oldDir + rest))
    requires !onDisk(Join(oldDir + rest)) && !onDisk(Join(oldDir))
    requires AtOrUnder(p, Join(oldDir))
    ensures At(t1, p) == NO_ROWS
  {
    hide At, FullTarget, AnyCovers, ReportsRows, CreatedBy, TreeShaped, SeesDisk, Faithful, Published, MidState;
    hide Settled, NewlyIndexed, IsPart, Vanished, OldDirs, RenamedDirectory, Join;
    BatchMidState(g, rules, d, d', reports, onDisk, now, t, m, mid, created, t1, m1);
    RenamedDirectoryFound(oldDir, newDir, rest);
    var o, q := Join(oldDir + rest), Join(newDir + rest);
    HasFileRow(g, rules, t, d', o, q);
    assert MovedDir(g, rules, t, d', reports, onDisk, o, q, Join(oldDir));
    MovedDirSwept(g, rules, t, d', reports, onDisk, mid, created, o, q, Join(oldDir));
  }

  lemma HasFileRow(g: Registry, rules: Rules, t: Tables, d: Disk, o: string, q: string)
    requires SameContent(g, rules, t, d, o, q)
    ensures At(t, o) != NO_ROWS
  {
    hide At, FullTarget;
  }

  /** A source file moved unchanged: it parses, was not on the old disk at its new place, and is
      reported there. */
  lemma MovedSource(
    g: Registry, rules: Rules, d: Disk, d': Disk, reports: seq<Report>, t: Tables, o: string, q: string)
    requires InStep(g, rules, d, t) && q !in d && q in d' && AnyCovers(reports, q) && !IsExcluded(rules, q)
    requires KindOf(g, q).Source? && FreshFile(g, q, d'[q].bytes).Some?
    requires o in t.files && t.files[o].hash == g.hash(d'[q].bytes)
    ensures NewlyIndexed(g, rules, t, d', reports, q) && SameContent(g, rules, t, d', o, q)
  {
    hide AnyCovers, IsExcluded;
    RowsInStep(g, rules, d, t, q);
  }

  /** The rename sweep never deletes a row whose path is still on disk. */
  lemma RenameSweepKeepsDisk(
    g: Registry, rules: Rules, reports: seq<Report>, onDisk: string -> bool, now: int,
    t: Tables, m: Meta, mid: Tables, created: seq<string>, t': Tables, m': Meta, p: string)
    requires PathsCommit(g, rules, reports, onDisk, now, t, m, mid, created, t', m')
    requires onDisk(p) && forall q :: AtOrUnder(p, q) ==> onDisk(q)
    ensures At(t', p) == At(mid, p)
  {
    hide ReportsRows, CreatedBy, SameHash, ChildOf, RenamedDirectory;
    assert !UnderAny(p, OldDirs(mid, created, onDisk)) by {
      forall q | q in OldDirs(mid, created, onDisk) ensures !AtOrUnder(p, q) {
        assert !onDisk(q);
      }
    }
  }
}
