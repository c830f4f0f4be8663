/** What runs do to the rows of what they cannot read (`indexer.rs:219-255`, `787-795`, `1346-1389`): full runs and
    incremental ones, told from the events and reports alone. */
module ReadFailures {
  import opened Wrappers
  import opened Paths
  import opened Exclude
  import opened PathRows
  import opened Indexer
  import opened IndexTheorems

  // ------------------------------------------------------------ events that read nothing

  /** Manifests, assets and files with a parser are read; of others only the name counts. */
  predicate HasContent(g: Registry, p: string) {
    g.manifestLanguage(p).Some? || g.isAsset(p) || g.parserLanguage(p).Some?
  }

  /** The event is an entry the walk could not read, a path it may not resolve, or an admitted file that could not be
      read. */
  predicate CannotRead(g: Registry, rules: Rules, e: Event) {
    || e.AtError?
    || (e.AtFile? && e.found.Denied?)
    || (e.AtFile? && e.found.Unreadable? && !IsExcluded(rules, e.path) && HasContent(g, e.path))
  }

  function DetailOf(g: Registry, rules: Rules, e: Event): string
    requires CannotRead(g, rules, e)
  {
    if e.AtError? then e.detail else e.found.detail
  }

  /** `p` lies at or under a path that could not be read; the root has everything under it. */
  ghost predicate Unreached(g: Registry, rules: Rules, events: seq<Event>, p: string) {
    exists i :: 0 <= i < |events| && CannotRead(g, rules, events[i])
                && (events[i].path == "" || p == events[i].path || events[i].path + "/" <= p)
  }

  ghost predicate Unvisited(events: seq<Event>, p: string) {
    forall i :: 0 <= i < |events| ==> events[i].Fault? || events[i].path != p
  }

  /** No event found anything at `p`. */
  ghost predicate NothingFound(events: seq<Event>, p: string) {
    forall i :: 0 <= i < |events| ==>
      events[i].Fault? || events[i].path != p || (events[i].AtFile? && events[i].found.Gone?)
  }

  lemma {:induction false} WalkFindsNothing(
    g: Registry, rules: Rules, r: Rows, p: string, events: seq<Event>, force: bool)
    requires NothingFound(events, p)
    ensures WalkRows(g, rules, r, p, events, force) == r
  {
    if events != [] { WalkFindsNothing(g, rules, r, p, events[..|events| - 1], force); }
  }

  /** Only event `i` is about its path. */
  ghost predicate Once(events: seq<Event>, i: nat) {
    && i < |events| && !events[i].Fault?
    && forall j :: 0 <= j < |events| && j != i ==> events[j].Fault? || events[j].path != events[i].path
  }

  lemma CannotReadSeen(g: Registry, rules: Rules, e: Event)
    ensures EventSeen(g, rules, e) == SeenUnreadable <==> CannotRead(g, rules, e)
  {
    hide IsExcluded;
  }

  lemma UnreachedRetained(g: Registry, rules: Rules, events: seq<Event>, p: string)
    ensures IsRetained(p, SeenPaths(g, rules, events, SeenUnreadable)) <==> Unreached(g, rules, events, p)
  {
    hide IsExcluded, SeenPaths, SeenAs;
    var unreadable := SeenPaths(g, rules, events, SeenUnreadable);
    if IsRetained(p, unreadable) {
      var k :| 0 <= k < |unreadable| && (unreadable[k] == "" || AtOrUnder(p, unreadable[k]));
      SeenPathsAre(g, rules, events, SeenUnreadable, unreadable[k]);
      var i :| 0 <= i < |events| && EventSeen(g, rules, events[i]) == SeenUnreadable && events[i].path == unreadable[k];
      CannotReadSeen(g, rules, events[i]);
    }
    if Unreached(g, rules, events, p) {
      var i :| 0 <= i < |events| && CannotRead(g, rules, events[i])
        && (events[i].path == "" || p == events[i].path || events[i].path + "/" <= p);
      RetainedBy(g, rules, events, i, p);
    }
  }

  lemma RetainedBy(g: Registry, rules: Rules, events: seq<Event>, i: nat, p: string)
    requires i < |events| && CannotRead(g, rules, events[i])
    requires events[i].path == "" || AtOrUnder(p, events[i].path)
    ensures IsRetained(p, SeenPaths(g, rules, events, SeenUnreadable))
  {
    hide EventSeen, SeenPaths;
    CannotReadSeen(g, rules, events[i]);
    SeenPathsAre(g, rules, events, SeenUnreadable, events[i].path);
    var unreadable := SeenPaths(g, rules, events, SeenUnreadable);
    assert events[i].path in unreadable;
    var k :| 0 <= k < |unreadable| && unreadable[k] == events[i].path;
  }

  /** The rows a walk leaves at a path it could not read. */
  lemma WalkFlags(g: Registry, rules: Rules, r: Rows, events: seq<Event>, force: bool, i: nat)
    requires Once(events, i) && CannotRead(g, rules, events[i])
    ensures WalkRows(g, rules, r, events[i].path, events, force) ==
      r.(readFailure := Some(DetailOf(g, rules, events[i])))
  {
    hide IsExcluded;
    WalkVisitedAt(g, rules, r, events[i].path, events, force, i);
  }

  // ------------------------------------------------------------ full runs

  /** What a full run could not read keeps its rows, with the failure on record; so does, untouched, what it did not
      reach below; and the run does not count as a reconciliation. */
  lemma UnreadableKeepsRows(
    g: Registry, reload: Reload, events: seq<Event>, force: bool, now: int, t: Tables, m: Meta, t': Tables, m': Meta,
    i: nat)
    requires FullCommit(g, reload, events, force, now, t, m, t', m')
    requires Once(events, i) && CannotRead(g, reload.value.0, events[i])
    ensures var rules, p := reload.value.0, events[i].path;
      && (!IsExcluded(rules, p) ==>
            At(t', p) == At(t, p).(readFailure := Some(DetailOf(g, rules, events[i]))))
      && (forall q :: !IsExcluded(rules, q) && (p == "" || p + "/" <= q) && Unvisited(events, q) ==>
            At(t', q) == At(t, q))
      && m'.lastFullReconciledAt == m.lastFullReconciledAt
  {
    hide At, IsExcluded, WalkRows, SeenPaths, IsRetained;
    var rules, p := reload.value.0, events[i].path;
    assert At(t', p) == FullRows(g, rules, At(t, p), p, events, force);
    WalkFlags(g, rules, At(t, p), events, force, i);
    RetainedBy(g, rules, events, i, p);
    forall q | !IsExcluded(rules, q) && (p == "" || p + "/" <= q) && Unvisited(events, q)
      ensures At(t', q) == At(t, q)
    {
      assert At(t', q) == FullRows(g, rules, At(t, q), q, events, force);
      RetainedBy(g, rules, events, i, q);
      WalkUnvisited(g, rules, At(t, q), q, events, force);
    }
    CommitMetadata(g, reload, events, force, now, t, m, t', m');
  }

  /** The generation grows by one, and the reconciliation time moves exactly when everything could be read. */
  lemma CommitMetadata(
    g: Registry, reload: Reload, events: seq<Event>, force: bool, now: int, t: Tables, m: Meta, t': Tables, m': Meta)
    requires FullCommit(g, reload, events, force, now, t, m, t', m')
    ensures PublishedGeneration(m').value == PublishedGeneration(m).value + 1
    ensures m'.lastFullReconciledAt ==
      if exists i :: 0 <= i < |events| && CannotRead(g, reload.value.0, events[i]) then m.lastFullReconciledAt
      else Some(now)
  {
    hide WalkRows, SeenAs, SweepRows, IsExcluded;
    var rules := reload.value.0;
    if i :| 0 <= i < |events| && CannotRead(g, rules, events[i]) {
      CannotReadSeen(g, rules, events[i]);
      SeenPathsAre(g, rules, events, SeenUnreadable, events[i].path);
      assert events[i].path in SeenPaths(g, rules, events, SeenUnreadable);
    } else {
      forall i | 0 <= i < |events| ensures EventSeen(g, rules, events[i]) != SeenUnreadable {
        CannotReadSeen(g, rules, events[i]);
      }
      NoneSeen(g, rules, events, SeenUnreadable);
    }
  }

  /** `p` was found as a file whose rows the sweep spares: one of those with `manifests`, or of the others. */
  ghost predicate FoundAs(g: Registry, events: seq<Event>, p: string, manifests: bool) {
    exists i :: 0 <= i < |events| && events[i].AtFile? && events[i].path == p
      && (events[i].found.Read? || (events[i].found.Unreadable? && !HasContent(g, p)))
      && (g.manifestLanguage(p).Some? <==> manifests)
  }

  /** After a full run nothing is left of an excluded path, or of one that was neither found nor out of reach; what is
      left of files was found as a file or is out of reach, and of manifests as a manifest. A path at which nothing
      was found keeps all or nothing. */
  lemma Retention(
    g: Registry, reload: Reload, events: seq<Event>, force: bool, now: int, t: Tables, m: Meta, t': Tables, m': Meta,
    p: string)
    requires FullCommit(g, reload, events, force, now, t, m, t', m')
    ensures var rules := reload.value.0;
      && (IsExcluded(rules, p) ==> At(t', p) == NO_ROWS)
      && (!IsExcluded(rules, p) && NothingFound(events, p) ==>
            At(t', p) == if Unreached(g, rules, events, p) then At(t, p) else NO_ROWS)
      && (At(t', p).file.Some? ==> FoundAs(g, events, p, false) || Unreached(g, rules, events, p))
      && (At(t', p).deps != [] || At(t', p).items != [] ==>
            FoundAs(g, events, p, true) || Unreached(g, rules, events, p))
  {
    hide At, WalkRows, SeenPaths, IsExcluded, IsRetained, FoundAs, Unreached;
    var rules := reload.value.0;
    assert At(t', p) == FullRows(g, rules, At(t, p), p, events, force);
    UnreachedRetained(g, rules, events, p);
    if !IsExcluded(rules, p) {
      SeenIsFound(g, rules, events, p);
      if NothingFound(events, p) {
        WalkFindsNothing(g, rules, At(t, p), p, events, force);
        NothingFoundAs(g, events, p);
      }
    }
  }

  lemma NothingFoundAs(g: Registry, events: seq<Event>, p: string)
    requires NothingFound(events, p)
    ensures !FoundAs(g, events, p, true) && !FoundAs(g, events, p, false)
  {
  }

  lemma SeenIsFound(g: Registry, rules: Rules, events: seq<Event>, p: string)
    requires !IsExcluded(rules, p)
    ensures p in SeenPaths(g, rules, events, SeenSource) <==> FoundAs(g, events, p, false)
    ensures p in SeenPaths(g, rules, events, SeenManifest) <==> FoundAs(g, events, p, true)
  {
    hide IsExcluded;
    SeenPathsAre(g, rules, events, SeenSource, p);
    SeenPathsAre(g, rules, events, SeenManifest, p);
  }

  // ------------------------------------------------------------ what makes a run fail

  /** The event found a source file that has to be parsed, and another content when it was read again. */
  predicate ChangedUnder(g: Registry, rules: Rules, r: Rows, e: Event, force: bool) {
    && e.AtFile? && e.found.Read? && !IsExcluded(rules, e.path)
    && g.manifestLanguage(e.path).None? && !g.isAsset(e.path) && g.parserLanguage(e.path).Some?
    && var hash := g.hash(e.found.content.bytes);
       && (force || r.file.None? || r.file.value.hash != hash)
       && g.decode(e.found.content.bytes).Some?
       && (e.found.again.None? || g.hash(e.found.again.value) != hash)
  }

  ghost predicate EachOnce(events: seq<Event>) {
    forall i, j :: 0 <= i < j < |events| && !events[i].Fault? && !events[j].Fault? ==> events[i].path != events[j].path
  }

  lemma {:induction false} WalkOkIff(g: Registry, rules: Rules, rows: string -> Rows, events: seq<Event>, force: bool)
    requires EachOnce(events)
    ensures WalkOk(g, rules, rows, events, force) <==>
      forall i :: 0 <= i < |events| ==>
        !events[i].Fault? && (events[i].AtFile? ==> !ChangedUnder(g, rules, rows(events[i].path), events[i], force))
  {
    hide ChangedUnder, Fails, IsExcluded;
    if events != [] {
      var n := |events| - 1;
      var e := events[n];
      WalkOkIff(g, rules, rows, events[..n], force);
      if e.AtFile? { WalkUnvisited(g, rules, rows(e.path), e.path, events[..n], force); }
      FailsIff(g, rules, rows, events[..n], e, force);
      assert forall i :: 0 <= i < n ==> events[..n][i] == events[i];
    }
  }

  lemma FailsIff(g: Registry, rules: Rules, rows: string -> Rows, before: seq<Event>, e: Event, force: bool)
    requires e.AtFile? ==> WalkRows(g, rules, rows(e.path), e.path, before, force) == rows(e.path)
    ensures Fails(g, rules, rows, before, e, force) <==>
      e.Fault? || (e.AtFile? && ChangedUnder(g, rules, rows(e.path), e, force))
  {
    hide IsExcluded, WalkRows;
  }

  /** A full run gets as far as recording its generation exactly when the ignore files could be read, no statement
      failed, no file changed while it was parsed, and the published generation is sound and not the largest. */
  lemma FullRunnableIff(g: Registry, reload: Reload, events: seq<Event>, force: bool, t: Tables, m: Meta)
    requires EachOnce(events)
    ensures FullRunnable(g, reload, events, force, t, m) <==>
      && reload.Some?
      && (m.generation.None? || 0 <= m.generation.value < 0x7fff_ffff_ffff_ffff)
      && forall i :: 0 <= i < |events| ==>
           !events[i].Fault?
           && (events[i].AtFile? ==>
                 !ChangedUnder(g, reload.value.0, At(t, events[i].path), events[i], force))
  {
    hide ChangedUnder, At, WalkOk;
    if reload.Some? { WalkOkIff(g, reload.value.0, RowsOf(t), events, force); }
  }

  // ------------------------------------------------------------ incremental runs

  /** A report that has nothing to do with `p`. */
  ghost predicate Passes(rules: Rules, report: Report, p: string) {
    || IsExcluded(rules, report.path)
    || (p != report.path && !(report.path + "/" <= p) && (report.state.IsDir? ==> Unvisited(report.state.events, p)))
  }

  lemma PassedBy(g: Registry, rules: Rules, r: Rows, p: string, report: Report)
    requires Passes(rules, report, p)
    ensures ReportRows(g, rules, r, p, report) == r
  {
    hide IsExcluded, VisitRows, WalkRows;
    if report.state.IsDir? && !IsExcluded(rules, report.path) {
      WalkUnvisited(g, rules, r, p, report.state.events, false);
    }
  }

  /** Only report `i` of a batch may have to do with `p`. */
  ghost predicate OnlyReport(rules: Rules, reports: seq<Report>, i: nat, p: string) {
    i < |reports| && !IsExcluded(rules, reports[i].path)
    && forall j :: 0 <= j < |reports| && j != i ==> Passes(rules, reports[j], p)
  }

  lemma {:induction false} AllPass(g: Registry, rules: Rules, r: Rows, p: string, reports: seq<Report>)
    requires forall j :: 0 <= j < |reports| ==> Passes(rules, reports[j], p)
    ensures ReportsRows(g, rules, r, p, reports) == r
  {
    hide Passes, ReportRows;
    if reports != [] {
      AllPass(g, rules, r, p, reports[..|reports| - 1]);
      PassedBy(g, rules, r, p, reports[|reports| - 1]);
    }
  }

  lemma {:induction false} OneReport(g: Registry, rules: Rules, r: Rows, p: string, reports: seq<Report>, i: nat)
    requires OnlyReport(rules, reports, i, p)
    ensures ReportsRows(g, rules, r, p, reports) == ReportRows(g, rules, r, p, reports[i])
    decreases |reports|
  {
    hide Passes, ReportRows;
    var n := |reports| - 1;
    if i == n {
      AllPass(g, rules, r, p, reports[..n]);
    } else {
      OneReport(g, rules, r, p, reports[..n], i);
      PassedBy(g, rules, ReportsRows(g, rules, r, p, reports[..n]), p, reports[n]);
    }
  }

  /** The report says that `p` itself could not be looked up or read, with `detail`. */
  ghost predicate ReportsFailure(g: Registry, rules: Rules, report: Report, p: string, detail: string) {
    match report.state
    case NoStat(d) => p == report.path && d == detail
    case IsFile(f) =>
      p == report.path && CannotRead(g, rules, AtFile(p, f)) && DetailOf(g, rules, AtFile(p, f)) == detail
    case IsDir(events) =>
      exists i: nat :: Once(events, i) && events[i].path == p && CannotRead(g, rules, events[i])
                  && DetailOf(g, rules, events[i]) == detail
    case Missing => false
  }

  /** The report leaves it open whether there is anything at `p`: it is below something that could not be read. */
  ghost predicate LeavesOpen(g: Registry, rules: Rules, report: Report, p: string) {
    match report.state
    case NoStat(_) => report.path + "/" <= p
    case IsFile(f) => report.path + "/" <= p && CannotRead(g, rules, AtFile(report.path, f))
    case IsDir(events) => Unvisited(events, p) && Unreached(g, rules, events, p)
    case Missing => false
  }

  /** The report says that there is nothing at `p`. */
  ghost predicate SaysGone(g: Registry, rules: Rules, report: Report, p: string) {
    && (p == report.path || report.path + "/" <= p)
    && match report.state
       case NoStat(_) => false
       case IsFile(f) => f.Gone?
       case IsDir(events) => Unvisited(events, p) && !Unreached(g, rules, events, p)
       case Missing => true
  }

  /** One report, before the sweep for renames: what could not be read is flagged and keeps its rows, what is below it
      is left alone, and only what is said to be gone goes. */
  lemma ReportKeeps(g: Registry, rules: Rules, r: Rows, p: string, report: Report, detail: string)
    requires !IsExcluded(rules, report.path)
    ensures ReportsFailure(g, rules, report, p, detail) ==>
      ReportRows(g, rules, r, p, report) == r.(readFailure := Some(detail))
    ensures LeavesOpen(g, rules, report, p) ==> ReportRows(g, rules, r, p, report) == r
    ensures SaysGone(g, rules, report, p) ==> ReportRows(g, rules, r, p, report) == NO_ROWS
  {
    hide IsExcluded;
    match report.state
    case NoStat(_) =>
    case Missing =>
    case IsFile(_) => FileReportKeeps(g, rules, r, p, report, detail);
    case IsDir(_) => DirReportKeeps(g, rules, r, p, report, detail);
  }

  lemma FileReportKeeps(g: Registry, rules: Rules, r: Rows, p: string, report: Report, detail: string)
    requires !IsExcluded(rules, report.path) && report.state.IsFile?
    ensures ReportsFailure(g, rules, report, p, detail) ==>
      ReportRows(g, rules, r, p, report) == r.(readFailure := Some(detail))
    ensures LeavesOpen(g, rules, report, p) ==> ReportRows(g, rules, r, p, report) == r
    ensures SaysGone(g, rules, report, p) ==> ReportRows(g, rules, r, p, report) == NO_ROWS
  {
    hide IsExcluded;
  }

  lemma DirReportKeeps(g: Registry, rules: Rules, r: Rows, p: string, report: Report, detail: string)
    requires !IsExcluded(rules, report.path) && report.state.IsDir?
    ensures ReportsFailure(g, rules, report, p, detail) ==>
      ReportRows(g, rules, r, p, report) == r.(readFailure := Some(detail))
    ensures LeavesOpen(g, rules, report, p) ==> ReportRows(g, rules, r, p, report) == r
    ensures SaysGone(g, rules, report, p) ==> ReportRows(g, rules, r, p, report) == NO_ROWS
  {
    hide IsExcluded, CannotRead, WalkRows, SeenPaths, IsRetained;
    var events := report.state.events;
    UnreachedRetained(g, rules, events, p);
    if ReportsFailure(g, rules, report, p, detail) {
      var i: nat :| Once(events, i) && events[i].path == p && CannotRead(g, rules, events[i])
        && DetailOf(g, rules, events[i]) == detail;
      WalkFlags(g, rules, r, events, false, i);
      RetainedBy(g, rules, events, i, p);
    }
    if Unvisited(events, p) {
      WalkUnvisited(g, rules, r, p, events, false);
      UnvisitedNotSeen(g, rules, events, p);
    }
  }

  lemma UnvisitedNotSeen(g: Registry, rules: Rules, events: seq<Event>, p: string)
    requires Unvisited(events, p)
    ensures p !in SeenPaths(g, rules, events, SeenSource) && p !in SeenPaths(g, rules, events, SeenManifest)
  {
    hide EventSeen;
    SeenPathsAre(g, rules, events, SeenSource, p);
    SeenPathsAre(g, rules, events, SeenManifest, p);
    assert forall i :: 0 <= i < |events| && events[i].Fault? ==> EventSeen(g, rules, events[i]) == SeenNothing by {
      FaultSeen(g, rules);
    }
  }

  lemma FaultSeen(g: Registry, rules: Rules)
    ensures EventSeen(g, rules, Fault) == SeenNothing
  {
  }

  // ------------------------------------------------------------ and the sweep for renames after them

  /** The rows of `p` after the reports, and whether they indexed it for the first time. */
  function Reported(g: Registry, rules: Rules, t: Tables, reports: seq<Report>, p: string): Rows {
    ReportsRows(g, rules, At(t, p), p, reports)
  }

  predicate New(g: Registry, rules: Rules, t: Tables, reports: seq<Report>, p: string) {
    CreatedBy(g, rules, At(t, p), p, reports)
  }

  predicate SameContentHash(g: Registry, rules: Rules, t: Tables, reports: seq<Report>, o: string, q: string) {
    var a, b := Reported(g, rules, t, reports, o).file, Reported(g, rules, t, reports, q).file;
    a.Some? && b.Some? && a.value.hash == b.value.hash
  }

  /** `o` still has rows, does not resolve to itself on disk, and a new path has its content or sits beside it. */
  ghost predicate TakenForMoved(
    g: Registry, rules: Rules, t: Tables, reports: seq<Report>, onDisk: string -> bool, o: string, q: string)
  {
    && Reported(g, rules, t, reports, o) != NO_ROWS && !New(g, rules, t, reports, o) && !onDisk(o)
    && New(g, rules, t, reports, q)
    && (SameContentHash(g, rules, t, reports, o, q) || ChildOf(o, ParentOf(q)))
  }

  /** What the sweep takes, told from the rows before the run, the reports and the disk. */
  ghost predicate Swept(
    g: Registry, rules: Rules, t: Tables, reports: seq<Report>, onDisk: string -> bool, p: string)
  {
    || (exists q :: TakenForMoved(g, rules, t, reports, onDisk, p, q))
    || exists o, q :: MovedAbove(g, rules, t, reports, onDisk, o, q, p)
  }

  /** `o` was taken for moved to `q` with a directory that is gone, and `p` lay at or under that. */
  ghost predicate MovedAbove(
    g: Registry, rules: Rules, t: Tables, reports: seq<Report>, onDisk: string -> bool, o: string, q: string, p: string)
  {
    && TakenForMoved(g, rules, t, reports, onDisk, o, q) && SameContentHash(g, rules, t, reports, o, q)
    && RenamedDirectory(o, q).Some? && !onDisk(RenamedDirectory(o, q).value)
    && AtOrUnder(p, RenamedDirectory(o, q).value)
  }

  /** The state before the sweep of a committed run. */
  ghost predicate Before(
    g: Registry, rules: Rules, t: Tables, reports: seq<Report>, mid: Tables, created: seq<string>)
  {
    && (forall p :: At(mid, p) == Reported(g, rules, t, reports, p))
    && (forall p :: p in created <==> New(g, rules, t, reports, p))
  }

  lemma SameHashReported(
    g: Registry, rules: Rules, t: Tables, reports: seq<Report>, mid: Tables, created: seq<string>, o: string, q: string)
    requires Before(g, rules, t, reports, mid, created)
    ensures SameHash(mid, o, q) <==> SameContentHash(g, rules, t, reports, o, q)
  {
    hide Reported, New;
    assert At(mid, o) == Reported(g, rules, t, reports, o) && At(mid, q) == Reported(g, rules, t, reports, q);
  }

  lemma HasRowsStored(t: Tables, p: string)
    ensures At(t, p) != NO_ROWS ==> p in Stored(t)
    ensures p in t.files ==> At(t, p) != NO_ROWS
  {
  }

  lemma VanishedTaken(
    g: Registry, rules: Rules, t: Tables, reports: seq<Report>, onDisk: string -> bool, mid: Tables,
    created: seq<string>, o: string)
    requires Before(g, rules, t, reports, mid, created) && At(mid, o) != NO_ROWS
    ensures o in Vanished(mid, created, onDisk) <==>
      exists q :: TakenForMoved(g, rules, t, reports, onDisk, o, q)
  {
    hide Reported, New, SameContentHash, SameHash, At, ChildOf, ParentOf;
    HasRowsStored(mid, o);
    forall q ensures SameHash(mid, o, q) <==> SameContentHash(g, rules, t, reports, o, q) {
      SameHashReported(g, rules, t, reports, mid, created, o, q);
    }
    if o in Vanished(mid, created, onDisk) {
      var i :| 0 <= i < |created| && (SameHash(mid, o, created[i]) || ChildOf(o, ParentOf(created[i])));
      assert TakenForMoved(g, rules, t, reports, onDisk, o, created[i]);
    }
    if q :| TakenForMoved(g, rules, t, reports, onDisk, o, q) {
      assert q in created;
      var i :| 0 <= i < |created| && created[i] == q;
    }
  }

  /** The sweep takes exactly that. */
  lemma SweptIff(
    g: Registry, rules: Rules, t: Tables, reports: seq<Report>, onDisk: string -> bool, mid: Tables,
    created: seq<string>, p: string)
    requires Before(g, rules, t, reports, mid, created) && At(mid, p) != NO_ROWS
    ensures RenamedAway(mid, created, onDisk, p) <==> Swept(g, rules, t, reports, onDisk, p)
  {
    hide At, Before, Vanished, TakenForMoved, SameContentHash, Reported, New;
    VanishedTaken(g, rules, t, reports, onDisk, mid, created, p);
    if UnderAny(p, OldDirs(mid, created, onDisk)) {
      var dir :| dir in OldDirs(mid, created, onDisk) && AtOrUnder(p, dir);
      var o, q := OldDirTaken(g, rules, t, reports, onDisk, mid, created, dir);
      assert MovedAbove(g, rules, t, reports, onDisk, o, q, p);
    }
    if o, q :| MovedAbove(g, rules, t, reports, onDisk, o, q, p) {
      TakenOldDir(g, rules, t, reports, onDisk, mid, created, o, q);
    }
  }

  lemma OldDirTaken(
    g: Registry, rules: Rules, t: Tables, reports: seq<Report>, onDisk: string -> bool, mid: Tables,
    created: seq<string>, dir: string)
    returns (o: string, q: string)
    requires Before(g, rules, t, reports, mid, created) && dir in OldDirs(mid, created, onDisk)
    ensures TakenForMoved(g, rules, t, reports, onDisk, o, q) && SameContentHash(g, rules, t, reports, o, q)
    ensures RenamedDirectory(o, q) == Some(dir) && !onDisk(dir)
  {
    hide Reported, New, SameContentHash, ChildOf, ParentOf, At;
    var a, i :| a in Vanished(mid, created, onDisk) && 0 <= i < |created| && SameHash(mid, a, created[i])
      && RenamedDirectory(a, created[i]).Some? && !onDisk(RenamedDirectory(a, created[i]).value)
      && RenamedDirectory(a, created[i]).value == dir;
    o, q := a, created[i];
    HasRowsStored(mid, o);
    SameHashReported(g, rules, t, reports, mid, created, o, q);
  }

  lemma TakenOldDir(
    g: Registry, rules: Rules, t: Tables, reports: seq<Report>, onDisk: string -> bool, mid: Tables,
    created: seq<string>, o: string, q: string)
    requires Before(g, rules, t, reports, mid, created)
    requires TakenForMoved(g, rules, t, reports, onDisk, o, q) && SameContentHash(g, rules, t, reports, o, q)
    requires RenamedDirectory(o, q).Some? && !onDisk(RenamedDirectory(o, q).value)
    ensures RenamedDirectory(o, q).value in OldDirs(mid, created, onDisk)
  {
    hide Reported, New, SameContentHash, ChildOf, ParentOf, At, Vanished;
    assert At(mid, o) != NO_ROWS;
    VanishedTaken(g, rules, t, reports, onDisk, mid, created, o);
    SameHashReported(g, rules, t, reports, mid, created, o, q);
    assert q in created;
    var i :| 0 <= i < |created| && created[i] == q;
  }

  /** So, of what only one report of a batch is about: a path that could not be looked up or read keeps its rows, with
      the failure on record, and one below such a path keeps them as they are, exactly when the sweep does not take
      it; and what is said to be gone is gone. */
  lemma IncrementalRetention(
    g: Registry, rules: Rules, reports: seq<Report>, onDisk: string -> bool, now: int, t: Tables, m: Meta, mid: Tables,
    created: seq<string>, t': Tables, m': Meta, i: nat, p: string, detail: string)
    requires PathsCommit(g, rules, reports, onDisk, now, t, m, mid, created, t', m')
    requires OnlyReport(rules, reports, i, p)
    ensures ReportsFailure(g, rules, reports[i], p, detail) ==>
      (At(t', p) == At(t, p).(readFailure := Some(detail)) <==> !Swept(g, rules, t, reports, onDisk, p))
    ensures LeavesOpen(g, rules, reports[i], p) && At(t, p) != NO_ROWS ==>
      (At(t', p) == At(t, p) <==> !Swept(g, rules, t, reports, onDisk, p))
    ensures SaysGone(g, rules, reports[i], p) ==> At(t', p) == NO_ROWS
    ensures m'.lastFullReconciledAt == m.lastFullReconciledAt
  {
    hide At, ReportRows, RenamedAway, ReportsFailure, LeavesOpen, SaysGone, Swept, CreatedBy, OnlyReport;
    OneReport(g, rules, At(t, p), p, reports, i);
    OnlyAdmitted(rules, reports, i, p);
    ReportKeeps(g, rules, At(t, p), p, reports[i], detail);
    assert Before(g, rules, t, reports, mid, created);
    assert At(t', p) == if RenamedAway(mid, created, onDisk, p) then NO_ROWS else At(mid, p);
    if At(mid, p) != NO_ROWS { SweptIff(g, rules, t, reports, onDisk, mid, created, p); }
  }

  lemma OnlyAdmitted(rules: Rules, reports: seq<Report>, i: nat, p: string)
    requires OnlyReport(rules, reports, i, p)
    ensures i < |reports| && !IsExcluded(rules, reports[i].path)
  {
    hide IsExcluded;
  }

  /** Nothing that is found on disk under its own name, with all that is above it, is swept. */
  lemma OnDiskNotSwept(
    g: Registry, rules: Rules, t: Tables, reports: seq<Report>, onDisk: string -> bool, p: string)
    requires forall q :: AtOrUnder(p, q) ==> onDisk(q)
    ensures !Swept(g, rules, t, reports, onDisk, p)
  {
    hide Reported, New, SameContentHash, ChildOf, ParentOf;
    assert AtOrUnder(p, p);
  }

  /** A path that may not be looked up does not resolve either, so it is swept when a file with its content is new
      somewhere else, although it may still be there. */
  lemma LockedFileSwept(
    g: Registry, rules: Rules, c: Content, denied: string, onDisk: string -> bool, now: int,
    t: Tables, m: Meta, mid: Tables, created: seq<string>, t': Tables, m': Meta)
    requires KindOf(g, "b").Source? && FreshFile(g, "b", c.bytes).Some?
    requires !IsExcluded(rules, "a/x") && !IsExcluded(rules, "b") && !onDisk("a/x")
    requires At(t, "a/x").file.Some? && At(t, "a/x").file.value.hash == g.hash(c.bytes) && At(t, "b") == NO_ROWS
    requires PathsCommit(g, rules, [Report("a/x", NoStat(denied)), Report("b", IsFile(Stable(c)))], onDisk, now,
                         t, m, mid, created, t', m')
    ensures At(mid, "a/x") == At(t, "a/x").(readFailure := Some(denied)) && At(t', "a/x") == NO_ROWS
  {
    hide At, IsExcluded, RenamedAway, Swept, ReportRows, CreatedBy;
    var reports := [Report("a/x", NoStat(denied)), Report("b", IsFile(Stable(c)))];
    assert OnlyReport(rules, reports, 0, "a/x") by { LockedReports(rules, c, denied); }
    assert ReportsFailure(g, rules, reports[0], "a/x", denied);
    OneReport(g, rules, At(t, "a/x"), "a/x", reports, 0);
    ReportKeeps(g, rules, At(t, "a/x"), "a/x", reports[0], denied);
    NewCopy(g, rules, t, reports, c, denied);
    assert TakenForMoved(g, rules, t, reports, onDisk, "a/x", "b");
    assert Swept(g, rules, t, reports, onDisk, "a/x") by { SweptByCopy(g, rules, t, reports, onDisk, "a/x", "b"); }
    assert Before(g, rules, t, reports, mid, created);
    SweptIff(g, rules, t, reports, onDisk, mid, created, "a/x");
  }

  lemma SweptByCopy(
    g: Registry, rules: Rules, t: Tables, reports: seq<Report>, onDisk: string -> bool, p: string, q: string)
    requires TakenForMoved(g, rules, t, reports, onDisk, p, q)
    ensures Swept(g, rules, t, reports, onDisk, p)
  {
    hide TakenForMoved;
  }

  lemma LockedReports(rules: Rules, c: Content, denied: string)
    requires !IsExcluded(rules, "a/x")
    ensures OnlyReport(rules, [Report("a/x", NoStat(denied)), Report("b", IsFile(Stable(c)))], 0, "a/x")
  {
    hide IsExcluded;
    assert ("b" + "/")[0] != "a/x"[0];
  }

  lemma NewCopy(g: Registry, rules: Rules, t: Tables, reports: seq<Report>, c: Content, denied: string)
    requires KindOf(g, "b").Source? && FreshFile(g, "b", c.bytes).Some?
    requires !IsExcluded(rules, "a/x") && !IsExcluded(rules, "b")
    requires At(t, "a/x").file.Some? && At(t, "a/x").file.value.hash == g.hash(c.bytes) && At(t, "b") == NO_ROWS
    requires reports == [Report("a/x", NoStat(denied)), Report("b", IsFile(Stable(c)))]
    ensures New(g, rules, t, reports, "b") && !New(g, rules, t, reports, "a/x")
    ensures SameContentHash(g, rules, t, reports, "a/x", "b")
  {
    hide IsExcluded, At;
    assert reports[..1] == [Report("a/x", NoStat(denied))] && reports[..1][..0] == [];
    var r := At(t, "a/x");
    assert ReportsRows(g, rules, NO_ROWS, "b", reports[..1]) == NO_ROWS;
    assert ReportsRows(g, rules, r, "a/x", reports[..1]) == Unread(r, denied);
    CreatedSingle(g, rules, NO_ROWS, "b", AtFile("b", Stable(c)));
    CreatedSingle(g, rules, Unread(r, denied), "a/x", AtFile("b", Stable(c)));
    assert !CreatedBy(g, rules, r, "a/x", reports[..1][..0]);
    assert !CreatedBy(g, rules, r, "a/x", reports[..1]);
  }
}
