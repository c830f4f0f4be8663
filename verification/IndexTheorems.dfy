/** What the full reindex runs promise: after any history of runs one that skips by hash leaves a fresh index, and
    what a run leaves of each kind of file. */
module IndexTheorems {
  import opened Wrappers
  import opened Paths
  import opened Exclude
  import opened PathRows
  import opened Indexer

  /** A disk all of whose files can be read; directories are implied. */
  type Disk = map<string, Content>

  // ------------------------------------------------------------ walks of a disk

  ghost predicate VisitsOnce(events: seq<Event>) {
    forall i, j :: 0 <= i < j < |events| && events[i].AtFile? && events[j].AtFile? ==> events[i].path != events[j].path
  }

  /** A walk from `dir` (the root when empty): every non-excluded file at or below it, once, as it is. */
  ghost predicate IsWalk(rules: Rules, d: Disk, dir: string, events: seq<Event>) {
    && VisitsOnce(events)
    && (forall i :: 0 <= i < |events| ==>
          && events[i].AtFile? && events[i].path in d && !IsExcluded(rules, events[i].path)
          && (dir == "" || Under(events[i].path, dir))
          && events[i].found == Stable(d[events[i].path]))
    && (forall p :: p in d && !IsExcluded(rules, p) && (dir == "" || Under(p, dir)) ==> Visited(events, p))
  }

  ghost predicate Visited(events: seq<Event>, p: string) {
    exists i :: 0 <= i < |events| && events[i].AtFile? && events[i].path == p
  }

  lemma {:induction false} WalkUnvisited(g: Registry, rules: Rules, r: Rows, p: string, events: seq<Event>, force: bool)
    requires forall i :: 0 <= i < |events| ==> events[i].Fault? || events[i].path != p
    ensures WalkRows(g, rules, r, p, events, force) == r
  {
    if events != [] {
      WalkUnvisited(g, rules, r, p, events[..|events| - 1], force);
    }
  }

  /** A path visited once gets the rows of that one visit. */
  lemma {:induction false} WalkVisitedAt(
    g: Registry, rules: Rules, r: Rows, p: string, events: seq<Event>, force: bool, i: nat)
    requires i < |events| && !events[i].Fault? && events[i].path == p
    requires forall j :: 0 <= j < |events| && j != i ==> events[j].Fault? || events[j].path != p
    ensures WalkRows(g, rules, r, p, events, force) == StepRows(g, rules, r, p, events[i], force)
  {
    hide StepRows;
    var n := |events| - 1;
    if i == n {
      WalkUnvisited(g, rules, r, p, events[..n], force);
    } else {
      WalkVisitedAt(g, rules, r, p, events[..n], force, i);
      StepOther(g, rules, WalkRows(g, rules, r, p, events[..n], force), p, events[n], force);
    }
  }

  lemma StepOther(g: Registry, rules: Rules, r: Rows, p: string, e: Event, force: bool)
    requires e.Fault? || e.path != p
    ensures StepRows(g, rules, r, p, e, force) == r
  {
  }

  lemma {:induction false} SeenPathsAre(g: Registry, rules: Rules, events: seq<Event>, s: Seen, p: string)
    requires s != SeenNothing
    ensures p in SeenPaths(g, rules, events, s) <==>
      exists i :: 0 <= i < |events| && EventSeen(g, rules, events[i]) == s && events[i].path == p
  {
    if events != [] {
      var n := |events| - 1;
      SeenPathsAre(g, rules, events[..n], s, p);
      if i :| 0 <= i < |events| && EventSeen(g, rules, events[i]) == s && events[i].path == p {
        if i < n { assert events[..n][i] == events[i]; }
      }
    }
  }

  /** How a readable file of each kind is seen. */
  function ReadSeen(g: Registry, p: string): Seen {
    if KindOf(g, p).Manifest? then SeenManifest else SeenSource
  }

  lemma WalkSeen(g: Registry, rules: Rules, d: Disk, dir: string, events: seq<Event>, p: string)
    requires IsWalk(rules, d, dir, events)
    ensures p in SeenPaths(g, rules, events, SeenSource) <==> Visited(events, p) && ReadSeen(g, p) == SeenSource
    ensures p in SeenPaths(g, rules, events, SeenManifest) <==> Visited(events, p) && ReadSeen(g, p) == SeenManifest
    ensures SeenPaths(g, rules, events, SeenUnreadable) == []
  {
    SeenPathsAre(g, rules, events, SeenSource, p);
    SeenPathsAre(g, rules, events, SeenManifest, p);
    assert forall i :: 0 <= i < |events| ==> EventSeen(g, rules, events[i]) == ReadSeen(g, events[i].path);
    NoneSeen(g, rules, events, SeenUnreadable);
  }

  lemma {:induction false} NoneSeen(g: Registry, rules: Rules, events: seq<Event>, s: Seen)
    requires s != SeenNothing && forall i :: 0 <= i < |events| ==> EventSeen(g, rules, events[i]) != s
    ensures SeenPaths(g, rules, events, s) == []
  {
    if events != [] { NoneSeen(g, rules, events[..|events| - 1], s); }
  }

  /** The rows a kind of file may have after a full run: dependencies for manifests, the rest otherwise. */
  function Kept(g: Registry, p: string, r: Rows): Rows {
    KeepRows(r, ReadSeen(g, p) == SeenSource, ReadSeen(g, p) == SeenManifest)
  }

  /** The rows of `p` after a full run over a readable disk. */
  function FullTarget(g: Registry, rules: Rules, r: Rows, p: string, d: Disk, force: bool): Rows {
    if p in d && !IsExcluded(rules, p) then
      var v := VisitRows(g, r, p, false, Stable(d[p]), force);
      if v.Visit? then Kept(g, p, v.rows) else r
    else NO_ROWS
  }

  /** The walk of a disk visits `p` exactly when it holds it and the rules admit it. */
  lemma WalkRowsAt(g: Registry, rules: Rules, r: Rows, p: string, d: Disk, dir: string, events: seq<Event>, force: bool)
    requires IsWalk(rules, d, dir, events)
    ensures Visited(events, p) <==> p in d && !IsExcluded(rules, p) && (dir == "" || Under(p, dir))
    ensures WalkRows(g, rules, r, p, events, force) ==
            if Visited(events, p) then VisitRows(g, r, p, false, Stable(d[p]), force).rows else r
  {
    hide VisitRows, IsExcluded;
    if Visited(events, p) {
      var i :| 0 <= i < |events| && events[i].AtFile? && events[i].path == p;
      forall j | 0 <= j < |events| && j != i ensures events[j].path != p {
        if j < i { assert events[j].path != events[i].path; } else { assert events[i].path != events[j].path; }
      }
      WalkVisitedAt(g, rules, r, p, events, force, i);
      StableVisits(g, r, p, false, d[p], force);
    } else {
      WalkUnvisited(g, rules, r, p, events, force);
    }
  }

  lemma FullRowsAre(g: Registry, rules: Rules, r: Rows, p: string, d: Disk, events: seq<Event>, force: bool)
    requires IsWalk(rules, d, "", events)
    ensures FullRows(g, rules, r, p, events, force) == FullTarget(g, rules, r, p, d, force)
  {
    hide VisitRows;
    WalkRowsAt(g, rules, r, p, d, "", events, force);
    WalkSeen(g, rules, d, "", events, p);
    if Visited(events, p) { StableVisits(g, r, p, false, d[p], force); }
  }

  // ------------------------------------------------------------ runs and histories

  /** A run as far as the rows are concerned. Any number of files may change under it, fail to be
      read or abort it; `mid` and `created` are the state and list before the rename sweep. */
  datatype Run =
    | RolledBack
    | FullRun(rules: Rules, events: seq<Event>, force: bool)
    | PathsRun(rules: Rules, reports: seq<Report>, onDisk: string -> bool, mid: Tables, created: seq<string>)

  ghost predicate Ran(g: Registry, run: Run, t: Tables, t': Tables) {
    match run
    case RolledBack => t' == t
    case FullRun(rules, events, force) => forall p :: At(t', p) == FullRows(g, rules, At(t, p), p, events, force)
    case PathsRun(rules, reports, onDisk, mid, created) =>
      && (forall p :: At(mid, p) == ReportsRows(g, rules, At(t, p), p, reports))
      && (forall p :: At(t', p) == if RenamedAway(mid, created, onDisk, p) then NO_ROWS else At(mid, p))
  }

  /** `states` are the successive database states of `runs`, from a new database. */
  ghost predicate History(g: Registry, runs: seq<Run>, states: seq<Tables>) {
    && |states| == |runs| + 1 && states[0] == EMPTY
    && forall i :: 0 <= i < |runs| ==> Ran(g, runs[i], states[i], states[i + 1])
  }

  /** The committed runs of the class are runs in this sense. */
  lemma FullCommitRan(
    g: Registry, reload: Reload, events: seq<Event>, force: bool, now: int, t: Tables, m: Meta, t': Tables, m': Meta)
    requires FullCommit(g, reload, events, force, now, t, m, t', m')
    ensures Ran(g, FullRun(reload.value.0, events, force), t, t')
  {
    hide FullRows;
  }

  lemma PathsCommitRan(
    g: Registry, rules: Rules, reports: seq<Report>, onDisk: string -> bool, now: int,
    t: Tables, m: Meta, mid: Tables, created: seq<string>, t': Tables, m': Meta)
    requires PathsCommit(g, rules, reports, onDisk, now, t, m, mid, created, t', m')
    ensures Ran(g, PathsRun(rules, reports, onDisk, mid, created), t, t')
  {
    hide ReportsRows, RenamedAway, CreatedBy;
  }

  lemma {:induction false} WalkKeepsCache(
    g: Registry, rules: Rules, r: Rows, p: string, events: seq<Event>, force: bool)
    requires CacheOk(g, p, r)
    ensures CacheOk(g, p, WalkRows(g, rules, r, p, events, force))
  {
    if events != [] {
      var n := |events| - 1;
      var before := WalkRows(g, rules, r, p, events[..n], force);
      WalkKeepsCache(g, rules, r, p, events[..n], force);
      StepKeepsCache(g, rules, before, p, events[n], force);
    }
  }

  lemma StepKeepsCache(g: Registry, rules: Rules, r: Rows, p: string, e: Event, force: bool)
    requires CacheOk(g, p, r)
    ensures CacheOk(g, p, StepRows(g, rules, r, p, e, force))
  {
    hide VisitRows;
    if e.AtFile? && e.path == p && VisitRows(g, r, p, IsExcluded(rules, p), e.found, force).Visit? {
      VisitKeepsCache(g, r, p, IsExcluded(rules, p), e.found, force);
    }
  }

  lemma ReportKeepsCache(g: Registry, rules: Rules, r: Rows, p: string, report: Report)
    requires CacheOk(g, p, r)
    ensures CacheOk(g, p, ReportRows(g, rules, r, p, report))
  {
    hide WalkRows, StepRows, SeenPaths, SeenAs;
    if report.state.IsDir? { WalkKeepsCache(g, rules, r, p, report.state.events, false); }
    if report.state.IsFile? { StepKeepsCache(g, rules, r, p, AtFile(report.path, report.state.found), false); }
  }

  lemma {:induction false} ReportsKeepCache(g: Registry, rules: Rules, r: Rows, p: string, reports: seq<Report>)
    requires CacheOk(g, p, r)
    ensures CacheOk(g, p, ReportsRows(g, rules, r, p, reports))
  {
    if reports != [] {
      var n := |reports| - 1;
      ReportsKeepCache(g, rules, r, p, reports[..n]);
      ReportKeepsCache(g, rules, ReportsRows(g, rules, r, p, reports[..n]), p, reports[n]);
    }
  }

  lemma RunKeepsCache(g: Registry, run: Run, t: Tables, t': Tables)
    requires Ran(g, run, t, t') && forall p :: CacheOk(g, p, At(t, p))
    ensures forall p :: CacheOk(g, p, At(t', p))
  {
    hide At, CacheOk, WalkRows, ReportsRows, SeenPaths, SweepKeeps, RenamedAway;
    forall p ensures CacheOk(g, p, At(t', p)) {
      match run
      case RolledBack =>
      case FullRun(rules, events, force) =>
        WalkKeepsCache(g, rules, At(t, p), p, events, force);
        KeepKeepsCache(g, p, WalkRows(g, rules, At(t, p), p, events, force), At(t', p));
      case PathsRun(rules, reports, onDisk, mid, created) =>
        ReportsKeepCache(g, rules, At(t, p), p, reports);
        NoRowsCacheOk(g, p);
    }
  }

  lemma KeepKeepsCache(g: Registry, p: string, r: Rows, t: Rows)
    requires CacheOk(g, p, r) && exists a, b :: t == KeepRows(r, a, b)
    ensures CacheOk(g, p, t)
  {
  }

  lemma {:induction false} HistoryKeepsCache(g: Registry, runs: seq<Run>, states: seq<Tables>, i: nat)
    requires History(g, runs, states) && i < |states|
    ensures forall p :: CacheOk(g, p, At(states[i], p))
  {
    hide CacheOk, Ran;
    if i == 0 {
      forall p ensures CacheOk(g, p, At(states[0], p)) { NoRowsCacheOk(g, p); }
    } else {
      HistoryKeepsCache(g, runs, states, i - 1);
      RunKeepsCache(g, runs[i - 1], states[i - 1], states[i]);
    }
  }

  /** The hash skip is invisible. After any history of full, incremental and rolled-back runs, a
      full run over a readable disk leaves for every source path exactly the fresh rows of the
      file that is there, and none when there is none or it is excluded. */
  lemma CacheInvisible(
    g: Registry, runs: seq<Run>, states: seq<Tables>, rules: Rules, d: Disk, events: seq<Event>, force: bool,
    t: Tables, p: string)
    requires HashInjective(g) && History(g, runs, states) && IsWalk(rules, d, "", events)
    requires Ran(g, FullRun(rules, events, force), states[|runs|], t)
    requires KindOf(g, p).Source?
    ensures At(t, p) == if p in d && !IsExcluded(rules, p) then FreshRows(g, p, d[p].bytes) else NO_ROWS
  {
    hide VisitRows, CacheOk, FullRows;
    var r := At(states[|runs|], p);
    HistoryKeepsCache(g, runs, states, |runs|);
    FullRowsAre(g, rules, r, p, d, events, force);
    assert CacheOk(g, p, r);
    if p in d { VisitIsFresh(g, r, p, d[p], force); }
  }

  /** In particular it leaves what indexing the same disk from nothing would, forced or not and
      in whatever order either walk goes. */
  lemma SameAsFreshIndex(
    g: Registry, runs: seq<Run>, states: seq<Tables>, rules: Rules, d: Disk,
    events: seq<Event>, force: bool, t: Tables, events1: seq<Event>, force1: bool, fresh1: Tables, p: string)
    requires HashInjective(g) && History(g, runs, states)
    requires IsWalk(rules, d, "", events) && Ran(g, FullRun(rules, events, force), states[|runs|], t)
    requires IsWalk(rules, d, "", events1) && Ran(g, FullRun(rules, events1, force1), EMPTY, fresh1)
    requires KindOf(g, p).Source?
    ensures At(t, p) == At(fresh1, p)
  {
    hide Ran, FreshRows;
    CacheInvisible(g, runs, states, rules, d, events, force, t, p);
    assert History(g, [], [EMPTY]);
    CacheInvisible(g, [], [EMPTY], rules, d, events1, force1, fresh1, p);
  }

  // ------------------------------------------------------------ what each kind of file leaves

  /** The row of a source file that parses. */
  function ParsedRow(g: Registry, p: string, bytes: Bytes, text: string): Option<FileRow>
    requires g.parserLanguage(p).Some?
  {
    match g.parse(p, text)
    case ParseOk(parsed) => Some(FileRow(g.parserLanguage(p).value, g.hash(bytes), parsed))
    case SyntaxError(_) => None
  }

  /** The rows a full run over a readable disk leaves at `p`, which holds `c`, kind by kind, from rows `r` before it. */
  ghost predicate Leaves(g: Registry, p: string, c: Content, force: bool, r: Rows, t: Rows) {
    var text, hash := g.decode(c.bytes), g.hash(c.bytes);
    if g.manifestLanguage(p).Some? then
      && (g.isRockspec(p) ==>
            var a := if text.Some? then g.analyse(text.value) else g.unreadableRockspec;
            t == NO_ROWS.(deps := a.summary, items := a.items))
      && (!g.isRockspec(p) ==>
            t == NO_ROWS.(deps := if text.Some? then g.parseManifest(p, text.value) else r.deps, items := r.items))
    else if g.isAsset(p) then
      var key := g.assetHash(|c.bytes|, c.mtime);
      if !force && r.file.Some? && r.file.value.hash == key then
        t == NO_ROWS.(file := r.file, unsupported := r.unsupported, syntax := r.syntax)
      else t == NO_ROWS.(file := Some(FileRow("asset", key, g.assetParsed(p))), syntax := g.gltfIssue(p, c.bytes))
    else if g.parserLanguage(p).Some? then
      && t.readFailure == None && t.deps == [] && t.items == []
      && if !force && r.file.Some? && r.file.value.hash == hash then
           t.file == r.file && t.syntax == None && t.unsupported == r.unsupported
         else if text.None? then
           t.file == None && t.unsupported == r.unsupported
           && t.syntax == if 0 in c.bytes then None else Some(g.decodeIssue(c.bytes))
         else
           && t.file == ParsedRow(g, p, c.bytes, text.value)
           && t.unsupported == (if t.file.Some? then None else r.unsupported)
           && t.syntax == match g.parse(p, text.value) case ParseOk(_) => None case SyntaxError(d) => Some(d)
    else if g.pendingLanguage(p).Some? then
      t == r.(unsupported := g.pendingLanguage(p), deps := [], items := [])
    else t == r.(deps := [], items := [])
  }

  /** A full run over a readable disk, forced or not: manifests by name first, then assets, then what has a parser. */
  lemma FullRunLeaves(
    g: Registry, rules: Rules, d: Disk, events: seq<Event>, force: bool, t: Tables, t': Tables, p: string)
    requires IsWalk(rules, d, "", events) && Ran(g, FullRun(rules, events, force), t, t')
    ensures p in d && !IsExcluded(rules, p) ==> Leaves(g, p, d[p], force, At(t, p), At(t', p))
    ensures p !in d || IsExcluded(rules, p) ==> At(t', p) == NO_ROWS
  {
    hide IsWalk, FullRows, At, IsExcluded, VisitRows, Leaves;
    FullRowsAre(g, rules, At(t, p), p, d, events, force);
    if p in d && !IsExcluded(rules, p) {
      StableVisits(g, At(t, p), p, false, d[p], force);
      VisitLeaves(g, At(t, p), p, d[p], force);
    }
  }

  lemma VisitLeaves(g: Registry, r: Rows, p: string, c: Content, force: bool)
    requires VisitRows(g, r, p, false, Stable(c), force).Visit?
    ensures Leaves(g, p, c, force, r, Kept(g, p, VisitRows(g, r, p, false, Stable(c), force).rows))
  {
  }

  /** A forced run reads and parses every source file anew, whatever rows it finds, be they even wrong; only a language
      once called unsupported may linger beside a file that does not parse. */
  lemma ForcedRunIsFresh(
    g: Registry, rules: Rules, d: Disk, events: seq<Event>, t: Tables, t': Tables, p: string, text: Option<string>)
    requires IsWalk(rules, d, "", events) && Ran(g, FullRun(rules, events, true), t, t')
    requires g.manifestLanguage(p).None? && !g.isAsset(p) && g.parserLanguage(p).Some?
    requires p in d && !IsExcluded(rules, p) && text == g.decode(d[p].bytes)
    ensures text.Some? ==> At(t', p).file == ParsedRow(g, p, d[p].bytes, text.value)
    ensures text.None? ==>
      At(t', p).file == None && At(t', p).syntax == if 0 in d[p].bytes then None else Some(g.decodeIssue(d[p].bytes))
    ensures text.Some? ==>
      At(t', p).syntax == match g.parse(p, text.value) case ParseOk(_) => None case SyntaxError(detail) => Some(detail)
    ensures At(t', p) ==
      NO_ROWS.(file := At(t', p).file, syntax := At(t', p).syntax,
               unsupported := if At(t', p).file.Some? then None else At(t, p).unsupported)
  {
    hide IsWalk, FullRows, At, IsExcluded, ParsedRow;
    FullRunLeaves(g, rules, d, events, true, t, t', p);
  }

  // ------------------------------------------------------------ excluded paths

  /** No file, dependency or rockspec row of `r` is left. */
  predicate Bare(r: Rows) {
    r.file.None? && r.deps == [] && r.items == []
  }

  lemma {:induction false} WalkKeepsBare(g: Registry, rules: Rules, r: Rows, p: string, events: seq<Event>, force: bool)
    requires IsExcluded(rules, p) && Bare(r)
    ensures Bare(WalkRows(g, rules, r, p, events, force))
  {
    hide IsExcluded;
    if events != [] { WalkKeepsBare(g, rules, r, p, events[..|events| - 1], force); }
  }

  lemma {:induction false} ReportsKeepBare(g: Registry, rules: Rules, r: Rows, p: string, reports: seq<Report>)
    requires IsExcluded(rules, p) && Bare(r)
    ensures Bare(ReportsRows(g, rules, r, p, reports))
  {
    hide IsExcluded;
    if reports != [] {
      var n := |reports| - 1;
      var before := ReportsRows(g, rules, r, p, reports[..n]);
      ReportsKeepBare(g, rules, r, p, reports[..n]);
      if reports[n].state.IsDir? { WalkKeepsBare(g, rules, before, p, reports[n].state.events, false); }
    }
  }

  /** No run brings an excluded path back into the index: a full run leaves no row there, an
      incremental one under the same rules adds none. */
  lemma ExclusionKept(g: Registry, rules: Rules, run: Run, t: Tables, t': Tables, p: string)
    requires Ran(g, run, t, t') && IsExcluded(rules, p)
    requires run.FullRun? ==> run.rules == rules
    requires run.PathsRun? ==> run.rules == rules
    ensures run.FullRun? ==> At(t', p) == NO_ROWS
    ensures Bare(At(t, p)) ==> Bare(At(t', p))
  {
    hide IsExcluded, WalkRows, ReportsRows, SeenPaths, RenamedAway, At;
    match run
    case RolledBack =>
    case FullRun(_, events, force) =>
      assert At(t', p) == FullRows(g, rules, At(t, p), p, events, force);
    case PathsRun(_, reports, onDisk, mid, created) =>
      if Bare(At(t, p)) { ReportsKeepBare(g, rules, At(t, p), p, reports); }
  }
}
