/** The reindex runs of `indexer.rs` over the index tables. The connection is one value, so a
    rolled-back transaction restores it. */
module Indexer {
  import opened Limits
  import opened Wrappers
  import opened Paths
  import opened Exclude
  import opened PathRows

  /** The `index_issues` rows of one path, by kind. */
  datatype Issues = Issues(unsupported: Option<string>, syntax: Option<string>, readFailure: Option<string>)

  datatype Tables = Tables(
    files: map<string, FileRow>, issues: map<string, Issues>,
    dependencies: map<string, seq<Dependency>>, items: map<string, seq<string>>)

  /** The `index_meta` rows. */
  datatype Meta = Meta(generation: Option<int>, lastIndexedAt: Option<int>, lastFullReconciledAt: Option<int>)

  const NO_ISSUES: Issues := Issues(None, None, None)
  const EMPTY: Tables := Tables(map[], map[], map[], map[])

  function Get<V>(m: map<string, V>, p: string, default: V): V {
    if p in m then m[p] else default
  }

  /** All rows stored for `p`. */
  function At(t: Tables, p: string): Rows {
    var i := Get(t.issues, p, NO_ISSUES);
    Rows(if p in t.files then Some(t.files[p]) else None,
         i.unsupported, i.syntax, i.readFailure,
         Get(t.dependencies, p, []), Get(t.items, p, []))
  }

  function Without(t: Tables, gone: set<string>): Tables {
    Tables(t.files - gone, t.issues - gone, t.dependencies - gone, t.items - gone)
  }

  lemma WithoutAt(t: Tables, gone: set<string>, p: string)
    ensures At(Without(t, gone), p) == if p in gone then NO_ROWS else At(t, p)
  {
  }

  /** `t1` has the rows that `t` has at `p`, for files and issues and for manifests if so told. */
  predicate Cut(t: Tables, t1: Tables, p: string, keepFile: bool, keepDeps: bool) {
    && (p in t1.files <==> p in t.files && keepFile) && (p in t1.files ==> t1.files[p] == t.files[p])
    && (p in t1.issues <==> p in t.issues && keepFile) && (p in t1.issues ==> t1.issues[p] == t.issues[p])
    && (p in t1.dependencies <==> p in t.dependencies && keepDeps)
    && (p in t1.dependencies ==> t1.dependencies[p] == t.dependencies[p])
    && (p in t1.items <==> p in t.items && keepDeps) && (p in t1.items ==> t1.items[p] == t.items[p])
  }

  lemma CutAt(t: Tables, t1: Tables, p: string, keepFile: bool, keepDeps: bool)
    requires Cut(t, t1, p, keepFile, keepDeps)
    ensures At(t1, p) == KeepRows(At(t, p), keepFile, keepDeps)
  {
  }

  lemma WithoutSize<V>(m: map<string, V>, gone: set<string>)
    ensures |m - gone| == |m| - |m.Keys * gone|
  {
    assert (m - gone).Keys == m.Keys - gone;
    assert m.Keys == (m.Keys - gone) + (m.Keys * gone);
  }

  // ------------------------------------------------------------ what a run sees

  /** One step of a directory walk: a file entry, an entry the walk could not read, or a failing
      statement or panic while it was handled. */
  datatype Event = AtFile(path: string, found: Found) | AtError(path: string, detail: string) | Fault

  function StepRows(g: Registry, rules: Rules, r: Rows, p: string, e: Event, force: bool): Rows {
    match e
    case AtFile(q, f) =>
      if q != p then r
      else
        var v := VisitRows(g, r, p, IsExcluded(rules, p), f, force);
        if v.Visit? then v.rows else r
    case AtError(q, d) => if q == p then Unread(r, d) else r
    case Fault => r
  }

  /** The rows of `p` after the events of a walk. */
  function WalkRows(g: Registry, rules: Rules, r: Rows, p: string, events: seq<Event>, force: bool): Rows {
    if events == [] then r
    else
      var n := |events| - 1;
      StepRows(g, rules, WalkRows(g, rules, r, p, events[..n], force), p, events[n], force)
  }

  function EventSeen(g: Registry, rules: Rules, e: Event): Seen {
    match e
    case AtFile(p, f) => SeenAs(g, p, IsExcluded(rules, p), f)
    case AtError(_, _) => SeenUnreadable
    case Fault => SeenNothing
  }

  /** The paths a walk saw as `s`, in order. */
  function SeenPaths(g: Registry, rules: Rules, events: seq<Event>, s: Seen): seq<string>
    requires s != SeenNothing
  {
    if events == [] then []
    else
      var n := |events| - 1;
      var init := SeenPaths(g, rules, events[..n], s);
      if EventSeen(g, rules, events[n]) == s then init + [events[n].path] else init
  }

  /** The rows of every path. */
  function RowsOf(t: Tables): string -> Rows { (p: string) => At(t, p) }

  /** Whether handling an event fails, given the rows before the walk. */
  predicate Fails(g: Registry, rules: Rules, rows: string -> Rows, before: seq<Event>, e: Event, force: bool) {
    match e
    case AtFile(p, f) =>
      VisitRows(g, WalkRows(g, rules, rows(p), p, before, force), p, IsExcluded(rules, p), f, force).SourceChanged?
    case AtError(_, _) => false
    case Fault => true
  }

  /** No event of the walk fails. */
  predicate WalkOk(g: Registry, rules: Rules, rows: string -> Rows, events: seq<Event>, force: bool) {
    events == [] ||
    var n := |events| - 1;
    WalkOk(g, rules, rows, events[..n], force) && !Fails(g, rules, rows, events[..n], events[n], force)
  }

  /** Whether a sweep of the whole index keeps the rows of `p`. */
  predicate SweepKeeps(rules: Rules, p: string, seen: seq<string>, unreadable: seq<string>) {
    !IsExcluded(rules, p) && (p in seen || IsRetained(p, unreadable))
  }

  function SweepRows(
    rules: Rules, r: Rows, p: string, seen: seq<string>, manifests: seq<string>, unreadable: seq<string>): Rows
  {
    KeepRows(r, SweepKeeps(rules, p, seen, unreadable), SweepKeeps(rules, p, manifests, unreadable))
  }

  function KeepRows(r: Rows, keepFile: bool, keepDeps: bool): Rows {
    var r1 := if keepFile then r else r.(file := None, unsupported := None, syntax := None, readFailure := None);
    if keepDeps then r1 else r1.(deps := [], items := [])
  }

  /** The rows of `p` after a committed full run. */
  function FullRows(g: Registry, rules: Rules, r: Rows, p: string, events: seq<Event>, force: bool): Rows {
    SweepRows(rules, WalkRows(g, rules, r, p, events, force), p,
              SeenPaths(g, rules, events, SeenSource), SeenPaths(g, rules, events, SeenManifest),
              SeenPaths(g, rules, events, SeenUnreadable))
  }

  // ------------------------------------------------------------ what an incremental run sees

  predicate HasRows(r: Rows) {
    r != NO_ROWS
  }

  /** Whether a walk indexed `p` for the first time, starting from rows `r`. */
  predicate CreatedAt(g: Registry, rules: Rules, r: Rows, p: string, events: seq<Event>, force: bool) {
    events != [] &&
    var n := |events| - 1;
    var e := events[n];
    || CreatedAt(g, rules, r, p, events[..n], force)
    || (&& e.AtFile? && e.path == p
        && (EventSeen(g, rules, e).SeenSource? || EventSeen(g, rules, e).SeenManifest?)
        && !HasRows(WalkRows(g, rules, r, p, events[..n], force))
        && HasRows(WalkRows(g, rules, r, p, events, force)))
  }

  lemma CreatedSingle(g: Registry, rules: Rules, r: Rows, p: string, e: Event)
    requires e.AtFile?
    ensures CreatedAt(g, rules, r, p, [e], false) <==>
      (&& e.path == p && (EventSeen(g, rules, e).SeenSource? || EventSeen(g, rules, e).SeenManifest?)
       && !HasRows(r) && HasRows(StepRows(g, rules, r, p, e, false)))
  {
    assert [e][..0] == [];
    assert WalkRows(g, rules, r, p, [e], false) == StepRows(g, rules, r, p, e, false);
  }

  /** What is on disk at a reported path: a directory with the walk below it, a file, a path that
      may not even be looked up, or nothing. */
  datatype DiskState = IsDir(events: seq<Event>) | IsFile(found: Found) | NoStat(detail: string) | Missing

  datatype Report = Report(path: string, state: DiskState)

  /** What the sweep at or under one reported path keeps of the rows of `p`. */
  function PrefixRows(
    r: Rows, p: string, dir: string, keep: seq<string>, keepManifests: seq<string>, unreadable: seq<string>): Rows
  {
    if !AtOrUnder(p, dir) then r
    else KeepRows(r, p in keep || IsRetained(p, unreadable), p in keepManifests || IsRetained(p, unreadable))
  }

  /** The rows of `p` after one reported path was handled. */
  function ReportRows(g: Registry, rules: Rules, r: Rows, p: string, report: Report): Rows {
    var dir := report.path;
    if IsExcluded(rules, dir) then r
    else
      match report.state
      case IsDir(events) =>
        PrefixRows(WalkRows(g, rules, r, p, events, false), p, dir,
                   SeenPaths(g, rules, events, SeenSource), SeenPaths(g, rules, events, SeenManifest),
                   SeenPaths(g, rules, events, SeenUnreadable))
      case IsFile(f) =>
        var r1 := StepRows(g, rules, r, p, AtFile(dir, f), false);
        if SeenAs(g, dir, false, f).SeenNothing? then PrefixRows(r1, p, dir, [], [], []) else r1
      case NoStat(d) => if p == dir then Unread(r, d) else r
      case Missing => PrefixRows(r, p, dir, [], [], [])
  }

  function ReportsRows(g: Registry, rules: Rules, r: Rows, p: string, reports: seq<Report>): Rows {
    if reports == [] then r
    else
      var n := |reports| - 1;
      ReportRows(g, rules, ReportsRows(g, rules, r, p, reports[..n]), p, reports[n])
  }

  /** What handling one report may do to the list of created paths, seen from `p`. */
  predicate CreatedByReport(g: Registry, rules: Rules, r: Rows, p: string, report: Report) {
    && !IsExcluded(rules, report.path)
    && match report.state
       case IsDir(events) => CreatedAt(g, rules, r, p, events, false)
       case IsFile(f) => CreatedAt(g, rules, r, p, [AtFile(report.path, f)], false)
       case NoStat(_) => false
       case Missing => false
  }

  predicate CreatedBy(g: Registry, rules: Rules, r: Rows, p: string, reports: seq<Report>) {
    reports != [] &&
    var n := |reports| - 1;
    || CreatedBy(g, rules, r, p, reports[..n])
    || CreatedByReport(g, rules, ReportsRows(g, rules, r, p, reports[..n]), p, reports[n])
  }

  // ------------------------------------------------------------ unreported ends of renames

  /** `p` sits directly in `parent`. */
  predicate ChildOf(p: string, parent: string) {
    if parent == "" then '/' !in p
    else Under(p, parent) && '/' !in p[|parent| + 1..]
  }

  /** The directory of a path, empty at the root. */
  function ParentOf(p: string): string {
    var parts := Split(p);
    Join(parts[..|parts| - 1])
  }

  function Stored(t: Tables): set<string> {
    t.files.Keys + t.issues.Keys + t.dependencies.Keys + t.items.Keys
  }

  predicate SameHash(t: Tables, p: string, q: string) {
    p in t.files && q in t.files && t.files[p].hash == t.files[q].hash
  }

  /** The likely old ends of renames into `created` that are no longer on disk. */
  function Vanished(t: Tables, created: seq<string>, onDisk: string -> bool): set<string> {
    set p | p in Stored(t) && p !in created && !onDisk(p)
            && exists i :: 0 <= i < |created| && (SameHash(t, p, created[i]) || ChildOf(p, ParentOf(created[i])))
  }

  /** The directories those renames moved away, gone from the disk too. */
  function OldDirs(t: Tables, created: seq<string>, onDisk: string -> bool): set<string> {
    set p, i | p in Vanished(t, created, onDisk) && 0 <= i < |created| && SameHash(t, p, created[i])
               && RenamedDirectory(p, created[i]).Some? && !onDisk(RenamedDirectory(p, created[i]).value)
            :: RenamedDirectory(p, created[i]).value
  }

  predicate UnderAny(p: string, dirs: set<string>) {
    exists d :: d in dirs && AtOrUnder(p, d)
  }

  lemma NothingKept(r: Rows, p: string, dir: string)
    ensures PrefixRows(r, p, dir, [], [], []) == if AtOrUnder(p, dir) then NO_ROWS else r
  {
  }

  predicate RenamedAway(t: Tables, created: seq<string>, onDisk: string -> bool, p: string) {
    p in Vanished(t, created, onDisk) || UnderAny(p, OldDirs(t, created, onDisk))
  }

  /** A path sits beside another exactly when it has the same directory. */
  lemma BesideIff(p: string, dir: string, name: string)
    requires IsPart(name)
    ensures ChildOf(p, ParentOf(if dir == "" then name else dir + "/" + name)) <==>
      exists other :: IsPart(other) && p == if dir == "" then other else dir + "/" + other
  {
    ParentIs(dir, name);
    if dir == "" {
      assert ChildOf(p, "") <==> IsPart(p);
    } else {
      if ChildOf(p, dir) {
        assert p == dir + "/" + p[|dir| + 1..];
      }
      if other :| IsPart(other) && p == dir + "/" + other {
        assert dir + "/" <= p && p[|dir| + 1..] == other;
      }
    }
  }

  lemma ParentIs(dir: string, name: string)
    requires IsPart(name)
    ensures ParentOf(if dir == "" then name else dir + "/" + name) == dir
  {
    hide Split;
    SplitPart(name);
    if dir == "" {
      assert Split(name)[..|Split(name)| - 1] == [];
    } else {
      SplitParts(dir);
      var parts := Split(dir) + [name];
      JoinConcat(Split(dir), [name]);
      assert Join(parts) == dir + "/" + name;
      SplitJoin(parts);
      assert parts[..|parts| - 1] == Split(dir);
    }
  }

  // ------------------------------------------------------------ deletions

  /** Deletes the rows of one table that lie at or under `dir`, except `keep` and what is retained. */
  method DropRange<V>(stored: map<string, V>, dir: string, keep: set<string>, unreadable: seq<string>)
    returns (kept: map<string, V>, removed: nat)
    ensures kept == map p | p in stored && (!AtOrUnder(p, dir) || p in keep || IsRetained(p, unreadable)) :: stored[p]
    ensures removed == |stored| - |kept|
  {
    kept, removed := stored, 0;
    forall p { InRangeExact(p, dir); }
    var todo := set p | p in stored && InRange(p, dir);
    ghost var gone: set<string> := {};
    while todo != {}
      invariant forall p :: p in todo ==> p in stored && AtOrUnder(p, dir)
      invariant forall p :: p in stored && AtOrUnder(p, dir) ==>
        p in todo || (p in kept <==> p in keep || IsRetained(p, unreadable))
      invariant forall p :: p in stored && (!AtOrUnder(p, dir) || p in todo) ==> p in kept
      invariant forall p :: p in kept ==> p in stored && kept[p] == stored[p]
      invariant removed == |stored| - |kept|
      decreases |todo|
    {
      var p :| p in todo;
      if p !in keep && !IsRetained(p, unreadable) {
        assert |kept - {p}| == |kept| - 1 by { assert (kept - {p}).Keys == kept.Keys - {p}; }
        kept := kept - {p};
        removed := removed + 1;
      }
      todo := todo - {p};
    }
  }

  /** Deletes the rows of one table whose path is excluded, or neither seen nor retained. */
  method DropMissing<V>(stored: map<string, V>, rules: Rules, seen: set<string>, unreadable: seq<string>)
    returns (kept: map<string, V>, removed: nat)
    ensures kept ==
      map p | p in stored && !IsExcluded(rules, p) && (p in seen || IsRetained(p, unreadable)) :: stored[p]
    ensures removed == |stored| - |kept|
  {
    kept, removed := stored, 0;
    var todo := stored.Keys;
    while todo != {}
      invariant forall p :: p in todo ==> p in stored && p in kept
      invariant forall p :: p in stored ==>
        p in todo || (p in kept <==> !IsExcluded(rules, p) && (p in seen || IsRetained(p, unreadable)))
      invariant forall p :: p in kept ==> p in stored && kept[p] == stored[p]
      invariant removed == |stored| - |kept|
      decreases |todo|
    {
      var p :| p in todo;
      if IsExcluded(rules, p) || (p !in seen && !IsRetained(p, unreadable)) {
        assert |kept - {p}| == |kept| - 1 by { assert (kept - {p}).Keys == kept.Keys - {p}; }
        kept := kept - {p};
        removed := removed + 1;
      }
      todo := todo - {p};
    }
  }

  // ------------------------------------------------------------ the index

  function PublishedGeneration(m: Meta): Option<int> {
    match m.generation
    case None => Some(0)
    case Some(n) => if n >= 0 then Some(n) else None
  }

  /** The exclusion rules a run reads before its walk, with their generation; `None` when a rule
      file could not be read. */
  type Reload = Option<(Rules, nat)>

  class Index {
    var tables: Tables
    var meta: Meta
    /** The rule generation the last full run applied. */
    var appliedExclusions: nat

    constructor (t: Tables, m: Meta, generation: nat)
      ensures tables == t && meta == m && appliedExclusions == generation
    {
      tables, meta, appliedExclusions := t, m, generation;
    }

    method SetIssues(p: string, i: Issues)
      modifies this`tables
      ensures tables == old(tables).(issues := old(tables).issues[p := i])
    {
      tables := tables.(issues := tables.issues[p := i]);
    }

    method RecordReadFailure(p: string, detail: string)
      modifies this`tables
      ensures At(tables, p) == Unread(old(At(tables, p)), detail)
      ensures forall q :: q != p ==> At(tables, q) == old(At(tables, q))
    {
      SetIssues(p, Get(tables.issues, p, NO_ISSUES).(readFailure := Some(detail)));
    }

    method ClearReadFailure(p: string)
      modifies this`tables
      ensures At(tables, p) == old(At(tables, p)).(readFailure := None)
      ensures forall q :: q != p ==> At(tables, q) == old(At(tables, q))
      ensures tables.files == old(tables).files
    {
      SetIssues(p, Get(tables.issues, p, NO_ISSUES).(readFailure := None));
    }

    method SetSyntaxIssue(p: string, issue: Option<string>)
      modifies this`tables
      ensures At(tables, p) == old(At(tables, p)).(syntax := issue)
      ensures forall q :: q != p ==> At(tables, q) == old(At(tables, q))
    {
      SetIssues(p, Get(tables.issues, p, NO_ISSUES).(syntax := issue));
    }

    method WriteManifestDependencies(p: string, deps: seq<Dependency>)
      modifies this`tables
      ensures At(tables, p) == old(At(tables, p)).(deps := deps)
      ensures forall q :: q != p ==> At(tables, q) == old(At(tables, q))
    {
      tables := tables.(dependencies := tables.dependencies - {p});
      for i := 0 to |deps|
        invariant At(tables, p) == old(At(tables, p)).(deps := deps[..i])
        invariant forall q :: q != p ==> At(tables, q) == old(At(tables, q))
      {
        assert deps[..i + 1] == deps[..i] + [deps[i]];
        tables := tables.(dependencies := tables.dependencies[p := Get(tables.dependencies, p, []) + [deps[i]]]);
      }
      assert deps[..|deps|] == deps;
    }

    method WriteRockspec(p: string, a: Analysis)
      modifies this`tables
      ensures At(tables, p) == old(At(tables, p)).(deps := a.summary, items := a.items)
      ensures forall q :: q != p ==> At(tables, q) == old(At(tables, q))
    {
      WriteManifestDependencies(p, a.summary);
      tables := tables.(items := tables.items - {p});
      for i := 0 to |a.items|
        invariant At(tables, p) == old(At(tables, p)).(deps := a.summary, items := a.items[..i])
        invariant forall q :: q != p ==> At(tables, q) == old(At(tables, q))
      {
        assert a.items[..i + 1] == a.items[..i] + [a.items[i]];
        tables := tables.(items := tables.items[p := Get(tables.items, p, []) + [a.items[i]]]);
      }
      assert a.items[..|a.items|] == a.items;
    }

    /** Replaces the row of `p` with everything that cascades from it, and clears its issues. */
    method WriteParsedFile(p: string, language: string, hash: string, parsed: Parsed)
      modifies this`tables
      ensures At(tables, p) == ClearIssues(old(At(tables, p))).(file := Some(FileRow(language, hash, parsed)))
      ensures forall q :: q != p ==> At(tables, q) == old(At(tables, q))
    {
      tables := tables.(files := tables.files[p := FileRow(language, hash, parsed)], issues := tables.issues - {p});
    }

    method DeleteFile(p: string)
      modifies this`tables
      ensures At(tables, p) == old(At(tables, p)).(file := None)
      ensures forall q :: q != p ==> At(tables, q) == old(At(tables, q))
    {
      tables := tables.(files := tables.files - {p});
    }

    method IndexManifest(g: Registry, p: string, bytes: Bytes)
      modifies this`tables
      ensures At(tables, p) == VisitManifest(g, old(At(tables, p)), p, bytes)
      ensures forall q :: q != p ==> At(tables, q) == old(At(tables, q))
    {
      ClearReadFailure(p);
      var text := g.decode(bytes);
      if g.isRockspec(p) {
        WriteRockspec(p, if text.Some? then g.analyse(text.value) else g.unreadableRockspec);
      } else if text.Some? {
        WriteManifestDependencies(p, g.parseManifest(p, text.value));
      }
    }

    method IndexAsset(g: Registry, p: string, c: Content, force: bool)
      modifies this`tables
      ensures At(tables, p) == VisitAsset(g, old(At(tables, p)), p, c, force)
      ensures forall q :: q != p ==> At(tables, q) == old(At(tables, q))
    {
      var hash := g.assetHash(|c.bytes|, c.mtime);
      if !force && p in tables.files && tables.files[p].hash == hash {
        ClearReadFailure(p);
        return;
      }
      var issue := g.gltfIssue(p, c.bytes);
      WriteParsedFile(p, "asset", hash, g.assetParsed(p));
      if issue.Some? {
        SetSyntaxIssue(p, issue);
      }
    }

    /** Indexes a source file; `ok` is false when it changed while it was parsed. */
    method IndexSource(
      g: Registry, p: string, language: string, c: Content, again: Option<Bytes>, force: bool)
      returns (ok: bool)
      modifies this`tables
      ensures var v := VisitSource(g, old(At(tables, p)), p, language, c, again, force);
        ok == v.Visit? && (ok ==> At(tables, p) == v.rows)
      ensures forall q :: q != p ==> At(tables, q) == old(At(tables, q))
    {
      ClearReadFailure(p);
      var hash := g.hash(c.bytes);
      if !force && p in tables.files && tables.files[p].hash == hash {
        SetSyntaxIssue(p, None);
        return true;
      }
      var text := g.decode(c.bytes);
      if text.None? {
        SetSyntaxIssue(p, None);
        DeleteFile(p);
        if 0 !in c.bytes {
          SetSyntaxIssue(p, Some(g.decodeIssue(c.bytes)));
        }
        return true;
      }
      var outcome := g.parse(p, text.value);
      if again.None? || g.hash(again.value) != hash { return false; }
      match outcome {
        case ParseOk(parsed) => WriteParsedFile(p, language, hash, parsed);
        case SyntaxError(detail) =>
          DeleteFile(p);
          SetSyntaxIssue(p, Some(detail));
      }
      ok := true;
    }

    /** Indexes the one file at `p`; `ok` is false when the run must end. */
    method IndexFile(g: Registry, rules: Rules, p: string, f: Found, force: bool) returns (seen: Seen, ok: bool)
      modifies this`tables
      ensures var v := VisitRows(g, old(At(tables, p)), p, IsExcluded(rules, p), f, force);
        ok == v.Visit? && (ok ==> At(tables, p) == v.rows)
      ensures ok ==> seen == SeenAs(g, p, IsExcluded(rules, p), f)
      ensures forall q :: q != p ==> At(tables, q) == old(At(tables, q))
    {
      ok := true;
      if f.Gone? { return SeenNothing, true; }
      if f.Denied? {
        RecordReadFailure(p, f.detail);
        return SeenUnreadable, true;
      }
      if IsExcluded(rules, p) { return SeenNothing, true; }
      match KindOf(g, p) {
        case Manifest(_) =>
          if f.Unreadable? {
            RecordReadFailure(p, f.detail);
            return SeenUnreadable, true;
          }
          IndexManifest(g, p, f.content.bytes);
          return SeenManifest, true;
        case Asset =>
          if f.Unreadable? {
            RecordReadFailure(p, f.detail);
            return SeenUnreadable, true;
          }
          IndexAsset(g, p, f.content, force);
        case Source(language) =>
          if f.Unreadable? {
            RecordReadFailure(p, f.detail);
            return SeenUnreadable, true;
          }
          ok := IndexSource(g, p, language, f.content, f.again, force);
        case Pending(language) =>
          SetIssues(p, Get(tables.issues, p, NO_ISSUES).(unsupported := Some(language)));
        case Other =>
      }
      seen := SeenSource;
    }

    /** Deletes every row at or under `dir` except what is kept or retained. */
    method RemoveUnderPrefix(dir: string, keep: seq<string>, keepManifests: seq<string>, unreadable: seq<string>)
      returns (removed: nat)
      modifies this`tables
      ensures forall p :: At(tables, p) == PrefixRows(old(At(tables, p)), p, dir, keep, keepManifests, unreadable)
      ensures removed == |old(tables).files| - |tables.files|
    {
      hide AtOrUnder, IsRetained, At;
      var keptPaths, keptManifests := set p | p in keep, set p | p in keepManifests;
      var files, issues, dependencies, items, n;
      files, removed := DropRange(tables.files, dir, keptPaths, unreadable);
      issues, n := DropRange(tables.issues, dir, keptPaths, unreadable);
      dependencies, n := DropRange(tables.dependencies, dir, keptManifests, unreadable);
      items, n := DropRange(tables.items, dir, keptManifests, unreadable);
      ghost var before := tables;
      tables := Tables(files, issues, dependencies, items);
      forall p ensures At(tables, p) == PrefixRows(At(before, p), p, dir, keep, keepManifests, unreadable) {
        CutAt(before, tables, p, !AtOrUnder(p, dir) || p in keptPaths || IsRetained(p, unreadable),
              !AtOrUnder(p, dir) || p in keptManifests || IsRetained(p, unreadable));
      }
    }

    /** Deletes the file and issue rows whose path is excluded, or neither seen nor retained. */
    method RemoveMissingFiles(rules: Rules, seen: seq<string>, unreadable: seq<string>) returns (removed: nat)
      modifies this`tables
      ensures forall p :: At(tables, p) == KeepRows(old(At(tables, p)), SweepKeeps(rules, p, seen, unreadable), true)
      ensures removed == |old(tables).files| - |tables.files|
    {
      var seenPaths := set p | p in seen;
      var files, issues, n;
      files, removed := DropMissing(tables.files, rules, seenPaths, unreadable);
      issues, n := DropMissing(tables.issues, rules, seenPaths, unreadable);
      tables := tables.(files := files, issues := issues);
    }

    /** Deletes the dependency rows of manifests that are excluded, or neither seen nor retained. */
    method RemoveMissingManifests(rules: Rules, manifests: seq<string>, unreadable: seq<string>)
      modifies this`tables
      ensures forall p ::
        At(tables, p) == KeepRows(old(At(tables, p)), true, SweepKeeps(rules, p, manifests, unreadable))
    {
      var seenManifests := set p | p in manifests;
      var dependencies, items, n;
      dependencies, n := DropMissing(tables.dependencies, rules, seenManifests, unreadable);
      items, n := DropMissing(tables.items, rules, seenManifests, unreadable);
      tables := tables.(dependencies := dependencies, items := items);
    }

    /** Handles one event of a walk; `isNew` when it indexed a path for the first time. */
    method WalkStep(g: Registry, rules: Rules, e: Event, force: bool) returns (ok: bool, seen: Seen, isNew: bool)
      modifies this`tables
      ensures ok <==> !Fails(g, rules, RowsOf(old(tables)), [], e, force)
      ensures ok ==> forall p :: At(tables, p) == StepRows(g, rules, old(At(tables, p)), p, e, force)
      ensures ok ==> seen == EventSeen(g, rules, e) && e != Fault
      ensures isNew ==> e.AtFile?
      ensures ok && e.AtFile? ==>
        isNew == (&& (seen.SeenSource? || seen.SeenManifest?)
                  && !HasRows(old(At(tables, e.path))) && HasRows(At(tables, e.path)))
    {
      isNew := false;
      match e {
        case Fault => return false, SeenNothing, false;
        case AtError(p, detail) =>
          RecordReadFailure(p, detail);
          return true, SeenUnreadable, false;
        case AtFile(p, f) =>
          var wasIndexed := HasRows(At(tables, p));
          seen, ok := IndexFile(g, rules, p, f, force);
          isNew := ok && (seen.SeenSource? || seen.SeenManifest?) && !wasIndexed && HasRows(At(tables, p));
      }
    }

    /** The walk shared by both runs; `created` are the paths indexed for the first time. */
    method Walk(g: Registry, rules: Rules, events: seq<Event>, force: bool)
      returns (ok: bool, seen: seq<string>, manifests: seq<string>, unreadable: seq<string>, created: seq<string>)
      modifies this`tables
      ensures ok <==> WalkOk(g, rules, RowsOf(old(tables)), events, force)
      ensures ok ==> forall p :: At(tables, p) == WalkRows(g, rules, old(At(tables, p)), p, events, force)
      ensures ok ==> seen == SeenPaths(g, rules, events, SeenSource)
      ensures ok ==> manifests == SeenPaths(g, rules, events, SeenManifest)
      ensures ok ==> unreadable == SeenPaths(g, rules, events, SeenUnreadable)
      ensures ok ==> forall p :: p in created <==> CreatedAt(g, rules, old(At(tables, p)), p, events, force)
    {
      hide At, VisitRows, StepRows, EventSeen, HasRows, IsExcluded;
      seen, manifests, unreadable, created := [], [], [], [];
      for i := 0 to |events|
        invariant WalkOk(g, rules, RowsOf(old(tables)), events[..i], force)
        invariant forall p :: At(tables, p) == WalkRows(g, rules, old(At(tables, p)), p, events[..i], force)
        invariant seen == SeenPaths(g, rules, events[..i], SeenSource)
        invariant manifests == SeenPaths(g, rules, events[..i], SeenManifest)
        invariant unreadable == SeenPaths(g, rules, events[..i], SeenUnreadable)
        invariant forall p :: p in created <==> CreatedAt(g, rules, old(At(tables, p)), p, events[..i], force)
      {
        assert events[..i + 1][..i] == events[..i];
        var s, isNew;
        ok, s, isNew := WalkStep(g, rules, events[i], force);
        if !ok {
          WalkFails(g, rules, RowsOf(old(tables)), events, i, force);
          return;
        }
        match s {
          case SeenSource => seen := seen + [events[i].path];
          case SeenManifest => manifests := manifests + [events[i].path];
          case SeenUnreadable => unreadable := unreadable + [events[i].path];
          case SeenNothing =>
        }
        if isNew { created := created + [events[i].path]; }
      }
      assert events[..|events|] == events;
      ok := true;
    }

    /** Advances the published generation; false when its value is invalid or exhausted. */
    method TouchLastIndexedAt(full: bool, now: int) returns (ok: bool)
      modifies this`meta
      ensures ok <==> CanPublish(old(meta))
      ensures ok ==>
        PublishedGeneration(meta) == Some(PublishedGeneration(old(meta)).value + 1) && meta.lastIndexedAt == Some(now)
      ensures ok ==> meta.lastFullReconciledAt == if full then Some(now) else old(meta).lastFullReconciledAt
    {
      var published := PublishedGeneration(meta);
      if published.None? || published.value >= I64_MAX { return false; }
      meta := meta.(lastIndexedAt := Some(now));
      meta := meta.(generation := match meta.generation case None => Some(1) case Some(n) => Some(n + 1));
      if full { meta := meta.(lastFullReconciledAt := Some(now)); }
      ok := true;
    }

    /** The body of a full run. `finishes` is false when the symbol accounting after it fails. */
    method ReindexInner(g: Registry, reload: Reload, events: seq<Event>, force: bool, now: int, finishes: bool)
      returns (ok: bool)
      modifies this
      ensures ok ==> FullCommit(g, reload, events, force, now, old(tables), old(meta), tables, meta)
      ensures ok <==> finishes && FullRunnable(g, reload, events, force, old(tables), old(meta))
      ensures appliedExclusions ==
        AppliedAfter(g, reload, events, force, old(tables), old(meta), old(appliedExclusions))
    {
      if reload.None? { return false; }
      var (rules, generation) := reload.value;
      var walked, seen, manifests, unreadable, created := Walk(g, rules, events, force);
      if !walked { return false; }
      var removed := RemoveMissingFiles(rules, seen, unreadable);
      RemoveMissingManifests(rules, manifests, unreadable);
      var touched := TouchLastIndexedAt(unreadable == [], now);
      if !touched { return false; }
      appliedExclusions := generation;
      ok := finishes;
    }

    /** Deletes every row of the paths `gone`. */
    method DeleteAll(gone: set<string>) returns (removed: nat)
      modifies this`tables
      ensures forall p :: At(tables, p) == if p in gone then NO_ROWS else old(At(tables, p))
      ensures removed == |old(tables).files| - |tables.files|
    {
      removed := |tables.files.Keys * gone|;
      WithoutSize(tables.files, gone);
      tables := Without(tables, gone);
      forall p ensures At(tables, p) == if p in gone then NO_ROWS else old(At(tables, p)) {
        WithoutAt(old(tables), gone, p);
      }
    }

    /** Deletes everything at or under the directories `dirs`. */
    method DropDirs(dirs: set<string>) returns (removed: nat)
      modifies this`tables
      ensures forall p :: At(tables, p) == if UnderAny(p, dirs) then NO_ROWS else old(At(tables, p))
      ensures removed == |old(tables).files| - |tables.files|
    {
      hide At, PrefixRows;
      removed := 0;
      var todo := dirs;
      while todo != {}
        invariant todo <= dirs
        invariant forall p :: At(tables, p) == if UnderAny(p, dirs - todo) then NO_ROWS else old(At(tables, p))
        invariant removed == |old(tables).files| - |tables.files|
        decreases |todo|
      {
        var d :| d in todo;
        ghost var before := tables;
        var n := RemoveUnderPrefix(d, [], [], []);
        removed := removed + n;
        forall p ensures At(tables, p) == if AtOrUnder(p, d) then NO_ROWS else At(before, p) {
          NothingKept(At(before, p), p, d);
        }
        assert dirs - (todo - {d}) == (dirs - todo) + {d};
        todo := todo - {d};
      }
      assert dirs - todo == dirs;
    }

    /** Drops the unreported old ends of renames into `created`. */
    method RemoveRenamedAway(created: seq<string>, onDisk: string -> bool) returns (removed: nat)
      modifies this`tables
      ensures forall p ::
        At(tables, p) == if RenamedAway(old(tables), created, onDisk, p) then NO_ROWS else old(At(tables, p))
      ensures removed == |old(tables).files| - |tables.files|
    {
      hide At, ParentOf, ChildOf;
      var vanished, oldDirs := Vanished(tables, created, onDisk), OldDirs(tables, created, onDisk);
      if vanished == {} {
        return 0;
      }
      removed := DeleteAll(vanished);
      var n := DropDirs(oldDirs);
      removed := removed + n;
    }

    /** Handles one reported path of an incremental run. */
    method HandleReport(g: Registry, rules: Rules, report: Report, created0: seq<string>)
      returns (ok: bool, created: seq<string>)
      modifies this`tables
      ensures ok <==> ReportOk(g, rules, RowsOf(old(tables)), report)
      ensures ok ==> forall p :: At(tables, p) == ReportRows(g, rules, old(At(tables, p)), p, report)
      ensures ok ==> forall p :: p in created <==>
        p in created0 || CreatedByReport(g, rules, old(At(tables, p)), p, report)
    {
      created := created0;
      if IsExcluded(rules, report.path) { return true, created; }
      var removed, seen, manifests, unreadable, fresh0;
      match report.state {
        case IsDir(events) =>
          ok, seen, manifests, unreadable, fresh0 := Walk(g, rules, events, false);
          if !ok { return; }
          removed := RemoveUnderPrefix(report.path, seen, manifests, unreadable);
          created := created + fresh0;
        case IsFile(f) =>
          var e := AtFile(report.path, f);
          var s, isNew;
          ghost var before := tables;
          ok, s, isNew := WalkStep(g, rules, e, false);
          if !ok { return; }
          forall p ensures CreatedAt(g, rules, At(before, p), p, [e], false) <==>
              (p == report.path && (s.SeenSource? || s.SeenManifest?) && !HasRows(At(before, p))
               && HasRows(StepRows(g, rules, At(before, p), p, e, false)))
          {
            CreatedSingle(g, rules, At(before, p), p, e);
          }
          if isNew { created := created + [report.path]; }
          if s.SeenNothing? { removed := RemoveUnderPrefix(report.path, [], [], []); }
        case NoStat(detail) =>
          RecordReadFailure(report.path, detail);
          ok := true;
        case Missing =>
          removed := RemoveUnderPrefix(report.path, [], [], []);
          ok := true;
      }
    }

    method HandleReports(g: Registry, rules: Rules, reports: seq<Report>) returns (ok: bool, created: seq<string>)
      modifies this`tables
      ensures ok <==> ReportsOk(g, rules, old(tables), reports)
      ensures ok ==> forall p :: At(tables, p) == ReportsRows(g, rules, old(At(tables, p)), p, reports)
      ensures ok ==> forall p :: p in created <==> CreatedBy(g, rules, old(At(tables, p)), p, reports)
    {
      hide At, ReportRows, CreatedByReport, ReportOk;
      created := [];
      for i := 0 to |reports|
        invariant ReportsOk(g, rules, old(tables), reports[..i])
        invariant forall p :: At(tables, p) == ReportsRows(g, rules, old(At(tables, p)), p, reports[..i])
        invariant forall p :: p in created <==> CreatedBy(g, rules, old(At(tables, p)), p, reports[..i])
      {
        assert reports[..i + 1][..i] == reports[..i];
        SameReportOk(g, rules, RowsOf(tables), RowsAfter(g, rules, old(tables), reports[..i]), reports[i]);
        ok, created := HandleReport(g, rules, reports[i], created);
        if !ok {
          ReportsFail(g, rules, old(tables), reports, i);
          return;
        }
      }
      assert reports[..|reports|] == reports;
      ok := true;
    }

    /** The body of an incremental run; `reloads` tells whether re-reading the ignore files
        changed the rules, `full` what a full walk would see. The reported paths are sorted and
        distinct, so the root can only be the first of them. */
    method ReindexPathsInner(
      g: Registry, rules: Rules, reloads: bool, full: FullInput, reports: seq<Report>, onDisk: string -> bool,
      now: int, finishes: bool)
      returns (ok: bool, ghost mid: Tables, ghost created: seq<string>)
      requires forall i :: 0 < i < |reports| ==> reports[i].path != ""
      modifies this
      ensures ok <==> finishes && PathsRunnable(g, rules, reloads, full, reports, old(tables), old(meta))
      ensures ok && NeedsFull(reports, reloads) ==>
        FullCommit(g, full.reload, full.events, false, now, old(tables), old(meta), tables, meta)
      ensures ok && !NeedsFull(reports, reloads) ==>
        PathsCommit(g, rules, reports, onDisk, now, old(tables), old(meta), mid, created, tables, meta)
      ensures appliedExclusions ==
        if !NeedsFull(reports, reloads) then old(appliedExclusions)
        else AppliedAfter(g, full.reload, full.events, false, old(tables), old(meta), old(appliedExclusions))
    {
      hide At, CreatedBy, ReportsRows, RenamedAway;
      mid, created := tables, [];
      if (reloads && exists i :: 0 <= i < |reports| && IsRulesFile(reports[i].path))
        || (reports != [] && reports[0].path == "")
      {
        ok := ReindexInner(g, full.reload, full.events, false, now, finishes);
        return;
      }
      var firstTimes;
      ok, firstTimes := HandleReports(g, rules, reports);
      if !ok { return; }
      mid, created := tables, firstTimes;
      var removed := RemoveRenamedAway(firstTimes, onDisk);
      ok := TouchLastIndexedAt(false, now);
      ok := ok && finishes;
    }

    /** A full run in one transaction: it commits as a whole or leaves the database as it was. */
    method Reindex(
      g: Registry, reload: Reload, events: seq<Event>, force: bool, now: int, finishes: bool, commits: bool)
      returns (committed: bool)
      modifies this
      ensures committed <==> commits && finishes && FullRunnable(g, reload, events, force, old(tables), old(meta))
      ensures committed ==> FullCommit(g, reload, events, force, now, old(tables), old(meta), tables, meta)
      ensures !committed ==> tables == old(tables) && meta == old(meta)
      ensures appliedExclusions ==
        AppliedAfter(g, reload, events, force, old(tables), old(meta), old(appliedExclusions))
    {
      var savedTables, savedMeta := tables, meta;
      committed := ReindexInner(g, reload, events, force, now, finishes);
      committed := committed && commits;
      if !committed { tables, meta := savedTables, savedMeta; }
    }

    /** Brings the rows in line with the current ignore files. `read` and `readAgain` are what the
        two reads of them give: the check here and the one that starts the run; `locked` whether
        the writer lock could be taken. The answer is whether a run was needed, `None` for an error. */
    method ApplyExclusionChanges(
      g: Registry, exclude: ExcludeSet, read: Option<seq<string>>, readAgain: Option<seq<string>>,
      locked: bool, events: seq<Event>, now: int, finishes: bool, commits: bool)
      returns (result: Option<bool>)
      requires exclude.Valid()
      modifies this, exclude
      ensures exclude.Valid()
      ensures var b := BoundaryOf(exclude.globs, exclude.reloadable, old(exclude.extra), old(exclude.generation),
                                  old(appliedExclusions), read, readAgain, locked);
        && exclude.extra == b.extra && exclude.generation == b.generation
        && (result == Some(false) <==> b.Matching?)
        && (result == Some(true) <==>
              finishes && commits && b.Runs? && FullRunnable(g, b.reload, events, false, old(tables), old(meta)))
        && (result == Some(true) ==>
              FullCommit(g, b.reload, events, false, now, old(tables), old(meta), tables, meta))
        && appliedExclusions ==
             if b.Runs? then AppliedAfter(g, b.reload, events, false, old(tables), old(meta), old(appliedExclusions))
             else old(appliedExclusions)
      ensures result != Some(true) ==> tables == old(tables) && meta == old(meta)
      ensures result.Some? ==> appliedExclusions == exclude.generation
      ensures result == Some(true) ==> forall p :: IsExcluded(exclude.rules, p) ==> At(tables, p) == NO_ROWS
    {
      var changed := exclude.TryReload(read);
      if changed.None? { return None; }
      if exclude.generation == appliedExclusions { return Some(false); }
      if !locked { return None; }
      changed := exclude.TryReload(readAgain);
      var reload := if changed.None? then None else Some((exclude.rules, exclude.generation));
      var committed := Reindex(g, reload, events, false, now, finishes, commits);
      result := if committed then Some(true) else None;
    }

    /** An incremental run in one transaction. */
    method ReindexPaths(
      g: Registry, rules: Rules, reloads: bool, full: FullInput, reports: seq<Report>, onDisk: string -> bool,
      now: int, finishes: bool, commits: bool)
      returns (committed: bool, ghost mid: Tables, ghost created: seq<string>)
      requires forall i :: 0 < i < |reports| ==> reports[i].path != ""
      modifies this
      ensures committed <==>
        commits && finishes && PathsRunnable(g, rules, reloads, full, reports, old(tables), old(meta))
      ensures committed && NeedsFull(reports, reloads) ==>
        FullCommit(g, full.reload, full.events, false, now, old(tables), old(meta), tables, meta)
      ensures committed && !NeedsFull(reports, reloads) ==>
        PathsCommit(g, rules, reports, onDisk, now, old(tables), old(meta), mid, created, tables, meta)
      ensures appliedExclusions ==
        if !NeedsFull(reports, reloads) then old(appliedExclusions)
        else AppliedAfter(g, full.reload, full.events, false, old(tables), old(meta), old(appliedExclusions))
      ensures !committed ==> tables == old(tables) && meta == old(meta)
    {
      var savedTables, savedMeta := tables, meta;
      committed, mid, created := ReindexPathsInner(g, rules, reloads, full, reports, onDisk, now, finishes);
      committed := committed && commits;
      if !committed { tables, meta := savedTables, savedMeta; }
    }
  }

  /** What a full run reads: the reloaded rules and its walk. */
  datatype FullInput = FullInput(reload: Reload, events: seq<Event>)

  /** The recorded generation after a full run: it moves exactly when the run gets that far, also
      when finishing or committing fails then. */
  ghost function AppliedAfter(
    g: Registry, reload: Reload, events: seq<Event>, force: bool, t: Tables, m: Meta, applied: nat): nat
  {
    if FullRunnable(g, reload, events, force, t, m) then reload.value.1 else applied
  }

  /** What the check of the rules at the query boundary finds, with the patterns and the generation
      of the rule set then: the ignore files cannot be read, the recorded generation is the current
      one, the writer lock is taken, or a run starts after a second read. */
  datatype Boundary =
    | NotRead(extra: seq<string>, generation: nat)
    | Matching(extra: seq<string>, generation: nat)
    | Busy(extra: seq<string>, generation: nat)
    | Runs(extra: seq<string>, generation: nat, reload: Reload)

  ghost function BoundaryOf(
    globs: Globs, reloadable: bool, extra: seq<string>, generation: nat, applied: nat,
    read: Option<seq<string>>, readAgain: Option<seq<string>>, locked: bool): Boundary
  {
    var x := PatternsAfter(reloadable, extra, read);
    var n := GenerationAfter(generation, extra, x);
    if reloadable && read.None? then NotRead(x, n)
    else if n == applied then Matching(x, n)
    else if !locked then Busy(x, n)
    else
      var y := PatternsAfter(reloadable, x, readAgain);
      var k := GenerationAfter(n, x, y);
      Runs(y, k, if reloadable && readAgain.None? then None else Some((RuleSet(globs, y), k)))
  }

  /** A failed run leaves the rules unapplied, so that the next call tries again, exactly when it
      did not get as far as recording the generation. No wrapping: fewer than 2^64 swaps. */
  lemma TriesAgainIff(
    g: Registry, b: Boundary, globs: Globs, reloadable: bool, extra: seq<string>, generation: nat, applied: nat,
    read: Option<seq<string>>, readAgain: Option<seq<string>>, locked: bool, events: seq<Event>, t: Tables, m: Meta)
    requires b == BoundaryOf(globs, reloadable, extra, generation, applied, read, readAgain, locked)
    requires applied <= generation < U64 - 2 && !b.NotRead? && !b.Matching?
    ensures var after := if b.Runs? then AppliedAfter(g, b.reload, events, false, t, m, applied) else applied;
      forall again, locks ::
        BoundaryOf(globs, reloadable, b.extra, b.generation, after, Some(b.extra), again, locks).Matching?
        <==> b.Runs? && FullRunnable(g, b.reload, events, false, t, m)
  {
    hide WalkOk, CanPublish, RuleSet;
  }

  predicate IsRulesFile(p: string) {
    p == ".mctignore" || p == ".gitignore"
  }

  /** An incremental run falls back to a full one for the root or changed rules. */
  predicate NeedsFull(reports: seq<Report>, reloads: bool) {
    || (reloads && exists i :: 0 <= i < |reports| && IsRulesFile(reports[i].path))
    || (reports != [] && reports[0].path == "")
  }

  /** That is, in whatever order they are reported: the root, or an ignore file whose rules changed. */
  lemma FallsBackIff(reports: seq<Report>, reloads: bool)
    requires forall i :: 0 < i < |reports| ==> reports[i].path != ""
    ensures NeedsFull(reports, reloads) <==>
      exists i :: 0 <= i < |reports|
        && (reports[i].path == "" || (reloads && reports[i].path in {".mctignore", ".gitignore"}))
  {
    if i :| 0 <= i < |reports| && reloads && IsRulesFile(reports[i].path) {
      assert reports[i].path in {".mctignore", ".gitignore"};
    }
  }

  /** Rows and generation after a committed incremental run; `mid` is the state before the
      rename sweep and `created` the paths indexed for the first time. */
  ghost predicate PathsCommit(
    g: Registry, rules: Rules, reports: seq<Report>, onDisk: string -> bool, now: int,
    t: Tables, m: Meta, mid: Tables, created: seq<string>, t': Tables, m': Meta)
  {
    && (forall p :: At(mid, p) == ReportsRows(g, rules, At(t, p), p, reports))
    && (forall p :: p in created <==> CreatedBy(g, rules, At(t, p), p, reports))
    && (forall p :: At(t', p) == if RenamedAway(mid, created, onDisk, p) then NO_ROWS else At(mid, p))
    && Published(m, m', now)
    && m'.lastFullReconciledAt == m.lastFullReconciledAt
  }

  // ------------------------------------------------------------ when an incremental run can go through

  /** Handling one report goes through, given the rows before it. */
  predicate ReportOk(g: Registry, rules: Rules, rows: string -> Rows, report: Report) {
    IsExcluded(rules, report.path) ||
    match report.state
    case IsDir(events) => WalkOk(g, rules, rows, events, false)
    case IsFile(f) => !Fails(g, rules, rows, [], AtFile(report.path, f), false)
    case NoStat(_) => true
    case Missing => true
  }

  /** The rows after the reports handled so far. */
  function RowsAfter(g: Registry, rules: Rules, t: Tables, done: seq<Report>): string -> Rows {
    (p: string) => ReportsRows(g, rules, At(t, p), p, done)
  }

  /** Every report goes through, each on the rows its predecessors left. */
  predicate ReportsOk(g: Registry, rules: Rules, t: Tables, reports: seq<Report>) {
    reports == [] ||
    var n := |reports| - 1;
    ReportsOk(g, rules, t, reports[..n]) && ReportOk(g, rules, RowsAfter(g, rules, t, reports[..n]), reports[n])
  }

  predicate CanPublish(m: Meta) {
    PublishedGeneration(m).Some? && PublishedGeneration(m).value < I64_MAX
  }

  /** An incremental run goes through: as a full one when it falls back to that, else report by
      report. */
  ghost predicate PathsRunnable(
    g: Registry, rules: Rules, reloads: bool, full: FullInput, reports: seq<Report>, t: Tables, m: Meta)
  {
    if NeedsFull(reports, reloads) then FullRunnable(g, full.reload, full.events, false, t, m)
    else ReportsOk(g, rules, t, reports) && CanPublish(m)
  }

  // ------------------------------------------------------------ what a committed run did

  ghost predicate FullRunnable(g: Registry, reload: Reload, events: seq<Event>, force: bool, t: Tables, m: Meta) {
    && reload.Some? && WalkOk(g, reload.value.0, RowsOf(t), events, force)
    && CanPublish(m)
  }

  /** Rows, generation and reconciliation time after a committed full run. */
  ghost predicate FullCommit(
    g: Registry, reload: Reload, events: seq<Event>, force: bool, now: int,
    t: Tables, m: Meta, t': Tables, m': Meta)
  {
    && reload.Some?
    && (forall p :: At(t', p) == FullRows(g, reload.value.0, At(t, p), p, events, force))
    && Published(m, m', now)
    && m'.lastFullReconciledAt ==
         if SeenPaths(g, reload.value.0, events, SeenUnreadable) == [] then Some(now) else m.lastFullReconciledAt
  }

  ghost predicate Published(m: Meta, m': Meta, now: int) {
    && PublishedGeneration(m).Some?
    && PublishedGeneration(m') == Some(PublishedGeneration(m).value + 1)
    && m'.lastIndexedAt == Some(now)
  }

  /** A walk that fails at some event fails as a whole. */
  lemma {:induction false} WalkFails(
    g: Registry, rules: Rules, rows: string -> Rows, events: seq<Event>, i: nat, force: bool)
    requires i < |events| && Fails(g, rules, rows, events[..i], events[i], force)
    ensures !WalkOk(g, rules, rows, events, force)
    decreases |events|
  {
    var n := |events| - 1;
    if i < n {
      assert events[..n][..i] == events[..i];
      WalkFails(g, rules, rows, events[..n], i, force);
    }
  }

  /** Whether a walk goes through depends on the rows of each path only. */
  lemma {:induction false} SameWalkOk(
    g: Registry, rules: Rules, a: string -> Rows, b: string -> Rows, events: seq<Event>, force: bool)
    requires forall p :: a(p) == b(p)
    ensures WalkOk(g, rules, a, events, force) <==> WalkOk(g, rules, b, events, force)
  {
    if events != [] {
      SameWalkOk(g, rules, a, b, events[..|events| - 1], force);
      if events[|events| - 1].AtFile? { assert a(events[|events| - 1].path) == b(events[|events| - 1].path); }
    }
  }

  lemma SameReportOk(g: Registry, rules: Rules, a: string -> Rows, b: string -> Rows, report: Report)
    requires forall p :: a(p) == b(p)
    ensures ReportOk(g, rules, a, report) <==> ReportOk(g, rules, b, report)
  {
    hide IsExcluded, WalkOk, VisitRows, WalkRows;
    if report.state.IsDir? { SameWalkOk(g, rules, a, b, report.state.events, false); }
    assert a(report.path) == b(report.path);
  }

  /** Reports that fail at some report fail as a whole. */
  lemma {:induction false} ReportsFail(g: Registry, rules: Rules, t: Tables, reports: seq<Report>, i: nat)
    requires i < |reports| && !ReportOk(g, rules, RowsAfter(g, rules, t, reports[..i]), reports[i])
    ensures !ReportsOk(g, rules, t, reports)
    decreases |reports|
  {
    var n := |reports| - 1;
    if i < n {
      assert reports[..n][..i] == reports[..i];
      ReportsFail(g, rules, t, reports[..n], i);
    }
  }
}
