/** What one visit does to the rows stored for one path (`indexer.rs:286-638`), and the fresh
    rows it must agree with. Parsers, the content hash and the manifest readers are parameters. */
module PathRows {
  import opened Wrappers

  newtype byte = x: int | 0 <= x < 256
  type Bytes = seq<byte>

  /** Everything a parser emits for a file, in the order it is written. */
  datatype Parsed = Parsed(symbols: seq<string>, relations: seq<string>, literals: seq<string>)

  datatype ParseOutcome = ParseOk(parsed: Parsed) | SyntaxError(detail: string)

  datatype Dependency = Dependency(name: string, version: Option<string>)

  datatype Analysis = Analysis(summary: seq<Dependency>, items: seq<string>)

  datatype Registry = Registry(
    manifestLanguage: string -> Option<string>, isRockspec: string -> bool,
    isAsset: string -> bool, assetHash: (nat, nat) -> string, assetParsed: string -> Parsed,
    gltfIssue: (string, Bytes) -> Option<string>,
    parserLanguage: string -> Option<string>, parse: (string, string) -> ParseOutcome,
    pendingLanguage: string -> Option<string>,
    hash: Bytes -> string, decode: Bytes -> Option<string>, decodeIssue: Bytes -> string,
    parseManifest: (string, string) -> seq<Dependency>,
    analyse: string -> Analysis, unreadableRockspec: Analysis)

  // ------------------------------------------------------------ the disk

  datatype Content = Content(bytes: Bytes, mtime: nat)

  /** What a visit found at a path. `again` is what the second read of a parsed file gave. */
  datatype Found =
    | Gone
    | Denied(detail: string)
    | Unreadable(detail: string)
    | Read(content: Content, again: Option<Bytes>)

  /** The file was read, and did not change while it was parsed. */
  function Stable(c: Content): Found {
    Read(c, Some(c.bytes))
  }

  // ------------------------------------------------------------ rows

  datatype FileRow = FileRow(language: string, hash: string, parsed: Parsed)

  /** Every row stored for one path: its `files` row with what cascades with it, its
      `index_issues` rows by kind, its `dependencies` and its `rockspec_items`. */
  datatype Rows = Rows(
    file: Option<FileRow>,
    unsupported: Option<string>, syntax: Option<string>, readFailure: Option<string>,
    deps: seq<Dependency>, items: seq<string>)

  const NO_ROWS: Rows := Rows(None, None, None, None, [], [])

  datatype Kind = Manifest(language: string) | Asset | Source(language: string) | Pending(language: string) | Other

  /** Manifests go by file name, then assets, then registered parsers, then known languages. */
  function KindOf(g: Registry, p: string): Kind {
    if g.manifestLanguage(p).Some? then Manifest(g.manifestLanguage(p).value)
    else if g.isAsset(p) then Asset
    else if g.parserLanguage(p).Some? then Source(g.parserLanguage(p).value)
    else if g.pendingLanguage(p).Some? then Pending(g.pendingLanguage(p).value)
    else Other
  }

  datatype Seen = SeenSource | SeenManifest | SeenUnreadable | SeenNothing

  /** How the sweeps of a run treat a path after a visit. */
  function SeenAs(g: Registry, p: string, excluded: bool, f: Found): Seen {
    match f
    case Gone => SeenNothing
    case Denied(_) => SeenUnreadable
    case Unreadable(_) =>
      if excluded then SeenNothing
      else if KindOf(g, p).Pending? || KindOf(g, p).Other? then SeenSource
      else SeenUnreadable
    case Read(_, _) =>
      if excluded then SeenNothing
      else if KindOf(g, p).Manifest? then SeenManifest
      else SeenSource
  }

  datatype Visit = Visit(rows: Rows) | SourceChanged

  /** Nothing is known of the current content: what was indexed stays, flagged. */
  function Unread(r: Rows, detail: string): Rows {
    r.(readFailure := Some(detail))
  }

  function ClearIssues(r: Rows): Rows {
    r.(unsupported := None, syntax := None, readFailure := None)
  }

  function VisitManifest(g: Registry, r: Rows, p: string, bytes: Bytes): Rows {
    var r1 := r.(readFailure := None);
    var text := g.decode(bytes);
    if g.isRockspec(p) then
      var a := if text.Some? then g.analyse(text.value) else g.unreadableRockspec;
      r1.(deps := a.summary, items := a.items)
    else if text.Some? then r1.(deps := g.parseManifest(p, text.value))
    else r1
  }

  function VisitAsset(g: Registry, r: Rows, p: string, c: Content, force: bool): Rows {
    var hash := g.assetHash(|c.bytes|, c.mtime);
    if !force && r.file.Some? && r.file.value.hash == hash then r.(readFailure := None)
    else ClearIssues(r).(file := Some(FileRow("asset", hash, g.assetParsed(p))), syntax := g.gltfIssue(p, c.bytes))
  }

  function VisitSource(
    g: Registry, r: Rows, p: string, language: string, c: Content, again: Option<Bytes>, force: bool): Visit
  {
    var r1 := r.(readFailure := None);
    var hash := g.hash(c.bytes);
    if !force && r.file.Some? && r.file.value.hash == hash then Visit(r1.(syntax := None))
    else if g.decode(c.bytes).None? then
      Visit(r1.(file := None, syntax := if 0 in c.bytes then None else Some(g.decodeIssue(c.bytes))))
    else if again.None? || g.hash(again.value) != hash then SourceChanged
    else
      match g.parse(p, g.decode(c.bytes).value)
      case ParseOk(parsed) => Visit(ClearIssues(r).(file := Some(FileRow(language, hash, parsed))))
      case SyntaxError(d) => Visit(r1.(file := None, syntax := Some(d)))
  }

  /** The rows of `p` after one visit that found `f`, or the error that ends the run. */
  function VisitRows(g: Registry, r: Rows, p: string, excluded: bool, f: Found, force: bool): Visit {
    if f.Gone? then Visit(r)
    else if f.Denied? then Visit(Unread(r, f.detail))
    else if excluded then Visit(r)
    else
      match KindOf(g, p)
      case Pending(l) => Visit(r.(unsupported := Some(l)))
      case Other => Visit(r)
      case Manifest(_) => Visit(if f.Read? then VisitManifest(g, r, p, f.content.bytes) else Unread(r, f.detail))
      case Asset => Visit(if f.Read? then VisitAsset(g, r, p, f.content, force) else Unread(r, f.detail))
      case Source(l) =>
        if f.Read? then VisitSource(g, r, p, l, f.content, f.again, force) else Visit(Unread(r, f.detail))
  }

  // ------------------------------------------------------------ the fresh rows of a source file

  /** The `files` row a fresh index has for a source file: there exactly when it parses. */
  function FreshFile(g: Registry, p: string, bytes: Bytes): Option<FileRow>
    requires KindOf(g, p).Source?
  {
    if g.decode(bytes).None? || g.parse(p, g.decode(bytes).value).SyntaxError? then None
    else Some(FileRow(KindOf(g, p).language, g.hash(bytes), g.parse(p, g.decode(bytes).value).parsed))
  }

  /** The syntax issue a fresh index has for it: text that does not decode or does not parse. */
  function FreshIssue(g: Registry, p: string, bytes: Bytes): Option<string>
    requires KindOf(g, p).Source?
  {
    if g.decode(bytes).None? then (if 0 in bytes then None else Some(g.decodeIssue(bytes)))
    else if g.parse(p, g.decode(bytes).value).SyntaxError? then Some(g.parse(p, g.decode(bytes).value).detail)
    else None
  }

  function FreshRows(g: Registry, p: string, bytes: Bytes): Rows
    requires KindOf(g, p).Source?
  {
    NO_ROWS.(file := FreshFile(g, p, bytes), syntax := FreshIssue(g, p, bytes))
  }

  ghost predicate HashInjective(g: Registry) {
    forall a, b :: g.hash(a) == g.hash(b) ==> a == b
  }

  /** The `files` row of a source path is what its recorded content parses to, and nothing
      calls its language unsupported. A syntax issue may linger beside it. */
  ghost predicate CacheOk(g: Registry, p: string, r: Rows) {
    KindOf(g, p).Source? ==>
      && r.unsupported == None
      && (r.file.Some? ==> exists bytes :: g.hash(bytes) == r.file.value.hash && FreshFile(g, p, bytes) == r.file)
  }

  lemma NoRowsCacheOk(g: Registry, p: string)
    ensures CacheOk(g, p, NO_ROWS)
  {
  }

  /** No visit, whatever it finds and whether it skips, breaks the cache. */
  lemma VisitKeepsCache(g: Registry, r: Rows, p: string, excluded: bool, f: Found, force: bool)
    requires CacheOk(g, p, r) && VisitRows(g, r, p, excluded, f, force).Visit?
    ensures CacheOk(g, p, VisitRows(g, r, p, excluded, f, force).rows)
  {
    var t := VisitRows(g, r, p, excluded, f, force).rows;
    if KindOf(g, p).Source? && t.file != r.file && t.file.Some? {
      assert f.Read?;
      assert FreshFile(g, p, f.content.bytes) == t.file;
    }
  }

  /** The hash skip is invisible: on a consistent cache a visit that reads a source file leaves
      the fresh rows of what it read, forced or not. */
  lemma VisitIsFresh(g: Registry, r: Rows, p: string, c: Content, force: bool)
    requires HashInjective(g) && KindOf(g, p).Source? && CacheOk(g, p, r)
    ensures VisitRows(g, r, p, false, Stable(c), force) ==
            Visit(r.(file := FreshFile(g, p, c.bytes), unsupported := None,
                     syntax := FreshIssue(g, p, c.bytes), readFailure := None))
  {
    if r.file.Some? && r.file.value.hash == g.hash(c.bytes) {
      var bytes :| g.hash(bytes) == r.file.value.hash && FreshFile(g, p, bytes) == r.file;
      assert bytes == c.bytes;
    }
  }

  /** Visiting the same content again changes nothing: what a run leaves is a fixed point. */
  lemma VisitIdempotent(g: Registry, r: Rows, p: string, c: Content, t: Rows)
    requires VisitRows(g, r, p, false, Stable(c), false) == Visit(t)
    ensures VisitRows(g, t, p, false, Stable(c), false) == Visit(t)
  {
  }

  /** A stable file never ends the run. */
  lemma StableVisits(g: Registry, r: Rows, p: string, excluded: bool, c: Content, force: bool)
    ensures VisitRows(g, r, p, excluded, Stable(c), force).Visit?
  {
  }
}
