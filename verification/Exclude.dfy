/** The exclusion rules of `exclude.rs`: which paths stay out of the index. The glob matcher,
    its syntax check and the set compiler are parameters. */
module Exclude {
  import opened Wrappers
  import opened Paths

  datatype RuleKind = Builtin | Exclude | Include

  datatype Rule = Rule(glob: string, kind: RuleKind)

  /** A compiled rule set; `None` when not even the built-in rules compiled. */
  datatype Rules = Rules(rules: Option<seq<Rule>>, matches: (string, string) -> bool)

  // ------------------------------------------------------------ is_excluded

  /** The highest index of a rule that matches `path`. */
  function LastHit(m: (string, string) -> bool, rules: seq<Rule>, path: string): (r: Option<nat>)
    ensures r.Some? ==> r.value < |rules|
  {
    if rules == [] then None
    else if m(rules[|rules| - 1].glob, path) then Some(|rules| - 1)
    else LastHit(m, rules[..|rules| - 1], path)
  }

  predicate BuiltinHit(m: (string, string) -> bool, rules: seq<Rule>, path: string) {
    exists i :: 0 <= i < |rules| && rules[i].kind == Builtin && m(rules[i].glob, path)
  }

  /** Whether the rules exclude exactly this path, its ancestors aside. */
  predicate Excludes(m: (string, string) -> bool, rules: seq<Rule>, path: string) {
    || BuiltinHit(m, rules, path)
    || (LastHit(m, rules, path).Some? && rules[LastHit(m, rules, path).value].kind == Exclude)
  }

  predicate IsExcluded(r: Rules, path: string) {
    match r.rules
    case None => true
    case Some(rules) =>
      || (exists e :: 0 <= e < |path| && path[e] == '/' && Excludes(r.matches, rules, path[..e]))
      || Excludes(r.matches, rules, path)
  }

  lemma {:induction false} LastHitIs(m: (string, string) -> bool, rules: seq<Rule>, path: string, i: nat)
    ensures LastHit(m, rules, path) == Some(i) <==>
      (i < |rules| && m(rules[i].glob, path) && forall j :: i < j < |rules| ==> !m(rules[j].glob, path))
  {
    if rules != [] && !m(rules[|rules| - 1].glob, path) {
      LastHitIs(m, rules[..|rules| - 1], path, i);
    }
  }

  /** A built-in rule wins over everything; otherwise the last matching rule decides. */
  lemma LastRuleDecides(m: (string, string) -> bool, rules: seq<Rule>, path: string)
    ensures Excludes(m, rules, path) <==>
      || (exists i :: 0 <= i < |rules| && rules[i].kind == Builtin && m(rules[i].glob, path))
      || exists i :: 0 <= i < |rules| && rules[i].kind == Exclude && m(rules[i].glob, path)
                     && forall j :: i < j < |rules| ==> !m(rules[j].glob, path)
  {
    if LastHit(m, rules, path).Some? {
      LastHitIs(m, rules, path, LastHit(m, rules, path).value);
    }
    forall i | 0 <= i < |rules| && m(rules[i].glob, path) && forall j :: i < j < |rules| ==> !m(rules[j].glob, path)
      ensures LastHit(m, rules, path) == Some(i)
    {
      LastHitIs(m, rules, path, i);
    }
  }

  /** Nothing inside an excluded directory is re-included: the test of one path agrees with a
      walk that never descends into an excluded directory. */
  lemma ExcludedBelow(r: Rules, dir: string, path: string)
    requires IsExcluded(r, dir) && AtOrUnder(path, dir)
    ensures IsExcluded(r, path)
  {
    if r.rules.Some? && path != dir {
      assert path[..|dir|] == dir && path[|dir|] == '/';
      if e :| 0 <= e < |dir| && dir[e] == '/' && Excludes(r.matches, r.rules.value, dir[..e]) {
        assert path[..e] == dir[..e] && path[e] == '/';
      } else {
        assert Excludes(r.matches, r.rules.value, path[..|dir|]);
      }
    }
  }

  /** A path is excluded exactly when a pruning walk would not reach it: it or an ancestor is
      excluded in its own right. */
  lemma ExcludedIffPruned(r: Rules, path: string)
    requires r.rules.Some?
    ensures IsExcluded(r, path) <==>
      exists d :: AtOrUnder(path, d) && Excludes(r.matches, r.rules.value, d)
  {
    var rules := r.rules.value;
    if e :| 0 <= e < |path| && path[e] == '/' && Excludes(r.matches, rules, path[..e]) {
      assert path[..e] + "/" == path[..e + 1];
      assert AtOrUnder(path, path[..e]);
    }
    forall d | AtOrUnder(path, d) && Excludes(r.matches, rules, d) ensures IsExcluded(r, path) {
      ExcludedBelow(r, d, path);
    }
  }

  // ------------------------------------------------------------ build_set

  const DEFAULT_EXCLUDE_PATTERNS: seq<string> := [
    "**/.env", "**/.env.*", "**/*.pem", "**/*.key", "**/credentials.json",
    "**/appsettings.*.json", "**/*.pfx", "**/*.snk", "**/gradle.properties",
    "**/*.env.local", "**/config/secrets.yaml"]

  const DEFAULT_EXCLUDE_DIRS: seq<string> := [
    "secrets", "secret", ".aws", "node_modules", "vendor", ".git", "target", ".mct-index",
    ".claude", ".claude-index", ".ccm-index"]

  /** What globset offers: a matcher, a syntax check and a compiler that may run out of budget. */
  datatype Globs = Globs(matches: (string, string) -> bool, valid: string -> bool, compiles: seq<string> -> bool)

  ghost function PatternRules(patterns: seq<string>): seq<Rule> {
    seq(|patterns|, i requires 0 <= i < |patterns| => Rule(patterns[i], Builtin))
  }

  ghost function DirRules(dirs: seq<string>): seq<Rule> {
    if dirs == [] then []
    else DirRules(dirs[..|dirs| - 1])
         + [Rule("**/" + dirs[|dirs| - 1], Builtin), Rule("**/" + dirs[|dirs| - 1] + "/**", Builtin)]
  }

  ghost function BuiltinRules(): seq<Rule> {
    PatternRules(DEFAULT_EXCLUDE_PATTERNS) + DirRules(DEFAULT_EXCLUDE_DIRS)
  }

  function ExtraRule(pattern: string): Rule {
    if pattern != "" && pattern[0] == '!' then Rule(pattern[1..], Include) else Rule(pattern, Exclude)
  }

  /** The well-formed extra patterns as rules, in order. */
  ghost function ExtraRules(g: Globs, extra: seq<string>): seq<Rule> {
    if extra == [] then []
    else
      var init, last := ExtraRules(g, extra[..|extra| - 1]), ExtraRule(extra[|extra| - 1]);
      if g.valid(last.glob) then init + [last] else init
  }

  function GlobsOf(rules: seq<Rule>): seq<string> {
    seq(|rules|, i requires 0 <= i < |rules| => rules[i].glob)
  }

  /** The rule set of some extra patterns: built-in and extra rules, the built-in ones alone when
      the whole does not compile, nothing when not even those do. */
  ghost function RuleSet(g: Globs, extra: seq<string>): Rules {
    var builtin, all := BuiltinRules(), BuiltinRules() + ExtraRules(g, extra);
    if g.compiles(GlobsOf(all)) then Rules(Some(all), g.matches)
    else if extra != [] && g.compiles(GlobsOf(builtin)) then Rules(Some(builtin), g.matches)
    else Rules(None, g.matches)
  }

  method BuildSet(g: Globs, extra: seq<string>) returns (r: Rules)
    ensures r == RuleSet(g, extra)
    decreases |extra|
  {
    var rules: seq<Rule> := [];
    for i := 0 to |DEFAULT_EXCLUDE_PATTERNS|
      invariant rules == PatternRules(DEFAULT_EXCLUDE_PATTERNS[..i])
    {
      rules := rules + [Rule(DEFAULT_EXCLUDE_PATTERNS[i], Builtin)];
    }
    assert DEFAULT_EXCLUDE_PATTERNS[..|DEFAULT_EXCLUDE_PATTERNS|] == DEFAULT_EXCLUDE_PATTERNS;
    ghost var patterns := rules;
    for i := 0 to |DEFAULT_EXCLUDE_DIRS|
      invariant rules == patterns + DirRules(DEFAULT_EXCLUDE_DIRS[..i])
    {
      var dir := DEFAULT_EXCLUDE_DIRS[i];
      assert DEFAULT_EXCLUDE_DIRS[..i + 1][..i] == DEFAULT_EXCLUDE_DIRS[..i];
      rules := rules + [Rule("**/" + dir, Builtin)];
      rules := rules + [Rule("**/" + dir + "/**", Builtin)];
    }
    assert DEFAULT_EXCLUDE_DIRS[..|DEFAULT_EXCLUDE_DIRS|] == DEFAULT_EXCLUDE_DIRS;
    assert rules == BuiltinRules();
    for i := 0 to |extra|
      invariant rules == BuiltinRules() + ExtraRules(g, extra[..i])
    {
      assert extra[..i + 1][..i] == extra[..i];
      var rule := ExtraRule(extra[i]);
      if g.valid(rule.glob) { rules := rules + [rule]; }
    }
    assert extra[..|extra|] == extra;
    if g.compiles(GlobsOf(rules)) { return Rules(Some(rules), g.matches); }
    if extra == [] { return Rules(None, g.matches); }
    assert BuiltinRules() + ExtraRules(g, []) == BuiltinRules();
    r := BuildSet(g, []);
  }

  lemma {:induction false} DirRulesBuiltin(dirs: seq<string>)
    ensures forall i :: 0 <= i < |DirRules(dirs)| ==> DirRules(dirs)[i].kind == Builtin
  {
    if dirs != [] { DirRulesBuiltin(dirs[..|dirs| - 1]); }
  }

  /** A project's own rules only ever narrow what is indexed: whatever the built-in rules exclude
      stays excluded, `!` lines and uncompilable rules included. */
  lemma BuiltinsNeverNarrowed(g: Globs, extra: seq<string>, path: string)
    requires g.compiles(GlobsOf(BuiltinRules()))
    requires IsExcluded(RuleSet(g, []), path)
    ensures IsExcluded(RuleSet(g, extra), path)
  {
    hide PatternRules, DirRules, ExtraRules;
    var builtin := BuiltinRules();
    assert builtin + ExtraRules(g, []) == builtin by { NoExtraRules(g); }
    var rules := RuleSet(g, extra).rules.value;
    forall p | Excludes(g.matches, builtin, p) ensures Excludes(g.matches, rules, p) {
      BuiltinsAreBuiltin();
      var i :| 0 <= i < |builtin| && g.matches(builtin[i].glob, p);
      assert rules[i] == builtin[i];
    }
  }

  /** The built-in rules are the patterns and, for every directory, itself and all below, at any depth. */
  lemma BuiltinsAre(glob: string)
    ensures Rule(glob, Builtin) in BuiltinRules() <==>
      || glob in DEFAULT_EXCLUDE_PATTERNS
      || exists d :: d in DEFAULT_EXCLUDE_DIRS && (glob == "**/" + d || glob == "**/" + d + "/**")
    ensures forall rule :: rule in BuiltinRules() ==> rule.kind == Builtin
  {
    var patterns := PatternRules(DEFAULT_EXCLUDE_PATTERNS);
    DirRulesAre(DEFAULT_EXCLUDE_DIRS, glob);
    BuiltinsAreBuiltin();
    if glob in DEFAULT_EXCLUDE_PATTERNS {
      var i :| 0 <= i < |DEFAULT_EXCLUDE_PATTERNS| && DEFAULT_EXCLUDE_PATTERNS[i] == glob;
      assert patterns[i] == Rule(glob, Builtin);
    }
    if Rule(glob, Builtin) in patterns {
      var i :| 0 <= i < |patterns| && patterns[i] == Rule(glob, Builtin);
      assert DEFAULT_EXCLUDE_PATTERNS[i] == glob;
    }
  }

  lemma {:induction false} DirRulesAre(dirs: seq<string>, glob: string)
    ensures Rule(glob, Builtin) in DirRules(dirs) <==>
      exists d :: d in dirs && (glob == "**/" + d || glob == "**/" + d + "/**")
  {
    if dirs != [] {
      var before, last := dirs[..|dirs| - 1], dirs[|dirs| - 1];
      DirRulesAre(before, glob);
      assert forall d :: d in dirs <==> d in before || d == last;
    }
  }

  /** When the whole does not compile the project's rules have no effect, and when not even the built-in rules do
      everything is excluded. */
  lemma CompileFallbacks(g: Globs, extra: seq<string>, path: string)
    requires !g.compiles(GlobsOf(BuiltinRules() + ExtraRules(g, extra)))
    ensures IsExcluded(RuleSet(g, extra), path) <==>
      !g.compiles(GlobsOf(BuiltinRules())) || IsExcluded(Rules(Some(BuiltinRules()), g.matches), path)
  {
    hide BuiltinRules, Excludes, ExtraRules;
    if extra == [] {
      NoExtraRules(g);
      assert BuiltinRules() + ExtraRules(g, extra) == BuiltinRules();
    }
  }

  lemma NoExtraRules(g: Globs)
    ensures ExtraRules(g, []) == []
  {
  }

  lemma BuiltinsAreBuiltin()
    ensures forall i :: 0 <= i < |BuiltinRules()| ==> BuiltinRules()[i].kind == Builtin
  {
    DirRulesBuiltin(DEFAULT_EXCLUDE_DIRS);
  }

  // ------------------------------------------------------------ the shared, reloadable set

  const U64: nat := 0x1_0000_0000_0000_0000

  /** The patterns a set holds after a reload: those of the files when they can be read. */
  function PatternsAfter(reloadable: bool, extra: seq<string>, read: Option<seq<string>>): seq<string> {
    if reloadable && read.Some? then read.value else extra
  }

  /** The generation moves exactly when the patterns change. */
  function GenerationAfter(generation: nat, extra: seq<string>, now: seq<string>): nat {
    if now == extra then generation else (generation + 1) % U64
  }

  /** The rules every clone of a set shares. */
  class ExcludeSet {
    var rules: Rules
    var extra: seq<string>
    var generation: nat
    const globs: Globs
    /** Whether the patterns come from a project's ignore files; a fixed set never reloads. */
    const reloadable: bool

    ghost predicate Valid()
      reads this
    {
      rules == RuleSet(globs, extra) && generation < U64
    }

    constructor (g: Globs, patterns: seq<string>, fromProject: bool)
      ensures Valid() && globs == g && extra == patterns && reloadable == fromProject && generation == 0
    {
      var built := BuildSet(g, patterns);
      rules, globs, extra, reloadable, generation := built, g, patterns, fromProject, 0;
    }

    /** Re-reads the ignore files. `read` is what they hold now, `None` when one of them exists
        but cannot be read; the answer is whether the rules changed, `None` for that failure. */
    method TryReload(read: Option<seq<string>>) returns (changed: Option<bool>)
      requires Valid()
      modifies this
      ensures Valid()
      ensures changed.None? <==> reloadable && read.None?
      ensures changed == Some(true) <==> reloadable && read.Some? && read.value != old(extra)
      ensures changed == Some(true) ==> extra == read.value && generation == (old(generation) + 1) % U64
      ensures extra == PatternsAfter(reloadable, old(extra), read)
      ensures generation == GenerationAfter(old(generation), old(extra), extra)
      ensures changed != Some(true) ==> rules == old(rules) && extra == old(extra) && generation == old(generation)
    {
      if !reloadable { return Some(false); }
      if read.None? { return None; }
      if extra == read.value { return Some(false); }
      rules := BuildSet(globs, read.value);
      extra := read.value;
      generation := (generation + 1) % U64;
      changed := Some(true);
    }
  }
}
