/** The ignore files of a project (`exclude.rs`): how their lines become patterns, and what a line
    means for the paths it matches. */
module IgnoreFile {
  import opened Wrappers
  import opened Paths
  import opened Text
  import opened Exclude

  const GITIGNORE_IMPORT_DIRECTIVE: string := "@import-gitignore"

  // ------------------------------------------------------------ lines to patterns

  /** The patterns of a trimmed line, without its `!`. */
  function LinePatterns(line: string): seq<string> {
    var isDir := line != "" && line[|line| - 1] == '/';
    var whole := if isDir then line[..|line| - 1] else line;
    var body := if whole != "" && whole[0] == '/' then whole[1..] else whole;
    var base := if '/' in whole then body else "**/" + body;
    if body == "" then [] else if isDir then [base, base + "/**"] else [base]
  }

  /** A line that starts with `!`. */
  predicate Negated(raw: string) {
    var line := Trim(IsWhite, raw);
    line != "" && line[0] == '!'
  }

  /** The globs a line names. */
  function LineGlobs(raw: string): seq<string> {
    var line := Trim(IsWhite, raw);
    if line == "" || line[0] == '#' then []
    else if line[0] == '!' then LinePatterns(line[1..])
    else LinePatterns(line)
  }

  function Bang(patterns: seq<string>): seq<string> {
    seq(|patterns|, i requires 0 <= i < |patterns| => "!" + patterns[i])
  }

  /** The patterns pushed for a line. */
  function Patterns(raw: string): seq<string> {
    if Negated(raw) then Bang(LineGlobs(raw)) else LineGlobs(raw)
  }

  function AllPatterns(lines: seq<string>): seq<string> {
    if lines == [] then [] else AllPatterns(lines[..|lines| - 1]) + Patterns(lines[|lines| - 1])
  }

  method PushLinePatterns(line: string, patterns0: seq<string>) returns (patterns: seq<string>)
    ensures patterns == patterns0 + LinePatterns(line)
  {
    patterns := patterns0;
    var isDir := line != "" && line[|line| - 1] == '/';
    var whole := if isDir then line[..|line| - 1] else line;
    var anchored := '/' in whole;
    var body := if whole != "" && whole[0] == '/' then whole[1..] else whole;
    if body == "" { return; }
    var base := if anchored then body else "**/" + body;
    patterns := patterns + [base];
    if isDir { patterns := patterns + [base + "/**"]; }
  }

  /** The patterns of a `!` line: pushed, then prefixed in place. */
  method PushNegated(rest: string, patterns0: seq<string>) returns (patterns: seq<string>)
    ensures patterns == patterns0 + Bang(LinePatterns(rest))
  {
    hide LinePatterns;
    var start := |patterns0|;
    patterns := PushLinePatterns(rest, patterns0);
    ghost var added := LinePatterns(rest);
    for j := start to |patterns|
      invariant |patterns| == start + |added|
      invariant patterns == patterns0 + Bang(added[..j - start]) + added[j - start..]
    {
      assert patterns[j] == added[j - start];
      assert Bang(added[..j + 1 - start]) == Bang(added[..j - start]) + ["!" + added[j - start]];
      patterns := patterns[j := "!" + patterns[j]];
    }
    assert added[..|added|] == added;
  }

  method PushLine(raw: string, patterns0: seq<string>) returns (patterns: seq<string>)
    ensures patterns == patterns0 + Patterns(raw)
  {
    hide Trim;
    patterns := patterns0;
    NothingPushed();
    var line := Trim(IsWhite, raw);
    if line == "" || line[0] == '#' { return; }
    if line[0] == '!' {
      if |line| > 1 { patterns := PushNegated(line[1..], patterns); }
    } else {
      patterns := PushLinePatterns(line, patterns);
    }
  }

  lemma NothingPushed()
    ensures Bang(LinePatterns("")) == [] && Bang([]) == []
  {
  }

  method PushLines(lines: seq<string>, patterns0: seq<string>) returns (patterns: seq<string>)
    ensures patterns == patterns0 + AllPatterns(lines)
  {
    hide Patterns;
    patterns := patterns0;
    for i := 0 to |lines|
      invariant patterns == patterns0 + AllPatterns(lines[..i])
    {
      assert lines[..i + 1][..i] == lines[..i];
      patterns := PushLine(lines[i], patterns);
    }
    assert lines[..|lines|] == lines;
  }

  // ------------------------------------------------------------ what a line names

  ghost predicate Blank(s: string) {
    forall i :: 0 <= i < |s| ==> IsWhite(s[i])
  }

  /** A line as written: white space around, `!` before, and slashes before and after a name. */
  function Written(left: string, bang: bool, lead: bool, name: string, dir: bool, right: string): string {
    left + ((if bang then "!" else "") + (if lead then "/" else "") + name + (if dir then "/" else "")) + right
  }

  /** The globs of one name: as it stands when anchored, else at any depth, and with all that is below for a
      directory. */
  function NamedGlobs(name: string, anchored: bool, dir: bool): seq<string> {
    var glob := if anchored then name else "**/" + name;
    [glob] + (if dir then [glob + "/**"] else [])
  }

  /** A line names what is left of it without the white space, the `!` and the slashes around; it is anchored at the
      root by a slash before or within the name, and re-includes after `!`. */
  lemma LineNames(left: string, bang: bool, lead: bool, name: string, dir: bool, right: string)
    requires Blank(left) && Blank(right)
    requires name != "" && name[0] != '/' && name[|name| - 1] != '/'
    requires !IsWhite(name[|name| - 1]) && (!bang && !lead ==> !IsWhite(name[0]) && name[0] != '!' && name[0] != '#')
    ensures var globs := NamedGlobs(name, lead || '/' in name, dir);
      Patterns(Written(left, bang, lead, name, dir, right)) ==
        if !bang then globs
        else if dir then ["!" + globs[0], "!" + globs[1]] else ["!" + globs[0]]
  {
    hide LinePatterns, IsWhite, Trim, Written, NamedText, NamedGlobs, Bang;
    var line := NamedText(lead, name, dir);
    NamedLine(lead, name, dir);
    WrittenTrims(left, bang, lead, name, dir, right);
    TrimmedPatterns(Written(left, bang, lead, name, dir, right), bang, line);
    BangGlobs(name, lead || '/' in name, dir);
  }

  function NamedText(lead: bool, name: string, dir: bool): string {
    (if lead then "/" else "") + name + (if dir then "/" else "")
  }

  lemma WrittenTrims(left: string, bang: bool, lead: bool, name: string, dir: bool, right: string)
    requires Blank(left) && Blank(right) && name != ""
    requires !IsWhite(name[|name| - 1]) && (!bang && !lead ==> !IsWhite(name[0]))
    ensures Trim(IsWhite, Written(left, bang, lead, name, dir, right)) ==
      (if bang then "!" else "") + NamedText(lead, name, dir)
    ensures NamedText(lead, name, dir) != "" && NamedText(lead, name, dir)[0] == if lead then '/' else name[0]
  {
    hide IsWhite, Trim;
    MarksNotWhite();
    var line, mark := NamedText(lead, name, dir), if bang then "!" else "";
    assert line[|line| - 1] == if dir then '/' else name[|name| - 1];
    TrimPadded(IsWhite, left, mark + line, right);
    assert mark + line == mark + (if lead then "/" else "") + name + (if dir then "/" else "");
  }

  lemma MarksNotWhite()
    ensures !IsWhite('/') && !IsWhite('!') && !IsWhite('#')
  {
  }

  lemma TrimmedPatterns(raw: string, bang: bool, line: string)
    requires Trim(IsWhite, raw) == (if bang then "!" else "") + line && line != ""
    requires !bang ==> line[0] != '!' && line[0] != '#'
    ensures Patterns(raw) == if bang then Bang(LinePatterns(line)) else LinePatterns(line)
  {
    hide LinePatterns, Trim, IsWhite, Bang;
    if bang {
      assert Trim(IsWhite, raw)[1..] == line;
    } else {
      assert Trim(IsWhite, raw) == line;
    }
  }

  lemma BangGlobs(name: string, anchored: bool, dir: bool)
    ensures var globs := NamedGlobs(name, anchored, dir);
      Bang(globs) == if dir then ["!" + globs[0], "!" + globs[1]] else ["!" + globs[0]]
  {
  }

  lemma NamedLine(lead: bool, name: string, dir: bool)
    requires name != "" && name[0] != '/' && name[|name| - 1] != '/'
    ensures LinePatterns(NamedText(lead, name, dir)) ==
      NamedGlobs(name, lead || '/' in name, dir)
  {
    var whole := (if lead then "/" else "") + name;
    var line := whole + (if dir then "/" else "");
    assert whole[|whole| - 1] == name[|name| - 1];
    if dir { assert line[..|line| - 1] == whole; } else { assert line == whole; }
    if lead {
      assert whole[0] == '/' && whole[1..] == name;
    } else {
      assert whole == name;
    }
    assert LinePatterns(line) == NamedGlobs(name, lead || '/' in name, dir);
  }

  /** Blank lines, comments, a lone `!` and lines of one or two slashes name nothing. */
  lemma LineNamesNothing(left: string, text: string, right: string)
    requires Blank(left) && Blank(right)
    ensures Patterns(left + "/" + right) == Patterns(left + "//" + right) == Patterns(left + "!" + right) == []
    ensures Patterns(left) == []
    ensures text != "" && text[0] == '#' && !IsWhite(text[|text| - 1]) ==> Patterns(left + text + right) == []
  {
    hide IsWhite, Trim;
    MarksNotWhite();
    TrimWhite(IsWhite, left);
    TrimPadded(IsWhite, left, "/", right);
    TrimPadded(IsWhite, left, "//", right);
    TrimPadded(IsWhite, left, "!", right);
    assert "//"[..1] == "/";
    if text != "" && text[0] == '#' && !IsWhite(text[|text| - 1]) { TrimPadded(IsWhite, left, text, right); }
  }

  // ------------------------------------------------------------ reading the files

  datatype File = Absent | Unreadable | Lines(lines: seq<string>)

  predicate IsDirective(raw: string) { Trim(IsWhite, raw) == GITIGNORE_IMPORT_DIRECTIVE }

  function LinesOf(f: File): seq<string> { if f.Lines? then f.lines else [] }

  /** The lines in force: the imported file stands where the directive does. */
  function Expanded(lines: seq<string>, imported: seq<string>): seq<string> {
    if lines == [] then []
    else
      var last := lines[|lines| - 1];
      Expanded(lines[..|lines| - 1], imported) + (if IsDirective(last) then imported else [last])
  }

  /** The directive may have white space around it, and nothing else; the lines of the imported file stand in its
      place. */
  lemma ImportStands(before: seq<string>, raw: string, after: seq<string>, imported: seq<string>)
    ensures Expanded(before + [raw] + after, imported) ==
      Expanded(before, imported) +
      (if exists left, right :: Blank(left) && Blank(right) && raw == left + "@import-gitignore" + right
       then imported else [raw]) +
      Expanded(after, imported)
  {
    hide Trim, IsWhite;
    ExpandedAppend(before + [raw], after, imported);
    ExpandedSnoc(before, raw, imported);
    var left, right := TrimSplits(IsWhite, raw);
    if l, r :| Blank(l) && Blank(r) && raw == l + "@import-gitignore" + r {
      DirectiveNotWhite();
      TrimPadded(IsWhite, l, "@import-gitignore", r);
    }
    if IsDirective(raw) { assert Blank(left) && Blank(right); }
  }

  lemma DirectiveNotWhite()
    ensures !IsWhite('@') && !IsWhite('e')
  {
  }

  lemma {:induction false} ExpandedAppend(a: seq<string>, b: seq<string>, imported: seq<string>)
    ensures Expanded(a + b, imported) == Expanded(a, imported) + Expanded(b, imported)
  {
    hide IsDirective, Expanded;
    if b == [] {
      assert a + b == a;
      ExpandedNothing(imported);
    } else {
      var n := |b| - 1;
      ExpandedAppend(a, b[..n], imported);
      ExpandedSnoc(a + b[..n], b[n], imported);
      ExpandedSnoc(b[..n], b[n], imported);
      assert a + b[..n] + [b[n]] == a + b && b[..n] + [b[n]] == b;
    }
  }

  lemma ExpandedNothing(imported: seq<string>)
    ensures Expanded([], imported) == []
  {
  }

  lemma ExpandedSnoc(lines: seq<string>, last: string, imported: seq<string>)
    ensures Expanded(lines + [last], imported) ==
      Expanded(lines, imported) + (if IsDirective(last) then imported else [last])
  {
    hide IsDirective;
    assert (lines + [last])[..|lines + [last]| - 1] == lines;
  }

  ghost predicate Imports(lines: seq<string>) {
    exists i :: 0 <= i < |lines| && IsDirective(lines[i])
  }

  lemma {:induction false} AllPatternsAppend(a: seq<string>, b: seq<string>)
    ensures AllPatterns(a + b) == AllPatterns(a) + AllPatterns(b)
  {
    hide Patterns, AllPatterns;
    if b == [] {
      assert a + b == a;
      NoPatterns();
    } else {
      var n := |b| - 1;
      AllPatternsAppend(a, b[..n]);
      AllPatternsSnoc(a + b[..n], b[n]);
      AllPatternsSnoc(b[..n], b[n]);
      assert a + b[..n] + [b[n]] == a + b && b[..n] + [b[n]] == b;
    }
  }

  lemma AllPatternsSnoc(lines: seq<string>, last: string)
    ensures AllPatterns(lines + [last]) == AllPatterns(lines) + Patterns(last)
  {
    hide Patterns;
    assert (lines + [last])[..|lines + [last]| - 1] == lines;
  }

  /** The patterns of both ignore files; `None` when one that is needed cannot be read. */
  method ReadIgnoreFiles(ignore: File, gitignore: File) returns (patterns: Option<seq<string>>)
    ensures patterns.None? <==> ignore.Unreadable? || (gitignore.Unreadable? && Imports(LinesOf(ignore)))
    ensures patterns.Some? ==> patterns.value == AllPatterns(Expanded(LinesOf(ignore), LinesOf(gitignore)))
  {
    hide Patterns, IsDirective, AllPatterns;
    if ignore.Unreadable? { return None; }
    var lines, pushed := LinesOf(ignore), [];
    NoPatterns();
    for i := 0 to |lines|
      invariant pushed == AllPatterns(Expanded(lines[..i], LinesOf(gitignore)))
      invariant gitignore.Unreadable? ==> forall j :: 0 <= j < i ==> !IsDirective(lines[j])
    {
      assert lines[..i + 1][..i] == lines[..i];
      if IsDirective(lines[i]) && gitignore.Unreadable? { return None; }
      var more := if IsDirective(lines[i]) then LinesOf(gitignore) else [lines[i]];
      AllPatternsAppend(Expanded(lines[..i], LinesOf(gitignore)), more);
      pushed := PushLines(more, pushed);
    }
    assert lines[..|lines|] == lines;
    patterns := Some(pushed);
  }

  lemma NoPatterns()
    ensures AllPatterns([]) == []
  {
  }

  // ------------------------------------------------------------ what lines mean

  /** The rules a line is meant to give: its well-formed globs, re-including after `!`. */
  ghost function MeantRules(g: Globs, globs: seq<string>, kind: RuleKind): seq<Rule> {
    if globs == [] then []
    else
      var init, last := MeantRules(g, globs[..|globs| - 1], kind), globs[|globs| - 1];
      if g.valid(last) then init + [Rule(last, kind)] else init
  }

  function LineKind(raw: string): RuleKind { if Negated(raw) then Include else Exclude }

  ghost function LineRules(g: Globs, raw: string): seq<Rule> { MeantRules(g, LineGlobs(raw), LineKind(raw)) }

  ghost function FileRules(g: Globs, lines: seq<string>): seq<Rule> {
    if lines == [] then [] else FileRules(g, lines[..|lines| - 1]) + LineRules(g, lines[|lines| - 1])
  }

  predicate StartsWithBang(glob: string) { glob != "" && glob[0] == '!' }

  /** A line without `!` one of whose globs starts with one all the same, as `/!x` gives `!x`. */
  ghost predicate Twisted(g: Globs, raw: string) {
    !Negated(raw) && exists i :: 0 <= i < |LineGlobs(raw)| && TwistedGlob(g, LineGlobs(raw)[i])
  }

  predicate TwistedGlob(g: Globs, glob: string) {
    StartsWithBang(glob) && (g.valid(glob) || g.valid(glob[1..]))
  }

  lemma {:induction false} ExtraRulesAppend(g: Globs, a: seq<string>, b: seq<string>)
    ensures ExtraRules(g, a + b) == ExtraRules(g, a) + ExtraRules(g, b)
  {
    if b == [] {
      assert a + b == a;
    } else {
      ExtraRulesAppend(g, a, b[..|b| - 1]);
      assert (a + b)[..|a + b| - 1] == a + b[..|b| - 1];
    }
  }

  lemma {:induction false} BangRules(g: Globs, globs: seq<string>)
    ensures ExtraRules(g, Bang(globs)) == MeantRules(g, globs, Include)
  {
    if globs != [] {
      var n := |globs| - 1;
      BangRules(g, globs[..n]);
      assert Bang(globs)[..n] == Bang(globs[..n]);
      assert ("!" + globs[n])[1..] == globs[n];
    }
  }

  lemma {:induction false} PlainRules(g: Globs, globs: seq<string>)
    requires forall i :: 0 <= i < |globs| ==> !TwistedGlob(g, globs[i])
    ensures ExtraRules(g, globs) == MeantRules(g, globs, Exclude)
  {
    if globs != [] { PlainRules(g, globs[..|globs| - 1]); }
  }

  function Weight(kind: RuleKind): int {
    match kind case Include => 1 case Exclude => -1 case Builtin => 0
  }

  /** Re-inclusions less exclusions. */
  ghost function Balance(rules: seq<Rule>): int {
    if rules == [] then 0 else Balance(rules[..|rules| - 1]) + Weight(rules[|rules| - 1].kind)
  }

  lemma {:induction false} BalanceAppend(a: seq<Rule>, b: seq<Rule>)
    ensures Balance(a + b) == Balance(a) + Balance(b)
  {
    if b == [] {
      assert a + b == a;
    } else {
      BalanceAppend(a, b[..|b| - 1]);
      assert (a + b)[..|a + b| - 1] == a + b[..|b| - 1];
    }
  }

  lemma {:induction false} TwistedBalance(g: Globs, globs: seq<string>)
    ensures Balance(ExtraRules(g, globs)) >= Balance(MeantRules(g, globs, Exclude))
    ensures (exists i :: 0 <= i < |globs| && TwistedGlob(g, globs[i])) ==>
      Balance(ExtraRules(g, globs)) > Balance(MeantRules(g, globs, Exclude))
  {
    hide TwistedGlob;
    if globs != [] {
      var n := |globs| - 1;
      TwistedBalance(g, globs[..n]);
      if i :| 0 <= i < n && TwistedGlob(g, globs[i]) { assert globs[..n][i] == globs[i]; }
      GlobBalance(g, globs, n);
    }
  }

  /** One more glob weighs as much in both, or more in the compiled rules when it is twisted. */
  lemma GlobBalance(g: Globs, globs: seq<string>, n: nat)
    requires globs != [] && n == |globs| - 1
    ensures var heavier := Balance(ExtraRules(g, globs)) - Balance(ExtraRules(g, globs[..n]));
      var meant := Balance(MeantRules(g, globs, Exclude)) - Balance(MeantRules(g, globs[..n], Exclude));
      heavier >= meant && (TwistedGlob(g, globs[n]) ==> heavier > meant)
  {
    hide Balance;
    BalanceAppend(ExtraRules(g, globs[..n]), [ExtraRule(globs[n])]);
    BalanceAppend(MeantRules(g, globs[..n], Exclude), [Rule(globs[n], Exclude)]);
    OneRule(ExtraRule(globs[n]));
    OneRule(Rule(globs[n], Exclude));
  }

  lemma OneRule(r: Rule)
    ensures Balance([r]) == Weight(r.kind)
  {
    assert [r][..0] == [];
  }

  lemma LineExact(g: Globs, raw: string)
    ensures !Twisted(g, raw) ==> ExtraRules(g, Patterns(raw)) == LineRules(g, raw)
    ensures Balance(ExtraRules(g, Patterns(raw))) >= Balance(LineRules(g, raw))
    ensures Twisted(g, raw) ==> Balance(ExtraRules(g, Patterns(raw))) > Balance(LineRules(g, raw))
  {
    hide LineGlobs, Negated;
    if Negated(raw) {
      BangRules(g, LineGlobs(raw));
    } else {
      TwistedBalance(g, LineGlobs(raw));
      if !Twisted(g, raw) { PlainRules(g, LineGlobs(raw)); }
    }
  }

  ghost predicate AnyTwisted(g: Globs, lines: seq<string>) {
    exists i :: 0 <= i < |lines| && Twisted(g, lines[i])
  }

  lemma {:induction false} RulesMeantOrHeavier(g: Globs, lines: seq<string>)
    ensures !AnyTwisted(g, lines) ==> ExtraRules(g, AllPatterns(lines)) == FileRules(g, lines)
    ensures Balance(ExtraRules(g, AllPatterns(lines))) >= Balance(FileRules(g, lines))
    ensures AnyTwisted(g, lines) ==> Balance(ExtraRules(g, AllPatterns(lines))) > Balance(FileRules(g, lines))
  {
    hide Patterns, LineRules, Twisted;
    if lines != [] {
      var n := |lines| - 1;
      RulesMeantOrHeavier(g, lines[..n]);
      LineExact(g, lines[n]);
      ExtraRulesAppend(g, AllPatterns(lines[..n]), Patterns(lines[n]));
      BalanceAppend(ExtraRules(g, AllPatterns(lines[..n])), ExtraRules(g, Patterns(lines[n])));
      BalanceAppend(FileRules(g, lines[..n]), LineRules(g, lines[n]));
      TwistedSnoc(g, lines);
    }
  }

  lemma TwistedSnoc(g: Globs, lines: seq<string>)
    requires lines != []
    ensures AnyTwisted(g, lines) <==> AnyTwisted(g, lines[..|lines| - 1]) || Twisted(g, lines[|lines| - 1])
  {
    hide Twisted;
    var n := |lines| - 1;
    var before := lines[..n];
    if i :| 0 <= i < |before| && Twisted(g, before[i]) { assert before[i] == lines[i]; }
    if i :| 0 <= i < |lines| && Twisted(g, lines[i]) { assert i < n ==> before[i] == lines[i]; }
  }

  /** The compiled rules are those the lines mean exactly when no line is twisted. */
  lemma RulesExact(g: Globs, lines: seq<string>)
    ensures ExtraRules(g, AllPatterns(lines)) == FileRules(g, lines) <==> !AnyTwisted(g, lines)
  {
    hide AnyTwisted, AllPatterns, FileRules;
    RulesMeantOrHeavier(g, lines);
  }

  /** A line that should exclude the root file `!x` re-includes `x` instead. */
  lemma AnchoredBangFlips(g: Globs)
    requires g.valid("x") && g.valid("!x")
    ensures FileRules(g, ["/!x"]) == [Rule("!x", Exclude)]
    ensures ExtraRules(g, AllPatterns(["/!x"])) == [Rule("x", Include)]
  {
    var line := "/!x";
    BangLine();
    assert ExtraRules(g, ["!x"][..0]) == [] && MeantRules(g, ["!x"][..0], Exclude) == [];
    assert "!x"[1..] == "x";
    assert FileRules(g, [line][..0]) == [] && AllPatterns([line][..0]) == [];
    assert FileRules(g, [line]) == LineRules(g, line);
    assert AllPatterns([line]) == ["!x"];
  }

  lemma BangLine()
    ensures LineGlobs("/!x") == ["!x"] && !Negated("/!x")
  {
    TrimUnchanged(IsWhite, "/!x");
    assert "/!x"[1..] == "!x";
  }

  // ------------------------------------------------------------ the last line decides

  ghost predicate LineHits(g: Globs, raw: string, path: string) {
    exists i :: 0 <= i < |LineGlobs(raw)| && GlobHits(g, LineGlobs(raw)[i], path)
  }

  lemma {:induction false} LastHitAppend(m: (string, string) -> bool, a: seq<Rule>, b: seq<Rule>, path: string)
    ensures LastHit(m, a + b, path) ==
      if LastHit(m, b, path).Some? then Some(|a| + LastHit(m, b, path).value) else LastHit(m, a, path)
  {
    if b == [] {
      assert a + b == a;
    } else {
      LastHitAppend(m, a, b[..|b| - 1], path);
      assert (a + b)[..|a + b| - 1] == a + b[..|b| - 1];
    }
  }

  predicate GlobHits(g: Globs, glob: string, path: string) { g.valid(glob) && g.matches(glob, path) }

  lemma {:induction false} MeantHits(g: Globs, globs: seq<string>, kind: RuleKind, path: string)
    ensures LastHit(g.matches, MeantRules(g, globs, kind), path).Some? <==>
      exists i :: 0 <= i < |globs| && GlobHits(g, globs[i], path)
    ensures forall i :: 0 <= i < |MeantRules(g, globs, kind)| ==> MeantRules(g, globs, kind)[i].kind == kind
  {
    hide LastHit;
    if globs == [] {
      NoRuleHits(g.matches, path);
    } else {
      var n := |globs| - 1;
      MeantHits(g, globs[..n], kind, path);
      if i :| 0 <= i < n && GlobHits(g, globs[..n][i], path) { assert GlobHits(g, globs[i], path); }
      if i :| 0 <= i < |globs| && GlobHits(g, globs[i], path) { assert i < n ==> GlobHits(g, globs[..n][i], path); }
      LastHitSnoc(g.matches, MeantRules(g, globs[..n], kind), Rule(globs[n], kind), path);
    }
  }

  lemma LastHitSnoc(m: (string, string) -> bool, rules: seq<Rule>, last: Rule, path: string)
    ensures LastHit(m, rules + [last], path).Some? <==> LastHit(m, rules, path).Some? || m(last.glob, path)
  {
    assert (rules + [last])[..|rules + [last]| - 1] == rules;
  }

  /** The last line that hits a path, if any. */
  ghost predicate LastLine(g: Globs, lines: seq<string>, path: string, i: nat) {
    && i < |lines| && LineHits(g, lines[i], path)
    && forall j :: i < j < |lines| ==> !LineHits(g, lines[j], path)
  }

  /** The last rule that matches comes from the last line that hits, and is of its kind. */
  lemma {:induction false} LastRuleOfLastLine(g: Globs, lines: seq<string>, path: string)
    ensures var rules := FileRules(g, lines);
      && (LastHit(g.matches, rules, path).Some? <==> exists i: nat :: LastLine(g, lines, path, i))
      && (forall i: nat :: LastLine(g, lines, path, i) ==>
            rules[LastHit(g.matches, rules, path).value].kind == LineKind(lines[i]))
  {
    hide LineHits, LineGlobs, LineRules, MeantRules, LastHit, LineKind;
    if lines == [] {
      NoRuleHits(g.matches, path);
    } else {
      var n := |lines| - 1;
      var a, b := FileRules(g, lines[..n]), LineRules(g, lines[n]);
      LastRuleOfLastLine(g, lines[..n], path);
      LineRulesHit(g, lines[n], path);
      LastHitAppend(g.matches, a, b, path);
      LastLineSnoc(g, lines, path);
      if LineHits(g, lines[n], path) { assert LastLine(g, lines, path, n); }
    }
  }

  lemma LastLineSnoc(g: Globs, lines: seq<string>, path: string)
    requires lines != []
    ensures var n := |lines| - 1;
      if LineHits(g, lines[n], path) then forall i: nat :: LastLine(g, lines, path, i) <==> i == n
      else forall i: nat :: LastLine(g, lines, path, i) <==> LastLine(g, lines[..n], path, i)
  {
    hide LineHits;
    var n := |lines| - 1;
    assert forall j :: 0 <= j < n ==> lines[..n][j] == lines[j];
    forall i: nat | LineHits(g, lines[n], path) ensures LastLine(g, lines, path, i) <==> i == n {
      if i < n { assert LineHits(g, lines[n], path); }
    }
  }

  lemma NoRuleHits(m: (string, string) -> bool, path: string)
    ensures LastHit(m, [], path) == None
  {
  }

  lemma LineRulesHit(g: Globs, raw: string, path: string)
    ensures LastHit(g.matches, LineRules(g, raw), path).Some? <==> LineHits(g, raw, path)
    ensures forall i :: 0 <= i < |LineRules(g, raw)| ==> LineRules(g, raw)[i].kind == LineKind(raw)
  {
    hide LineGlobs, MeantRules, LastHit, LineKind;
    MeantHits(g, LineGlobs(raw), LineKind(raw), path);
  }

  /** What an ignore file says of a path: the built-in rules first, then the last line that hits it. */
  ghost predicate FileExcludes(g: Globs, lines: seq<string>, path: string) {
    || BuiltinHit(g.matches, BuiltinRules(), path)
    || exists i: nat :: LastLine(g, lines, path, i) && !Negated(lines[i])
  }

  /** Without twisted lines the compiled set excludes exactly what the file says, path by path. */
  lemma FileDecides(g: Globs, lines: seq<string>, path: string)
    requires !AnyTwisted(g, lines)
    ensures Excludes(g.matches, BuiltinRules() + ExtraRules(g, AllPatterns(lines)), path) <==>
      FileExcludes(g, lines, path)
  {
    hide AnyTwisted, LastLine, LastHit, Negated, BuiltinRules, AllPatterns, FileRules;
    RulesExact(g, lines);
    var a, b := BuiltinRules(), FileRules(g, lines);
    LastRuleOfLastLine(g, lines, path);
    LastHitAppend(g.matches, a, b, path);
    BuiltinsAreBuiltin();
    NoneBuiltin(g, lines);
    BuiltinHitAppend(g.matches, a, b, path);
  }

  lemma {:induction false} NoneBuiltin(g: Globs, lines: seq<string>)
    ensures forall i :: 0 <= i < |FileRules(g, lines)| ==> FileRules(g, lines)[i].kind != Builtin
  {
    hide LineRules;
    if lines != [] {
      NoneBuiltin(g, lines[..|lines| - 1]);
      LineRulesHit(g, lines[|lines| - 1], "");
    }
  }

  lemma BuiltinHitAppend(m: (string, string) -> bool, a: seq<Rule>, b: seq<Rule>, path: string)
    requires forall i :: 0 <= i < |b| ==> b[i].kind != Builtin
    ensures BuiltinHit(m, a + b, path) <==> BuiltinHit(m, a, path)
  {
    var r := a + b;
    if i :| 0 <= i < |a| && a[i].kind == Builtin && m(a[i].glob, path) { assert r[i] == a[i]; }
  }

  /** So a path is excluded exactly when the file excludes it or a directory above it. */
  lemma IgnoreFileExact(g: Globs, lines: seq<string>, path: string)
    requires !AnyTwisted(g, lines)
    requires g.compiles(GlobsOf(BuiltinRules() + ExtraRules(g, AllPatterns(lines))))
    ensures IsExcluded(RuleSet(g, AllPatterns(lines)), path) <==>
      exists d :: AtOrUnder(path, d) && FileExcludes(g, lines, d)
  {
    hide AnyTwisted, FileExcludes, Excludes, BuiltinRules, AllPatterns;
    var rules := RuleSet(g, AllPatterns(lines));
    ExcludedIffPruned(rules, path);
    forall d
      ensures Excludes(g.matches, rules.rules.value, d) <==> FileExcludes(g, lines, d) { FileDecides(g, lines, d); }
  }

  /** A path for which it matters: a file that excludes `x` and then the root file `!x` compiles to rules
      under which `x` is indexed. */
  lemma AnchoredBangIndexes(g: Globs)
    requires g.valid("x") && g.valid("!x") && g.valid("**/x")
    requires g.matches("**/x", "x") && g.matches("x", "x") && !g.matches("!x", "x")
    requires !BuiltinHit(g.matches, BuiltinRules(), "x")
    ensures FileExcludes(g, ["x", "/!x"], "x")
    ensures !Excludes(g.matches, BuiltinRules() + ExtraRules(g, AllPatterns(["x", "/!x"])), "x")
  {
    hide BuiltinRules, LineGlobs, Negated, Trim;
    var lines := ["x", "/!x"];
    BangLine();
    PlainLine();
    assert AllPatterns(lines[..1]) == ["**/x"] by { assert lines[..1][..0] == []; }
    assert AllPatterns(lines) == ["**/x", "!x"];
    var extra := [Rule("**/x", Exclude), Rule("x", Include)];
    TwoRules(g);
    assert LineGlobs(lines[0]) == ["**/x"] && LineGlobs(lines[1]) == ["!x"];
    assert LineHits(g, lines[0], "x");
    assert LastLine(g, lines, "x", 0);
    BuiltinHitAppend(g.matches, BuiltinRules(), extra, "x");
    LastHitAppend(g.matches, BuiltinRules(), extra, "x");
  }

  lemma PlainLine()
    ensures LineGlobs("x") == ["**/x"] && !Negated("x")
  {
    TrimUnchanged(IsWhite, "x");
    assert LinePatterns("x") == ["**/" + "x"];
    assert "**/" + "x" == "**/x";
  }

  lemma TwoRules(g: Globs)
    requires g.valid("x") && g.valid("**/x")
    ensures ExtraRules(g, ["**/x", "!x"]) == [Rule("**/x", Exclude), Rule("x", Include)]
  {
    var extra := ["**/x", "!x"];
    assert extra[..1] == ["**/x"] && extra[..1][..0] == [];
    assert "!x"[1..] == "x";
    assert ExtraRules(g, extra[..1][..0]) == [];
    assert ExtraRules(g, extra[..1]) == [Rule("**/x", Exclude)];
  }
}
