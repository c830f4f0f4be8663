/** Rows of the duplicate reports: the cell writer (`duplicates.rs`) against the row reader of the
    benchmark (`score_duplicate_labels.py`). */
module Toon {
  import opened Text

  // ------------------------------------------------------------ characters

  predicate IsControl(c: char) {
    c <= '\U{1F}' || '\U{7F}' <= c <= '\U{9F}'
  }

  /** White space of the reader's `strip`, which also takes four control characters. */
  predicate IsReaderWhite(c: char) {
    IsWhite(c) || '\U{1C}' <= c <= '\U{1F}'
  }

  /** Where the reader ends a line. */
  predicate IsLineBreak(c: char) {
    '\U{A}' <= c <= '\U{D}' || '\U{1C}' <= c <= '\U{1E}' || c == '\U{85}' || c == '\U{2028}' || c == '\U{2029}'
  }

  // ------------------------------------------------------------ the writer

  predicate Special(c: char) {
    IsControl(c) || c == ',' || c == ':' || c == '"' || c == '\\' || c == '[' || c == ']' || c == '{' || c == '}'
  }

  /** `isNumber` is the host's test whether a text reads as a floating-point number. */
  predicate NeedsQuotes(isNumber: string -> bool, value: string) {
    || value == ""
    || Trim(IsWhite, value) != value
    || value == "true" || value == "false" || value == "null"
    || value[0] == '-'
    || isNumber(value)
    || exists i :: 0 <= i < |value| && Special(value[i])
  }

  function Escape(c: char): string {
    if c == '\\' then "\\\\"
    else if c == '"' then "\\\""
    else if c == '\n' then "\\n"
    else if c == '\r' then "\\r"
    else if c == '\t' then "\\t"
    else if IsControl(c) then "\U{FFFD}"
    else [c]
  }

  function Escaped(value: string): string {
    if value == "" then "" else Escape(value[0]) + Escaped(value[1..])
  }

  function Quoted(isNumber: string -> bool, value: string): string {
    if NeedsQuotes(isNumber, value) then "\"" + Escaped(value) + "\"" else value
  }

  lemma {:induction false} EscapedAppend(a: string, c: char)
    ensures Escaped(a + [c]) == Escaped(a) + Escape(c)
  {
    if a == "" {
      assert a + [c] == [c];
      assert [c][1..] == "";
    } else {
      assert (a + [c])[1..] == a[1..] + [c];
      EscapedAppend(a[1..], c);
    }
  }

  method QuoteIfNeeded(isNumber: string -> bool, value: string) returns (quoted: string)
    ensures quoted == Quoted(isNumber, value)
  {
    if !NeedsQuotes(isNumber, value) { return value; }
    quoted := "\"";
    for i := 0 to |value|
      invariant quoted == "\"" + Escaped(value[..i])
    {
      EscapedAppend(value[..i], value[i]);
      assert value[..i + 1] == value[..i] + [value[i]];
      quoted := quoted + Escape(value[i]);
    }
    assert value[..|value|] == value;
    quoted := quoted + "\"";
  }

  function JoinCells(cells: seq<string>): string {
    if cells == [] then "" else if |cells| == 1 then cells[0] else cells[0] + "," + JoinCells(cells[1..])
  }

  function QuotedAll(isNumber: string -> bool, values: seq<string>): seq<string> {
    if values == [] then [] else [Quoted(isNumber, values[0])] + QuotedAll(isNumber, values[1..])
  }

  function WrittenRow(isNumber: string -> bool, values: seq<string>): string {
    JoinCells(QuotedAll(isNumber, values))
  }

  // ------------------------------------------------------------ the reader

  function Unescaped(c: char): char {
    if c == 'n' then '\n' else if c == 't' then '\t' else if c == 'r' then '\r' else c
  }

  function Unescape(body: string): string {
    if body == "" then ""
    else if body[0] == '\\' && |body| > 1 then [Unescaped(body[1])] + Unescape(body[2..])
    else [body[0]] + Unescape(body[1..])
  }

  function UnquoteTrimmed(t: string): string {
    if |t| >= 2 && t[0] == '"' && t[|t| - 1] == '"' then Unescape(t[1..|t| - 1]) else t
  }

  function Unquoted(text: string): string { UnquoteTrimmed(Trim(IsReaderWhite, text)) }

  lemma {:induction false} UnescapePlain(body: string)
    requires '\\' !in body
    ensures Unescape(body) == body
  {
    if body != "" {
      UnescapePlain(body[1..]);
    }
  }

  lemma UnescapeStep(body: string, i: nat)
    requires i < |body|
    ensures Unescape(body[i..]) ==
      if body[i] == '\\' && i + 1 < |body| then [Unescaped(body[i + 1])] + Unescape(body[i + 2..])
      else [body[i]] + Unescape(body[i + 1..])
  {
    var rest := body[i..];
    assert rest[1..] == body[i + 1..];
    if i + 1 < |body| { assert rest[2..] == body[i + 2..]; }
  }

  method UnescapeBody(body: string) returns (r: string)
    ensures r == Unescape(body)
  {
    hide Unescape, Unescaped;
    var i := 0;
    r := "";
    assert body[0..] == body;
    while i < |body|
      invariant 0 <= i <= |body|
      invariant Unescape(body) == r + Unescape(body[i..])
    {
      UnescapeStep(body, i);
      var c := body[i];
      if c == '\\' && i + 1 < |body| {
        r := r + [Unescaped(body[i + 1])];
        i := i + 2;
      } else {
        r := r + [c];
        i := i + 1;
      }
    }
    assert body[i..] == "";
    UnescapePlain("");
  }

  method Unquote(text0: string) returns (r: string)
    ensures r == Unquoted(text0)
  {
    hide Unescape, Trim;
    var text := Trim(IsReaderWhite, text0);
    if |text| >= 2 && text[0] == '"' && text[|text| - 1] == '"' {
      var body := text[1..|text| - 1];
      if '\\' !in body {
        UnescapePlain(body);
        return body;
      }
      r := UnescapeBody(body);
    } else {
      r := text;
    }
  }

  /** The cells of `text`, read after `current`, inside quotes or not. */
  function SplitFrom(text: string, current: string, quoted: bool): seq<string>
    decreases |text|
  {
    if text == "" then [Unquoted(current)]
    else if quoted then
      if text[0] == '\\' && |text| > 1 then SplitFrom(text[2..], current + text[..2], true)
      else SplitFrom(text[1..], current + [text[0]], text[0] != '"')
    else if text[0] == '"' then SplitFrom(text[1..], current + [text[0]], true)
    else if text[0] == ',' then [Unquoted(current)] + SplitFrom(text[1..], "", false)
    else SplitFrom(text[1..], current + [text[0]], false)
  }

  /** Cut at every comma. */
  function Cut(text: string, current: string): seq<string>
    decreases |text|
  {
    if text == "" then [current]
    else if text[0] == ',' then [current] + Cut(text[1..], "")
    else Cut(text[1..], current + [text[0]])
  }

  function TrimAll(cells: seq<string>): seq<string> {
    if cells == [] then [] else [Trim(IsReaderWhite, cells[0])] + TrimAll(cells[1..])
  }

  function CellsOf(text: string): seq<string> {
    if '"' !in text then TrimAll(Cut(text, "")) else SplitFrom(text, "", false)
  }

  /** The short way for rows without quotes reads the same cells. */
  lemma {:induction false} ShortWayAgrees(text: string, current: string)
    requires '"' !in text && '"' !in current
    ensures TrimAll(Cut(text, current)) == SplitFrom(text, current, false)
    decreases |text|
  {
    TrimKeeps(current);
    if text != "" {
      if text[0] == ',' {
        ShortWayAgrees(text[1..], "");
        assert Cut(text, current) == [current] + Cut(text[1..], "");
      } else {
        ShortWayAgrees(text[1..], current + [text[0]]);
      }
    }
  }

  /** Trimming brings in nothing. */
  lemma {:induction false} TrimKeeps(s: string)
    ensures '"' !in s ==> '"' !in Trim(IsReaderWhite, s) && Unquoted(s) == Trim(IsReaderWhite, s)
  {
    TrimStartKeeps(s);
    TrimEndKeeps(TrimStart(IsReaderWhite, s));
  }

  lemma {:induction false} TrimStartKeeps(s: string)
    ensures forall c :: c in TrimStart(IsReaderWhite, s) ==> c in s
  {
    if s != "" { TrimStartKeeps(s[1..]); }
  }

  lemma {:induction false} TrimEndKeeps(s: string)
    ensures forall c :: c in TrimEnd(IsReaderWhite, s) ==> c in s
  {
    if s != "" { TrimEndKeeps(s[..|s| - 1]); }
  }

  method StripAll(cells: seq<string>) returns (r: seq<string>)
    ensures r == TrimAll(cells)
  {
    r := [];
    for i := 0 to |cells|
      invariant TrimAll(cells) == r + TrimAll(cells[i..])
    {
      r := r + [Trim(IsReaderWhite, cells[i])];
    }
  }

  method SplitRow(text: string) returns (cells: seq<string>)
    ensures cells == CellsOf(text)
  {
    if '"' !in text {
      cells := StripAll(Cut(text, ""));
      return;
    }
    cells := [];
    var current, quoted, i := "", false, 0;
    while i < |text|
      invariant 0 <= i <= |text|
      invariant SplitFrom(text, "", false) == cells + SplitFrom(text[i..], current, quoted)
    {
      var c := text[i];
      if quoted {
        ghost var before := current;
        current := current + [c];
        if c == '\\' && i + 1 < |text| {
          current := current + [text[i + 1]];
          assert before + text[i..][..2] == current && text[i..][2..] == text[i + 2..];
          i := i + 2;
          continue;
        }
        if c == '"' { quoted := false; }
      } else if c == '"' {
        quoted := true;
        current := current + [c];
      } else if c == ',' {
        var cell := Unquote(current);
        cells := cells + [cell];
        current := "";
      } else {
        current := current + [c];
      }
      i := i + 1;
    }
    var cell := Unquote(current);
    cells := cells + [cell];
  }

  // ------------------------------------------------------------ round trip

  /** What survives of a character: control characters without an escape are lost. */
  function Clean(c: char): char {
    if IsControl(c) && c != '\n' && c != '\r' && c != '\t' then '\U{FFFD}' else c
  }

  function CleanText(s: string): string {
    seq(|s|, i requires 0 <= i < |s| => Clean(s[i]))
  }

  function CleanAll(values: seq<string>): seq<string> {
    seq(|values|, i requires 0 <= i < |values| => CleanText(values[i]))
  }

  lemma {:induction false} UnescapeEscaped(value: string)
    ensures Unescape(Escaped(value)) == CleanText(value)
  {
    if value != "" {
      UnescapeEscaped(value[1..]);
      UnescapeOne(value[0], Escaped(value[1..]));
      assert CleanText(value) == [Clean(value[0])] + CleanText(value[1..]);
    }
  }

  lemma UnescapeOne(c: char, rest: string)
    ensures Unescape(Escape(c) + rest) == [Clean(c)] + Unescape(rest)
  {
    var t := Escape(c) + rest;
    if |Escape(c)| == 2 {
      assert t[2..] == rest && t[1] == Escape(c)[1];
    } else {
      assert t[1..] == rest;
    }
  }

  /** Inside quotes the reader passes over an escaped text. */
  lemma {:induction false} ScanEscaped(value: string, current: string, rest: string)
    ensures SplitFrom(Escaped(value) + rest, current, true) == SplitFrom(rest, current + Escaped(value), true)
    decreases |value|
  {
    if value == "" {
      assert Escaped(value) + rest == rest && current + Escaped(value) == current;
    } else {
      var e, more := Escape(value[0]), Escaped(value[1..]);
      assert Escaped(value) + rest == e + (more + rest);
      ScanOne(value[0], current, more + rest);
      ScanEscaped(value[1..], current + e, rest);
      assert current + e + more == current + Escaped(value);
    }
  }

  lemma EscapeShape(c: char)
    ensures |Escape(c)| == 1 || (|Escape(c)| == 2 && Escape(c)[0] == '\\')
    ensures |Escape(c)| == 1 ==> Escape(c)[0] != '\\' && Escape(c)[0] != '"'
  {
  }

  lemma ScanOne(c: char, current: string, rest: string)
    ensures SplitFrom(Escape(c) + rest, current, true) == SplitFrom(rest, current + Escape(c), true)
  {
    hide Escape, Unquoted;
    EscapeShape(c);
    var e := Escape(c);
    var t := e + rest;
    assert t[0] == e[0];
    if |e| == 2 {
      assert t[2..] == rest && t[..2] == e;
    } else {
      assert t[1..] == rest && [t[0]] == e;
    }
  }

  /** Outside quotes the reader passes over a text without quotes and commas. */
  lemma {:induction false} ScanPlain(plain: string, current: string, rest: string)
    requires '"' !in plain && ',' !in plain
    ensures SplitFrom(plain + rest, current, false) == SplitFrom(rest, current + plain, false)
    decreases |plain|
  {
    if plain == "" {
      assert plain + rest == rest && current + plain == current;
    } else {
      assert plain[0] in plain;
      assert (plain + rest)[1..] == plain[1..] + rest;
      ScanPlain(plain[1..], current + [plain[0]], rest);
      assert current + [plain[0]] + plain[1..] == current + plain;
    }
  }

  /** A written cell is read up to its end, and read back. */
  lemma ScanCell(isNumber: string -> bool, value: string, rest: string)
    ensures SplitFrom(Quoted(isNumber, value) + rest, "", false) == SplitFrom(rest, Quoted(isNumber, value), false)
    ensures Unquoted(Quoted(isNumber, value)) == CleanText(value)
  {
    if NeedsQuotes(isNumber, value) {
      ScanQuoted(value, rest);
      UnquoteQuoted(value);
    } else {
      PlainCell(isNumber, value);
      ScanPlain(value, "", rest);
      assert "" + value == value;
    }
  }

  lemma ScanQuoted(value: string, rest: string)
    ensures SplitFrom("\"" + Escaped(value) + "\"" + rest, "", false) ==
      SplitFrom(rest, "\"" + Escaped(value) + "\"", false)
  {
    var t := "\"" + Escaped(value) + "\"" + rest;
    assert t[1..] == Escaped(value) + ("\"" + rest);
    assert "" + ['"'] == "\"";
    ScanEscaped(value, "\"", "\"" + rest);
    assert ("\"" + rest)[1..] == rest;
  }

  lemma UnquoteQuoted(value: string)
    ensures Unquoted("\"" + Escaped(value) + "\"") == CleanText(value)
  {
    var t := "\"" + Escaped(value) + "\"";
    TrimUnchanged(IsReaderWhite, t);
    assert t[1..|t| - 1] == Escaped(value);
    UnescapeEscaped(value);
  }

  /** A cell that needs no quotes is read as it is. */
  lemma PlainCell(isNumber: string -> bool, value: string)
    requires !NeedsQuotes(isNumber, value)
    ensures '"' !in value && ',' !in value && Unquoted(value) == value && CleanText(value) == value
  {
    forall i | 0 <= i < |value| ensures !Special(value[i]) && Clean(value[i]) == value[i] {}
    TrimUnchanged(IsWhite, value);
    TrimUnchanged(IsReaderWhite, value);
    assert value[0] in value;
  }

  lemma WrittenFirst(isNumber: string -> bool, values: seq<string>)
    requires values != []
    ensures WrittenRow(isNumber, values) ==
      Quoted(isNumber, values[0]) + (if |values| == 1 then "" else "," + WrittenRow(isNumber, values[1..]))
    ensures CleanAll(values) == [CleanText(values[0])] + CleanAll(values[1..])
  {
    hide Quoted, CleanText;
    var q, more := Quoted(isNumber, values[0]), QuotedAll(isNumber, values[1..]);
    assert QuotedAll(isNumber, values) == [q] + more;
    if |values| == 1 {
      assert more == [];
    } else {
      assert more != [] && ([q] + more)[1..] == more;
      assert q + "," + JoinCells(more) == q + ("," + JoinCells(more));
    }
  }

  lemma {:induction false} SplitWritten(isNumber: string -> bool, values: seq<string>)
    requires values != []
    ensures SplitFrom(WrittenRow(isNumber, values), "", false) == CleanAll(values)
  {
    hide Quoted, CleanText, WrittenRow, CleanAll, Unquoted;
    WrittenFirst(isNumber, values);
    if |values| == 1 {
      ScanCell(isNumber, values[0], "");
      assert values[1..] == [];
      NothingToClean();
    } else {
      var rest := "," + WrittenRow(isNumber, values[1..]);
      ScanCell(isNumber, values[0], rest);
      assert rest[1..] == WrittenRow(isNumber, values[1..]);
      SplitWritten(isNumber, values[1..]);
    }
  }

  lemma NothingToClean()
    ensures CleanAll([]) == []
  {
  }

  /** What is written is read back, but for control characters that have no escape. */
  lemma RoundTrip(isNumber: string -> bool, values: seq<string>)
    requires values != []
    ensures CellsOf(WrittenRow(isNumber, values)) == CleanAll(values)
  {
    SplitWritten(isNumber, values);
    if '"' !in WrittenRow(isNumber, values) { ShortWayAgrees(WrittenRow(isNumber, values), ""); }
  }

  // ------------------------------------------------------------ what a cell is taken for

  datatype Scalar = Text(text: string) | Boolean(value: bool) | Null | Number(digits: string) | ListItem | Nothing

  /** What a decoder takes a cell for: quoted ones are text, the others go by their look. */
  function ReadScalar(isNumber: string -> bool, cell: string): Scalar {
    if cell == "" then Nothing
    else if cell[0] == '"' then Text(Unquoted(cell))
    else if cell == "true" then Boolean(true)
    else if cell == "false" then Boolean(false)
    else if cell == "null" then Null
    else if isNumber(cell) then Number(cell)
    else if cell[0] == '-' then ListItem
    else Text(cell)
  }

  /** Whatever a text looks like, its cell is taken for that text. */
  lemma CellIsText(isNumber: string -> bool, value: string)
    ensures ReadScalar(isNumber, Quoted(isNumber, value)) == Text(CleanText(value))
  {
    hide Unquoted;
    ScanCell(isNumber, value, "");
    if NeedsQuotes(isNumber, value) {
      assert Quoted(isNumber, value)[0] == '"';
    } else {
      PlainCell(isNumber, value);
      assert value[0] in value;
    }
  }

  /** `c` has a meaning of its own in a row, or cannot be seen. */
  predicate Structural(c: char) {
    c in {',', ':', '"', '\\', '[', ']', '{', '}'} || c <= '\U{1F}' || '\U{7F}' <= c <= '\U{9F}'
  }

  /** A cell goes without quotes exactly when its text would be taken for itself as it stands, has no structural
      character and neither begins nor ends with white space. */
  lemma PlainIff(isNumber: string -> bool, value: string)
    ensures Quoted(isNumber, value) == value <==>
      && ReadScalar(isNumber, value) == Text(value)
      && (forall i :: 0 <= i < |value| ==> !Structural(value[i]))
      && !IsWhite(value[0]) && !IsWhite(value[|value| - 1])
  {
    hide Unquoted;
    TrimUnchanged(IsWhite, value);
    EscapedLonger(value);
    if forall i :: 0 <= i < |value| ==> !Structural(value[i]) {
      forall i | 0 <= i < |value| ensures !Special(value[i]) { assert !Structural(value[i]); }
    }
    if !NeedsQuotes(isNumber, value) {
      forall i | 0 <= i < |value| ensures !Structural(value[i]) { assert !Special(value[i]); }
    }
  }

  lemma {:induction false} EscapedLonger(value: string)
    ensures |value| <= |Escaped(value)|
  {
    if value != "" { EscapedLonger(value[1..]); }
  }

  ghost predicate Visible(s: string) {
    forall i :: 0 <= i < |s| ==> !(s[i] <= '\U{1F}' || '\U{7F}' <= s[i] <= '\U{9F}')
  }

  lemma VisibleAppend(a: string, b: string)
    ensures Visible(a + b) <==> Visible(a) && Visible(b)
  {
    var t := a + b;
    forall i | 0 <= i < |a| ensures t[i] == a[i] {}
    forall i | 0 <= i < |b| ensures t[|a| + i] == b[i] {}
  }

  lemma {:induction false} EscapedVisible(value: string)
    ensures Visible(Escaped(value))
  {
    if value != "" {
      EscapedVisible(value[1..]);
      VisibleAppend(Escape(value[0]), Escaped(value[1..]));
    }
  }

  lemma CellVisible(isNumber: string -> bool, value: string)
    ensures Visible(Quoted(isNumber, value))
  {
    if NeedsQuotes(isNumber, value) {
      EscapedVisible(value);
      VisibleAppend("\"", Escaped(value));
      VisibleAppend("\"" + Escaped(value), "\"");
    } else {
      forall i | 0 <= i < |value| ensures !Special(value[i]) {}
    }
  }

  /** No control character is ever written, not even a tab. */
  lemma {:induction false} RowVisible(isNumber: string -> bool, values: seq<string>)
    requires values != []
    ensures Visible(WrittenRow(isNumber, values))
  {
    hide Quoted, WrittenRow, Visible;
    WrittenFirst(isNumber, values);
    CellVisible(isNumber, values[0]);
    if |values| == 1 {
      assert Quoted(isNumber, values[0]) + "" == Quoted(isNumber, values[0]);
    } else {
      var more := WrittenRow(isNumber, values[1..]);
      RowVisible(isNumber, values[1..]);
      VisibleAppend(Quoted(isNumber, values[0]), "," + more);
      VisibleAppend(",", more);
      assert Visible(",") by { CommaVisible(); }
    }
  }

  lemma CommaVisible()
    ensures Visible(",")
  {
  }

  // ------------------------------------------------------------ what is lost

  /** A text is read back as it was exactly when its control characters are line feeds, carriage returns and tabs. */
  lemma WritableIff(value: string)
    ensures CleanText(value) == value <==>
      forall i :: 0 <= i < |value| && (value[i] <= '\U{1F}' || '\U{7F}' <= value[i] <= '\U{9F}') ==>
        value[i] in {'\n', '\r', '\t'}
  {
    if CleanText(value) == value {
      forall i | 0 <= i < |value| ensures Clean(value[i]) == value[i] { assert CleanText(value)[i] == value[i]; }
    }
  }

  /** Nothing in the text is lost in writing. */
  predicate Writable(value: string) {
    forall i :: 0 <= i < |value| ==> Clean(value[i]) == value[i]
  }

  /** Lists of writable texts are told apart by their rows. */
  lemma RowsDiffer(isNumber: string -> bool, a: seq<string>, b: seq<string>)
    requires a != [] && b != [] && WrittenRow(isNumber, a) == WrittenRow(isNumber, b)
    requires forall i :: 0 <= i < |a| ==> Writable(a[i])
    requires forall i :: 0 <= i < |b| ==> Writable(b[i])
    ensures a == b
  {
    RoundTrip(isNumber, a);
    RoundTrip(isNumber, b);
    CleanWritable(a);
    CleanWritable(b);
  }

  lemma CleanWritable(values: seq<string>)
    requires forall i :: 0 <= i < |values| ==> Writable(values[i])
    ensures CleanAll(values) == values
  {
    forall i | 0 <= i < |values| ensures CleanText(values[i]) == values[i] {
      assert Writable(values[i]);
    }
  }

  // ------------------------------------------------------------ lines

  predicate OnOneLine(s: string) {
    forall i :: 0 <= i < |s| ==> !IsLineBreak(s[i])
  }

  /** A line separator or a paragraph separator, which are no control characters. */
  predicate HasSeparator(s: string) {
    exists i :: 0 <= i < |s| && (s[i] == '\U{2028}' || s[i] == '\U{2029}')
  }

  lemma OneLineAppend(a: string, b: string)
    ensures OnOneLine(a + b) <==> OnOneLine(a) && OnOneLine(b)
  {
    var t := a + b;
    forall i | 0 <= i < |a| ensures t[i] == a[i] {}
    forall i | 0 <= i < |b| ensures t[|a| + i] == b[i] {}
  }

  lemma {:induction false} EscapedOneLine(value: string)
    ensures OnOneLine(Escaped(value)) <==> !HasSeparator(value)
  {
    if value != "" {
      EscapedOneLine(value[1..]);
      OneLineAppend(Escape(value[0]), Escaped(value[1..]));
      SeparatorFirst(value);
    }
  }

  lemma SeparatorFirst(value: string)
    requires value != ""
    ensures HasSeparator(value) <==> !OnOneLine(Escape(value[0])) || HasSeparator(value[1..])
  {
    var e, rest := Escape(value[0]), value[1..];
    forall i | 0 <= i < |rest| ensures rest[i] == value[i + 1] {}
    if value[0] == '\U{2028}' || value[0] == '\U{2029}' { assert IsLineBreak(e[0]); }
    if HasSeparator(rest) {
      var i :| 0 <= i < |rest| && (rest[i] == '\U{2028}' || rest[i] == '\U{2029}');
      assert value[i + 1] == rest[i];
    }
  }

  lemma CellOneLine(isNumber: string -> bool, value: string)
    ensures OnOneLine(Quoted(isNumber, value)) <==> !HasSeparator(value)
  {
    if NeedsQuotes(isNumber, value) {
      EscapedOneLine(value);
      OneLineAppend("\"" + Escaped(value), "\"");
      OneLineAppend("\"", Escaped(value));
    } else {
      forall i | 0 <= i < |value| ensures !Special(value[i]) {}
    }
  }

  /** The reader cuts its input into lines before it splits rows: a written row stays on one line
      exactly when no text in it has a line or paragraph separator. */
  lemma {:induction false} RowOneLine(isNumber: string -> bool, values: seq<string>)
    requires values != []
    ensures OnOneLine(WrittenRow(isNumber, values)) <==> forall i :: 0 <= i < |values| ==> !HasSeparator(values[i])
  {
    hide Quoted, WrittenRow, HasSeparator, OnOneLine;
    WrittenFirst(isNumber, values);
    CellOneLine(isNumber, values[0]);
    if |values| == 1 {
      assert Quoted(isNumber, values[0]) + "" == Quoted(isNumber, values[0]);
    } else {
      var more := WrittenRow(isNumber, values[1..]);
      RowOneLine(isNumber, values[1..]);
      OneLineAppend(Quoted(isNumber, values[0]), "," + more);
      OneLineAppend(",", more);
      CommaOneLine();
      assert forall i :: 0 < i < |values| ==> values[i] == values[1..][i - 1];
    }
  }

  lemma CommaOneLine()
    ensures OnOneLine(",")
  {
  }
}
