/** White space and trimming, as the host languages define them. */
module Text {

  /** White space, as Unicode has it. */
  predicate IsWhite(c: char) {
    || '\U{9}' <= c <= '\U{D}' || c == ' ' || c == '\U{85}' || c == '\U{A0}' || c == '\U{1680}'
    || '\U{2000}' <= c <= '\U{200A}' || c == '\U{2028}' || c == '\U{2029}'
    || c == '\U{202F}' || c == '\U{205F}' || c == '\U{3000}'
  }

  function TrimStart(white: char -> bool, s: string): string {
    if s != [] && white(s[0]) then TrimStart(white, s[1..]) else s
  }

  function TrimEnd(white: char -> bool, s: string): string {
    if s != [] && white(s[|s| - 1]) then TrimEnd(white, s[..|s| - 1]) else s
  }

  function Trim(white: char -> bool, s: string): string { TrimEnd(white, TrimStart(white, s)) }

  lemma {:induction false} TrimShorter(white: char -> bool, s: string)
    ensures |TrimEnd(white, s)| <= |s| && (|TrimEnd(white, s)| == |s| <==> TrimEnd(white, s) == s)
    ensures |TrimStart(white, s)| <= |s| && (|TrimStart(white, s)| == |s| <==> TrimStart(white, s) == s)
    ensures TrimEnd(white, s) == s <==> s == [] || !white(s[|s| - 1])
    ensures TrimStart(white, s) == s <==> s == [] || !white(s[0])
  {
    if s != [] {
      TrimShorter(white, s[..|s| - 1]);
      TrimShorter(white, s[1..]);
    }
  }

  /** Trimming leaves alone exactly what neither begins nor ends with white space. */
  lemma TrimUnchanged(white: char -> bool, s: string)
    ensures Trim(white, s) == s <==> s == [] || (!white(s[0]) && !white(s[|s| - 1]))
  {
    TrimShorter(white, s);
    TrimShorter(white, TrimStart(white, s));
  }

  /** Trimming takes away white space on either side, and nothing else. */
  lemma {:induction false} TrimPadded(white: char -> bool, left: string, s: string, right: string)
    requires forall i :: 0 <= i < |left| ==> white(left[i])
    requires forall i :: 0 <= i < |right| ==> white(right[i])
    requires s != "" && !white(s[0]) && !white(s[|s| - 1])
    ensures Trim(white, left + s + right) == s
    decreases |left| + |right|
  {
    var t := left + s + right;
    if left != "" {
      TrimPadded(white, left[1..], s, right);
      assert t[1..] == left[1..] + s + right;
      assert t[0] == left[0];
    } else {
      assert t[0] == s[0];
      assert TrimStart(white, t) == t;
      if right == "" {
        assert t == s;
      } else {
        TrimPadded(white, left, s, right[..|right| - 1]);
        assert t[..|t| - 1] == left + s + right[..|right| - 1];
        assert (left + s + right[..|right| - 1])[0] == s[0];
      }
    }
  }

  /** What trimming leaves stands in the text with white space only around it. */
  lemma TrimSplits(white: char -> bool, s: string) returns (left: string, right: string)
    ensures s == left + Trim(white, s) + right
    ensures (forall i :: 0 <= i < |left| ==> white(left[i])) && forall i :: 0 <= i < |right| ==> white(right[i])
  {
    left := StartSplits(white, s);
    right := EndSplits(white, TrimStart(white, s));
    assert s == left + (Trim(white, s) + right);
  }

  lemma {:induction false} StartSplits(white: char -> bool, s: string) returns (left: string)
    ensures s == left + TrimStart(white, s) && forall i :: 0 <= i < |left| ==> white(left[i])
  {
    left := "";
    if s != "" && white(s[0]) {
      left := StartSplits(white, s[1..]);
      left := [s[0]] + left;
    }
  }

  lemma {:induction false} EndSplits(white: char -> bool, s: string) returns (right: string)
    ensures s == TrimEnd(white, s) + right && forall i :: 0 <= i < |right| ==> white(right[i])
  {
    right := "";
    if s != "" && white(s[|s| - 1]) {
      right := EndSplits(white, s[..|s| - 1]);
      assert s == s[..|s| - 1] + [s[|s| - 1]];
      right := right + [s[|s| - 1]];
    }
  }

  lemma {:induction false} TrimWhite(white: char -> bool, s: string)
    requires forall i :: 0 <= i < |s| ==> white(s[i])
    ensures Trim(white, s) == ""
  {
    if s != "" { TrimWhite(white, s[1..]); }
  }
}
