/** Relative paths as the index stores them: components joined by `/`, compared in byte order. */
module Paths {
  import opened Ordering
  import opened Wrappers

  // ------------------------------------------------------------ below a directory

  /** `p` lies under `dir` as a directory. */
  predicate Under(p: string, dir: string) {
    dir + "/" <= p
  }

  predicate AtOrUnder(p: string, dir: string) {
    p == dir || Under(p, dir)
  }

  /** Whether one of `retained` keeps `p`; the empty path is the project root and keeps everything. */
  predicate IsRetained(p: string, retained: seq<string>) {
    exists i :: 0 <= i < |retained| && (retained[i] == "" || AtOrUnder(p, retained[i]))
  }

  /** The condition of the range query: `p` is `dir`, or `dir/` <= p < `dir0` in byte order. */
  predicate InRange(p: string, dir: string) {
    p == dir || (!StrLess(p, dir + "/") && StrLess(p, dir + "0"))
  }

  lemma RangeBelowRoot(p: string)
    ensures (!StrLess(p, "/") && StrLess(p, "0")) <==> "/" <= p
  {
    if p != [] {
      assert StrLess(p, "/") <==> p[0] < '/' by {
        assert "/"[1..] == "" && !Lex(CharLess, p[1..], "");
      }
      assert StrLess(p, "0") <==> p[0] < '0' by {
        assert "0"[1..] == "" && !Lex(CharLess, p[1..], "");
      }
    }
  }

  lemma {:induction false} RangeSelects(p: string, dir: string)
    ensures (!StrLess(p, dir + "/") && StrLess(p, dir + "0")) <==> Under(p, dir)
  {
    if dir == [] {
      assert dir + "/" == "/" && dir + "0" == "0";
      RangeBelowRoot(p);
    } else if p != [] {
      assert (dir + "/")[1..] == dir[1..] + "/" && (dir + "0")[1..] == dir[1..] + "0";
      RangeSelects(p[1..], dir[1..]);
      if p[0] == dir[0] {
        assert Under(p[1..], dir[1..]) <==> Under(p, dir) by {
          assert p == [p[0]] + p[1..];
          assert dir + "/" == [dir[0]] + (dir[1..] + "/");
        }
      }
    }
  }

  /** The range query selects exactly the path and what lies under it. */
  lemma InRangeExact(p: string, dir: string)
    ensures InRange(p, dir) <==> AtOrUnder(p, dir)
  {
    RangeSelects(p, dir);
  }

  // ------------------------------------------------------------ components

  function Join(parts: seq<string>): string {
    if parts == [] then ""
    else if |parts| == 1 then parts[0]
    else parts[0] + "/" + Join(parts[1..])
  }

  /** The components of a path; never empty. */
  function Split(p: string): (parts: seq<string>)
    ensures |parts| >= 1
  {
    if p == "" then [""]
    else
      var rest := Split(p[1..]);
      if p[0] == '/' then [""] + rest else [[p[0]] + rest[0]] + rest[1..]
  }

  ghost predicate IsPart(s: string) {
    '/' !in s
  }

  lemma {:induction false} SplitParts(p: string)
    ensures forall i :: 0 <= i < |Split(p)| ==> IsPart(Split(p)[i])
    ensures Join(Split(p)) == p
  {
    if p != "" {
      SplitParts(p[1..]);
      var rest := Split(p[1..]);
      assert p == [p[0]] + p[1..];
      if p[0] == '/' {
        assert ([""] + rest)[1..] == rest;
      } else {
        var parts := [[p[0]] + rest[0]] + rest[1..];
        assert parts[1..] == rest[1..];
        if |rest| > 1 {
          assert Join(parts) == [p[0]] + (rest[0] + "/" + Join(rest[1..]));
        }
      }
    }
  }

  lemma {:induction false} SplitPart(s: string)
    requires IsPart(s)
    ensures Split(s) == [s]
  {
    if s != "" {
      SplitPart(s[1..]);
      assert s == [s[0]] + s[1..];
    }
  }

  lemma {:induction false} SplitCons(s: string, p: string)
    requires IsPart(s)
    ensures Split(s + "/" + p) == [s] + Split(p)
  {
    if s == "" {
      assert s + "/" + p == "/" + p;
      assert ("/" + p)[1..] == p;
    } else {
      SplitCons(s[1..], p);
      assert (s + "/" + p)[1..] == s[1..] + "/" + p;
      assert s == [s[0]] + s[1..];
      assert ([s[1..]] + Split(p))[1..] == Split(p);
    }
  }

  lemma {:induction false} SplitJoin(parts: seq<string>)
    requires |parts| >= 1 && forall i :: 0 <= i < |parts| ==> IsPart(parts[i])
    ensures Split(Join(parts)) == parts
  {
    if |parts| == 1 {
      SplitPart(parts[0]);
    } else {
      SplitJoin(parts[1..]);
      SplitCons(parts[0], Join(parts[1..]));
      assert parts == [parts[0]] + parts[1..];
    }
  }

  lemma {:induction false} JoinConcat(a: seq<string>, b: seq<string>)
    requires a != [] && b != []
    ensures Join(a + b) == Join(a) + "/" + Join(b)
  {
    if |a| == 1 {
      assert (a + b)[1..] == b;
    } else {
      JoinConcat(a[1..], b);
      assert (a + b)[1..] == a[1..] + b;
      assert (a[0] + "/" + Join(a[1..])) + "/" + Join(b) == a[0] + "/" + (Join(a[1..]) + "/" + Join(b));
    }
  }

  // ------------------------------------------------------------ the old end of a directory rename

  /** How many trailing components `a` and `b` share. */
  function SharedSuffix(a: seq<string>, b: seq<string>): (n: nat)
    ensures n <= |a| && n <= |b|
  {
    if a == [] || b == [] || a[|a| - 1] != b[|b| - 1] then 0
    else 1 + SharedSuffix(a[..|a| - 1], b[..|b| - 1])
  }

  function SumLengths(parts: seq<string>): nat {
    if parts == [] then 0 else |parts[0]| + SumLengths(parts[1..])
  }

  /** The directory a rename moved `old` out of, when `old` and `new` end alike. */
  function RenamedDirectory(old_: string, new_: string): Option<string> {
    var parts := Split(old_);
    var shared := SharedSuffix(parts, Split(new_));
    if shared == 0 || shared >= |parts| then None
    else
      var dir := parts[..|parts| - shared];
      var len := SumLengths(dir) + |dir| - 1;
      if len <= |old_| then Some(old_[..len]) else None
  }

  lemma {:induction false} JoinLength(parts: seq<string>)
    requires parts != []
    ensures |Join(parts)| == SumLengths(parts) + |parts| - 1
  {
    if |parts| > 1 { JoinLength(parts[1..]); }
  }

  /** Two paths that differ just before the common ending `z` share exactly `z`. */
  lemma {:induction false} SharedSuffixIs(x: seq<string>, y: seq<string>, z: seq<string>)
    requires x == [] || y == [] || x[|x| - 1] != y[|y| - 1]
    ensures SharedSuffix(x + z, y + z) == |z|
  {
    if z == [] {
      assert x + z == x && y + z == y;
    } else {
      var z' := z[..|z| - 1];
      assert (x + z)[..|x + z| - 1] == x + z' && (y + z)[..|y + z| - 1] == y + z';
      SharedSuffixIs(x, y, z');
    }
  }

  /** When the last name of directory `d` changed to that of `e`, `RenamedDirectory` finds `d`. */
  lemma RenamedDirectoryFound(d: seq<string>, e: seq<string>, rest: seq<string>)
    requires d != [] && rest != [] && (e == [] || d[|d| - 1] != e[|e| - 1])
    requires forall i :: 0 <= i < |d| ==> IsPart(d[i])
    requires forall i :: 0 <= i < |e| ==> IsPart(e[i])
    requires forall i :: 0 <= i < |rest| ==> IsPart(rest[i])
    ensures RenamedDirectory(Join(d + rest), Join(e + rest)) == Some(Join(d))
  {
    hide Split, Join, SharedSuffix, SumLengths;
    SplitJoin(d + rest);
    SplitJoin(e + rest);
    SharedSuffixIs(d, e, rest);
    JoinConcat(d, rest);
    JoinLength(d);
    var dir := (d + rest)[..|d + rest| - |rest|];
    assert dir == d;
    assert Join(d + rest)[..|Join(d)|] == Join(d);
  }

  /** What `RenamedDirectory` answers is a directory above `old_`. */
  lemma RenamedDirectoryAbove(old_: string, new_: string)
    ensures RenamedDirectory(old_, new_).Some? ==> Under(old_, RenamedDirectory(old_, new_).value)
  {
    var parts := Split(old_);
    var shared := SharedSuffix(parts, Split(new_));
    if 0 < shared < |parts| {
      var dir := parts[..|parts| - shared];
      SplitParts(old_);
      JoinConcat(dir, parts[|parts| - shared..]);
      assert parts == dir + parts[|parts| - shared..];
      JoinLength(dir);
    }
  }
}
