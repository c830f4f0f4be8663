/** Orders and sorting shared by the modules below: the lexicographic order that Rust's
    `Ord` gives strings and vectors, and a stable sort by a comparison function. */
module Ordering {

  ghost predicate Transitive<T(!new)>(lt: (T, T) -> bool) {
    forall x, y, z :: lt(x, y) && lt(y, z) ==> lt(x, z)
  }

  /** A strict total order. */
  ghost predicate StrictTotal<T(!new)>(lt: (T, T) -> bool) {
    && (forall x :: !lt(x, x))
    && Transitive(lt)
    && (forall x, y :: lt(x, y) || lt(y, x) || x == y)
  }

  /** A strict weak order: what a comparator over part of a value gives. */
  ghost predicate StrictWeak<T(!new)>(lt: (T, T) -> bool) {
    && (forall x :: !lt(x, x))
    && Transitive(lt)
    && (forall x, y, z :: !lt(x, y) && !lt(y, z) ==> !lt(x, z))
  }

  ghost predicate Sorted<T>(lt: (T, T) -> bool, s: seq<T>) {
    forall i, j :: 0 <= i < j < |s| ==> !lt(s[j], s[i])
  }

  ghost predicate StrictlySorted<T>(lt: (T, T) -> bool, s: seq<T>) {
    forall i, j :: 0 <= i < j < |s| ==> lt(s[i], s[j])
  }

  // ------------------------------------------------------------ lexicographic order

  predicate Lex<T(==)>(lt: (T, T) -> bool, a: seq<T>, b: seq<T>) {
    if b == [] then false
    else if a == [] then true
    else lt(a[0], b[0]) || (a[0] == b[0] && Lex(lt, a[1..], b[1..]))
  }

  predicate CharLess(a: char, b: char) { a < b }

  /** Byte order of UTF-8 strings, which is the order of their code points. */
  predicate StrLess(a: string, b: string) { Lex(CharLess, a, b) }

  /** Order of vectors of strings. */
  predicate ListLess(a: seq<string>, b: seq<string>) { Lex(StrLess, a, b) }

  lemma {:induction false} LexIrreflexive<T(!new)>(lt: (T, T) -> bool, a: seq<T>)
    requires StrictTotal(lt)
    ensures !Lex(lt, a, a)
  {
    if a != [] { LexIrreflexive(lt, a[1..]); }
  }

  lemma {:induction false} LexTransitive<T(!new)>(lt: (T, T) -> bool, a: seq<T>, b: seq<T>, c: seq<T>)
    requires StrictTotal(lt)
    requires Lex(lt, a, b) && Lex(lt, b, c)
    ensures Lex(lt, a, c)
  {
    if a != [] && !lt(a[0], b[0]) && !lt(b[0], c[0]) {
      LexTransitive(lt, a[1..], b[1..], c[1..]);
    }
  }

  lemma {:induction false} LexTrichotomy<T(!new)>(lt: (T, T) -> bool, a: seq<T>, b: seq<T>)
    requires StrictTotal(lt)
    ensures Lex(lt, a, b) || Lex(lt, b, a) || a == b
  {
    if a != [] && b != [] && a[0] == b[0] {
      LexTrichotomy(lt, a[1..], b[1..]);
      assert a == [a[0]] + a[1..] && b == [b[0]] + b[1..];
    }
  }

  lemma StrLessTotal()
    ensures StrictTotal(StrLess)
  {
    assert StrictTotal(CharLess);
    forall a { LexIrreflexive(CharLess, a); }
    forall a, b, c | StrLess(a, b) && StrLess(b, c) ensures StrLess(a, c) { LexTransitive(CharLess, a, b, c); }
    forall a, b ensures StrLess(a, b) || StrLess(b, a) || a == b { LexTrichotomy(CharLess, a, b); }
  }

  lemma ListLessTotal()
    ensures StrictTotal(ListLess)
  {
    StrLessTotal();
    forall a { LexIrreflexive(StrLess, a); }
    forall a, b, c | ListLess(a, b) && ListLess(b, c) ensures ListLess(a, c) { LexTransitive(StrLess, a, b, c); }
    forall a, b ensures ListLess(a, b) || ListLess(b, a) || a == b { LexTrichotomy(StrLess, a, b); }
  }

  // ------------------------------------------------------------ stable sort

  /** `x` before the first element that is not below it. */
  function Insert<T>(lt: (T, T) -> bool, x: T, s: seq<T>): (r: seq<T>)
    ensures multiset(r) == multiset([x]) + multiset(s)
    ensures |r| == |s| + 1
  {
    if s == [] || !lt(s[0], x) then [x] + s
    else
      assert s == [s[0]] + s[1..];
      [s[0]] + Insert(lt, x, s[1..])
  }

  function StableSort<T>(lt: (T, T) -> bool, s: seq<T>): (r: seq<T>)
    ensures multiset(r) == multiset(s)
    ensures |r| == |s|
  {
    if s == [] then [] else
      assert s == [s[0]] + s[1..];
      Insert(lt, s[0], StableSort(lt, s[1..]))
  }

  lemma {:induction false} InsertKeepsSorted<T(!new)>(lt: (T, T) -> bool, x: T, s: seq<T>)
    requires StrictWeak(lt) && Sorted(lt, s)
    ensures Sorted(lt, Insert(lt, x, s))
  {
    var r := Insert(lt, x, s);
    if s == [] {
    } else if !lt(s[0], x) {
      forall j | 0 < j < |r| ensures !lt(r[j], x) {
        assert j == 1 || !lt(s[j - 1], s[0]);
      }
    } else {
      InsertKeepsSorted(lt, x, s[1..]);
      var t := Insert(lt, x, s[1..]);
      forall j | 0 < j < |r| ensures !lt(r[j], r[0]) {
        assert t[j - 1] in multiset(t);
        assert t[j - 1] == x || t[j - 1] in s[1..];
      }
    }
  }

  lemma {:induction false} StableSortSorted<T(!new)>(lt: (T, T) -> bool, s: seq<T>)
    requires StrictWeak(lt)
    ensures Sorted(lt, StableSort(lt, s))
  {
    if s != [] {
      StableSortSorted(lt, s[1..]);
      InsertKeepsSorted(lt, s[0], StableSort(lt, s[1..]));
    }
  }

  lemma TotalIsWeak<T(!new)>(lt: (T, T) -> bool)
    requires StrictTotal(lt)
    ensures StrictWeak(lt)
  {
    forall x, y, z | !lt(x, y) && !lt(y, z) ensures !lt(x, z) {
      assert lt(y, x) || x == y;
    }
  }

  /** A sorted list without repetitions is strictly sorted. */
  lemma SortedDistinct<T(!new)>(lt: (T, T) -> bool, s: seq<T>)
    requires StrictTotal(lt) && Sorted(lt, s)
    requires forall i, j :: 0 <= i < j < |s| ==> s[i] != s[j]
    ensures StrictlySorted(lt, s)
  {
  }

  /** In a strictly sorted list position follows order. */
  lemma SortedPosition<T(!new)>(lt: (T, T) -> bool, s: seq<T>, i: nat, j: nat)
    requires StrictTotal(lt) && StrictlySorted(lt, s) && i < |s| && j < |s| && lt(s[i], s[j])
    ensures i < j
  {
  }

  /** Strictly sorted lists with the same elements are equal. */
  lemma {:induction false} StrictlySortedUnique<T(!new)>(lt: (T, T) -> bool, a: seq<T>, b: seq<T>)
    requires StrictTotal(lt) && StrictlySorted(lt, a) && StrictlySorted(lt, b)
    requires forall x :: x in a <==> x in b
    ensures a == b
  {
    if a == [] {
      assert forall i :: 0 <= i < |b| ==> b[i] in a;
    } else {
      assert a[0] in a;
      assert b != [];
      assert b[0] in b;
      var i :| 0 <= i < |b| && b[i] == a[0];
      var j :| 0 <= j < |a| && a[j] == b[0];
      assert a[0] == b[0];
      assert a == [a[0]] + a[1..] && b == [b[0]] + b[1..];
      forall x ensures x in a[1..] <==> x in b[1..] {
        if x in a[1..] { assert x in a && x != a[0]; }
        if x in b[1..] { assert x in b && x != b[0]; }
      }
      StrictlySortedUnique(lt, a[1..], b[1..]);
    }
  }

  /** The sorted listing of a finite set. */
  lemma {:induction false} SetToSorted<T(!new)>(lt: (T, T) -> bool, s: set<T>) returns (r: seq<T>)
    requires StrictTotal(lt)
    ensures StrictlySorted(lt, r)
    ensures forall x :: x in r <==> x in s
    decreases |s|
  {
    if s == {} {
      r := [];
    } else {
      var x :| x in s;
      var t := SetToSorted(lt, s - {x});
      r := Insert(lt, x, t);
      InsertStrict(lt, x, t);
      forall y ensures y in r <==> y in s {
        assert y in r <==> y in multiset(r);
        assert y in multiset(r) <==> y == x || y in multiset(t);
        assert y in multiset(t) <==> y in t;
      }
    }
  }

  lemma {:induction false} InsertStrict<T(!new)>(lt: (T, T) -> bool, x: T, s: seq<T>)
    requires StrictTotal(lt) && StrictlySorted(lt, s) && x !in s
    ensures StrictlySorted(lt, Insert(lt, x, s))
  {
    if s == [] {
    } else if !lt(s[0], x) {
      assert lt(x, s[0]);
    } else {
      InsertStrict(lt, x, s[1..]);
      var r, t := Insert(lt, x, s), Insert(lt, x, s[1..]);
      forall j | 0 < j < |r| ensures lt(r[0], r[j]) {
        assert t[j - 1] in multiset(t);
        assert t[j - 1] == x || t[j - 1] in s[1..];
      }
      forall i, j | 0 <= i < j < |r| ensures lt(r[i], r[j]) {
        if i > 0 { assert lt(t[i - 1], t[j - 1]); }
      }
    }
  }

  // ------------------------------------------------------------ distinct elements

  ghost predicate Distinct<T>(s: seq<T>) {
    forall i, j :: 0 <= i < j < |s| ==> s[i] != s[j]
  }

  lemma {:induction false} DistinctSize<T>(s: seq<T>, S: set<T>)
    requires Distinct(s) && forall x :: x in s <==> x in S
    ensures |s| == |S|
  {
    if s == [] {
      assert S == {};
    } else {
      var x := s[0];
      assert x in s;
      forall y ensures y in s[1..] <==> y in S - {x} {
        if y in s[1..] { assert y in s; }
        if y in S - {x} { assert y in s && y != s[0]; }
      }
      DistinctSize(s[1..], S - {x});
    }
  }

  lemma DistinctFromMultiset<T>(a: seq<T>, b: seq<T>)
    requires multiset(a) == multiset(b) && Distinct(a)
    ensures Distinct(b)
  {
    forall i, j | 0 <= i < j < |b| ensures b[i] != b[j] {
      if b[i] == b[j] {
        CountTwice(b, i, j);
        DistinctCount(a, b[i]);
      }
    }
  }

  lemma CountTwice<T>(b: seq<T>, i: nat, j: nat)
    requires i < j < |b| && b[i] == b[j]
    ensures multiset(b)[b[i]] >= 2
  {
    assert b == b[..j] + b[j..];
    assert b[..j][i] == b[i] && b[j..][0] == b[i];
    assert b[i] in multiset(b[..j]) && b[i] in multiset(b[j..]);
  }

  lemma {:induction false} DistinctCount<T>(a: seq<T>, x: T)
    requires Distinct(a)
    ensures multiset(a)[x] <= 1
  {
    if a != [] {
      assert a == [a[0]] + a[1..];
      DistinctCount(a[1..], x);
      if a[0] == x { assert x !in a[1..]; }
    }
  }

  lemma StrictSubsetSmaller<T>(a: set<T>, b: set<T>, v: T)
    requires a <= b && v in b && v !in a
    ensures |a| < |b|
  {
    SubsetSize(a, b - {v});
  }

  lemma {:induction false} SubsetSize<T>(a: set<T>, b: set<T>)
    requires a <= b
    ensures |a| <= |b|
  {
    if a != {} {
      var x :| x in a;
      SubsetSize(a - {x}, b - {x});
    }
  }

  /** Sorting a list without repetition lists the same elements strictly sorted. */
  lemma SortedPermutation<T(!new)>(lt: (T, T) -> bool, s: seq<T>)
    requires StrictTotal(lt) && Distinct(s)
    ensures StrictlySorted(lt, StableSort(lt, s)) && Distinct(StableSort(lt, s))
    ensures forall x :: x in StableSort(lt, s) <==> x in s
  {
    hide StrictTotal, StrictWeak, Sorted, StrictlySorted;
    TotalIsWeak(lt);
    StableSortSorted(lt, s);
    var t := StableSort(lt, s);
    forall x ensures x in t <==> x in s {
      assert x in t <==> x in multiset(t);
      assert x in s <==> x in multiset(s);
    }
    DistinctFromMultiset(s, t);
    SortedDistinct(lt, t);
  }
}
