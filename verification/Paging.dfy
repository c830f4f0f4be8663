/** Pages over a bounded walk (`lib.rs`): the same page an unbounded walk would give. */
module Paging {
  import opened Limits
  import opened Wrappers
  import opened Traversal

  datatype RelationPage = RelationPage(hits: seq<Hit>, total: Option<nat>, hasMore: bool, offset: nat)

  /** The page `[offset, offset + limit)` of `all`; the total may be left open only while there is
      more. */
  predicate IsPage(all: seq<Hit>, limit: nat, offset: nat, page: RelationPage) {
    && page.hits == Slice(all, offset, limit) && page.offset == offset
    && (page.hasMore <==> |all| > offset + limit)
    && (page.total.Some? ==> page.total.value == |all|)
    && (page.total.None? ==> page.hasMore)
  }

  lemma SliceOfPrefix(a: seq<Hit>, all: seq<Hit>, limit: nat, offset: nat)
    requires a <= all && (a == all || |a| >= offset + limit)
    ensures Slice(a, offset, limit) == Slice(all, offset, limit)
  {
  }

  /** A page of a multi-hop walk, read with one hit more than it shows. */
  method RelationPageOf(r: Relations, depth: nat, limit: nat, offset: nat) returns (page: RelationPage)
    requires depth > 1 && |FullWalk(r, depth)| <= USIZE_MAX
    ensures IsPage(FullWalk(r, depth), limit, offset, page)
    ensures page.total.Some? <==> !page.hasMore
  {
    hide FullWalk;
    var budget := AddUsize(offset, limit);
    var sentinel := AddUsize(budget, 1);
    var hits := FindBfs(r, depth, sentinel);
    SliceOfPrefix(hits, FullWalk(r, depth), limit, offset);
    var hasMore := |hits| > budget;
    page := RelationPage(Slice(hits, offset, limit), if hasMore then None else Some(|hits|), hasMore, offset);
  }

  // ------------------------------------------------------------ tests affected by a symbol

  /** Which hits come from tests, and which symbols are modules. */
  datatype Names = Names(isTest: (string, string) -> bool, isModule: int -> bool)

  function LooksLikeTest(names: Names, h: Hit): bool { names.isTest(h.fromName, h.path) }

  predicate From(id: int, s: seq<Hit>) {
    exists i :: 0 <= i < |s| && s[i].fromId == id
  }

  /** `h` adds a test to those found: one that is no module and has no hit among them. */
  predicate AddsTest(names: Names, found: seq<Hit>, h: Hit) {
    LooksLikeTest(names, h) && !names.isModule(h.fromId) && !From(h.fromId, found)
  }

  /** The hits from tests, each test once, at its first hit, and without modules. */
  function Tests(names: Names, s: seq<Hit>): seq<Hit> {
    if s == [] then []
    else
      var h, found := s[|s| - 1], Tests(names, s[..|s| - 1]);
      if AddsTest(names, found, h) then found + [h] else found
  }

  /** More of a walk only adds tests after those already found. */
  lemma {:induction false} TestsPrefix(names: Names, s: seq<Hit>, n: nat)
    requires n <= |s|
    ensures Tests(names, s[..n]) <= Tests(names, s)
    decreases |s|
  {
    if n == |s| {
      assert s[..n] == s;
    } else {
      TestsPrefix(names, s[..|s| - 1], n);
      assert s[..|s| - 1][..n] == s[..n];
    }
  }

  /** Every listed hit comes from a test, and no test is listed twice. */
  lemma {:induction false} TestsDistinct(names: Names, s: seq<Hit>)
    ensures var t := Tests(names, s);
      && |t| <= |s|
      && (forall i :: 0 <= i < |t| ==> names.isTest(t[i].fromName, t[i].path) && !names.isModule(t[i].fromId))
      && (forall i, j :: 0 <= i < j < |t| ==> t[i].fromId != t[j].fromId)
  {
    if s != [] { TestsDistinct(names, s[..|s| - 1]); }
  }

  /** Every test with a hit is listed. */
  lemma {:induction false} TestsComplete(names: Names, s: seq<Hit>, k: nat)
    requires k < |s| && names.isTest(s[k].fromName, s[k].path) && !names.isModule(s[k].fromId)
    ensures From(s[k].fromId, Tests(names, s))
    decreases |s|
  {
    hide From;
    var h, before := s[|s| - 1], s[..|s| - 1];
    var t0 := Tests(names, before);
    if k < |before| { TestsComplete(names, before, k); }
    FromGrows(s[k].fromId, t0, h);
  }

  lemma FromGrows(id: int, t: seq<Hit>, h: Hit)
    ensures From(id, t + [h]) <==> From(id, t) || h.fromId == id
  {
    assert (t + [h])[|t|] == h;
    if i :| 0 <= i < |t| && t[i].fromId == id { assert (t + [h])[i] == t[i]; }
  }

  lemma NobodyFrom(id: int)
    ensures !From(id, [])
  {
  }

  /** `h` is in the walk, and no test hit before it comes from the same test. */
  ghost predicate FirstTestHit(names: Names, s: seq<Hit>, h: Hit) {
    exists k :: IsFirstAt(names, s, h, k)
  }

  ghost predicate IsFirstAt(names: Names, s: seq<Hit>, h: Hit, k: nat) {
    k < |s| && s[k] == h && forall j :: 0 <= j < k && names.isTest(s[j].fromName, s[j].path) ==> s[j].fromId != h.fromId
  }

  /** Each test is listed at the first of its hits. */
  lemma {:induction false} TestsFirst(names: Names, s: seq<Hit>, i: nat)
    requires i < |Tests(names, s)|
    ensures FirstTestHit(names, s, Tests(names, s)[i])
    decreases |s|
  {
    var before := s[..|s| - 1];
    var t := Tests(names, s)[i];
    if i < |Tests(names, before)| {
      TestsFirst(names, before, i);
      var k: nat :| IsFirstAt(names, before, t, k);
      assert IsFirstAt(names, s, t, k);
    } else {
      forall j | 0 <= j < |s| - 1 && names.isTest(s[j].fromName, s[j].path) ensures s[j].fromId != t.fromId {
        if s[j].fromId == t.fromId { TestsComplete(names, before, j); }
      }
      assert IsFirstAt(names, s, t, |s| - 1);
    }
  }

  /** The hit at `k` is the first from a test that is no module. */
  predicate StartsTest(names: Names, s: seq<Hit>, k: nat)
    requires k < |s|
  {
    && names.isTest(s[k].fromName, s[k].path) && !names.isModule(s[k].fromId)
    && forall j :: 0 <= j < k && names.isTest(s[j].fromName, s[j].path) ==> s[j].fromId != s[k].fromId
  }

  /** The tests are exactly those hits, in the order of the walk: `at` says where they stand. */
  lemma {:induction false} TestsAre(names: Names, s: seq<Hit>) returns (at: seq<nat>)
    ensures |at| == |Tests(names, s)|
    ensures forall i, j :: 0 <= i < j < |at| ==> at[i] < at[j]
    ensures forall i :: 0 <= i < |at| ==> at[i] < |s| && Tests(names, s)[i] == s[at[i]]
    ensures forall k: nat :: k < |s| ==> (k in at <==> StartsTest(names, s, k))
  {
    at := [];
    if s != [] {
      var n := |s| - 1;
      var found := Tests(names, s[..n]);
      at := TestsAre(names, s[..n]);
      forall k: nat | k < n ensures StartsTest(names, s, k) <==> StartsTest(names, s[..n], k) {
        assert forall j :: 0 <= j <= k ==> s[..n][j] == s[j];
      }
      FoundStarts(names, s, found, at);
      if AddsTest(names, found, s[n]) { at := at + [n]; }
    }
  }

  /** A hit adds a test exactly when no test hit before it has its name. */
  lemma FoundStarts(names: Names, s: seq<Hit>, found: seq<Hit>, at: seq<nat>)
    requires s != [] && found == Tests(names, s[..|s| - 1])
    ensures AddsTest(names, found, s[|s| - 1]) <==> StartsTest(names, s, |s| - 1)
  {
    var n := |s| - 1;
    var before := s[..n];
    if !names.isModule(s[n].fromId) {
      forall j | 0 <= j < n && names.isTest(s[j].fromName, s[j].path) && s[j].fromId == s[n].fromId
        ensures From(s[n].fromId, found)
      {
        TestsComplete(names, before, j);
      }
    }
    if From(s[n].fromId, found) {
      var i :| 0 <= i < |found| && found[i].fromId == s[n].fromId;
      TestsFirst(names, before, i);
      TestsDistinct(names, before);
      var k: nat :| IsFirstAt(names, before, found[i], k);
      assert s[k] == before[k];
    }
  }

  // ------------------------------------------------------------ the three passes over one walk

  /** Hits from tests, first of each symbol. */
  function FirstTests(names: Names, s: seq<Hit>): seq<Hit> {
    if s == [] then []
    else
      var h, found := s[|s| - 1], FirstTests(names, s[..|s| - 1]);
      if LooksLikeTest(names, h) && !From(h.fromId, found) then found + [h] else found
  }

  method FilterTests(names: Names, refs: seq<Hit>) returns (tests: seq<Hit>)
    ensures tests == FirstTests(names, refs)
  {
    tests := [];
    var seen: set<int> := {};
    for i := 0 to |refs|
      invariant tests == FirstTests(names, refs[..i])
      invariant forall id :: id in seen <==> From(id, tests)
    {
      hide From, LooksLikeTest;
      assert refs[..i + 1][..i] == refs[..i];
      FromEach(tests, refs[i]);
      if LooksLikeTest(names, refs[i]) && refs[i].fromId !in seen {
        seen := seen + {refs[i].fromId};
        tests := tests + [refs[i]];
      }
    }
    assert refs[..|refs|] == refs;
  }

  lemma FromEach(t: seq<Hit>, h: Hit)
    ensures forall id :: From(id, t + [h]) <==> From(id, t) || h.fromId == id
  {
    hide From;
    forall id ensures From(id, t + [h]) <==> From(id, t) || h.fromId == id { FromGrows(id, t, h); }
  }

  /** The identities of the listed hits that are modules. */
  method ModuleIds(names: Names, tests: seq<Hit>) returns (modules: set<int>)
    ensures forall id :: id in modules <==> From(id, tests) && names.isModule(id)
  {
    modules := {};
    for i := 0 to |tests|
      invariant forall id :: id in modules <==> From(id, tests[..i]) && names.isModule(id)
    {
      FromEach(tests[..i], tests[i]);
      assert tests[..i + 1] == tests[..i] + [tests[i]];
      if names.isModule(tests[i].fromId) { modules := modules + {tests[i].fromId}; }
    }
    assert tests[..|tests|] == tests;
  }

  function NotModule(names: Names): Hit -> bool { (h: Hit) => !names.isModule(h.fromId) }

  method Retain(names: Names, tests: seq<Hit>, modules: set<int>) returns (kept: seq<Hit>)
    requires forall id :: id in modules <==> From(id, tests) && names.isModule(id)
    ensures kept == Filter(NotModule(names), tests)
  {
    kept := [];
    for i := 0 to |tests|
      invariant kept == Filter(NotModule(names), tests[..i])
    {
      assert tests[..i + 1][..i] == tests[..i];
      assert From(tests[i].fromId, tests);
      if tests[i].fromId !in modules { kept := kept + [tests[i]]; }
    }
    assert tests[..|tests|] == tests;
  }

  lemma {:induction false} FilterFrom(names: Names, t: seq<Hit>, id: int)
    ensures From(id, Filter(NotModule(names), t)) <==> From(id, t) && !names.isModule(id)
  {
    hide From;
    if t == [] {
      NobodyFrom(id);
    } else {
      var before, h := t[..|t| - 1], t[|t| - 1];
      FilterFrom(names, before, id);
      FromGrows(id, before, h);
      FromGrows(id, Filter(NotModule(names), before), h);
      FilterSnoc(NotModule(names), before, h);
      assert before + [h] == t;
      assert Filter(NotModule(names), before) + [] == Filter(NotModule(names), before);
    }
  }

  /** Dropping modules after the first hits are chosen gives the same list. */
  lemma {:induction false} PassesAgree(names: Names, s: seq<Hit>)
    ensures Filter(NotModule(names), FirstTests(names, s)) == Tests(names, s)
  {
    hide From, LooksLikeTest;
    if s != [] {
      var h, found := s[|s| - 1], FirstTests(names, s[..|s| - 1]);
      PassesAgree(names, s[..|s| - 1]);
      FilterFrom(names, found, h.fromId);
      FilterSnoc(NotModule(names), found, h);
    }
  }

  lemma FilterSnoc(keep: Hit -> bool, t: seq<Hit>, h: Hit)
    ensures Filter(keep, t + [h]) == Filter(keep, t) + (if keep(h) then [h] else [])
  {
    assert (t + [h])[..|t + [h]| - 1] == t;
  }

  /** A page of the tests affected by a symbol: the walk is read with a budget that doubles until it
      holds enough tests or ends. `fetched` counts the hits read over all rounds. */
  method AffectedTestPage(r: Relations, names: Names, depth: nat, limit: nat, offset: nat)
    returns (page: RelationPage, ghost fetched: nat)
    requires |FullWalk(r, depth)| <= USIZE_MAX
    ensures IsPage(Tests(names, FullWalk(r, depth)), limit, offset, page)
    ensures fetched <= 3 * |FullWalk(r, depth)|
  {
    hide FullWalk, Tests, FirstTests, Filter, IsPage;
    ghost var full := FullWalk(r, depth);
    var needed := AddUsize(AddUsize(offset, limit), 1);
    var budget := Max(needed, 64);
    fetched := 0;
    while true
      invariant needed <= budget <= USIZE_MAX && 64 <= budget
      invariant fetched <= 2 * |full| && (fetched < budget || budget == USIZE_MAX)
      decreases USIZE_MAX - budget
    {
      var refs := FindBfs(r, depth, budget);
      fetched := fetched + |refs|;
      var exhausted := |refs| < budget || budget == USIZE_MAX;
      var tests := FilterTests(names, refs);
      var modules := ModuleIds(names, tests);
      tests := Retain(names, tests, modules);
      PassesAgree(names, refs);
      if |tests| >= needed || exhausted {
        var hasMore := |tests| > AddUsize(offset, limit);
        page := RelationPage(Slice(tests, offset, limit), if exhausted then Some(|tests|) else None, hasMore, offset);
        PageOfPrefix(names, full, refs, tests, budget, limit, offset, page);
        return;
      }
      budget := MulUsize(budget, 2);
    }
  }

  /** Enough of the walk gives the page of the whole walk. */
  lemma PageOfPrefix(
    names: Names, full: seq<Hit>, refs: seq<Hit>, tests: seq<Hit>, budget: nat, limit: nat, offset: nat,
    page: RelationPage)
    requires |full| <= USIZE_MAX && refs == Prefix(full, budget) && tests == Tests(names, refs)
    requires AddUsize(AddUsize(offset, limit), 1) <= budget <= USIZE_MAX
    requires |tests| >= AddUsize(AddUsize(offset, limit), 1) || |refs| < budget || budget == USIZE_MAX
    requires page == RelationPage(Slice(tests, offset, limit),
      if |refs| < budget || budget == USIZE_MAX then Some(|tests|) else None, |tests| > AddUsize(offset, limit), offset)
    ensures IsPage(Tests(names, full), limit, offset, page)
  {
    hide Tests, Slice, Prefix;
    var all := Tests(names, full);
    PrefixIsPart(full, budget);
    TestsDistinct(names, full);
    TestsPrefix(names, full, |refs|);
    if tests != all {
      assert |tests| >= AddUsize(AddUsize(offset, limit), 1);
      assert offset + limit < USIZE_MAX;
    }
    SliceOfPrefix(tests, all, limit, offset);
  }

  lemma PrefixIsPart(s: seq<Hit>, n: nat)
    ensures Prefix(s, n) == s[..Min(n, |s|)]
    ensures n >= |s| ==> Prefix(s, n) == s
  {
  }
}
