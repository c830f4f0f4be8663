/** Budgeted retrieval (`context_budget.rs`): rank, drop covered candidates, cut a page, and
    lower or drop its rows until the response fits. */
module ContextBudget {
  import opened Limits
  import opened Ordering
  import opened Wrappers

  datatype DetailLevel = Overview | Summary | Detailed {
    function Rank(): nat {
      match this case Overview => 0 case Summary => 1 case Detailed => 2
    }

    function Lower(): (r: Option<DetailLevel>)
      ensures r.None? <==> Rank() == 0
      ensures r.Some? ==> r.value.Rank() + 1 == Rank()
    {
      match this case Overview => None case Summary => Some(Overview) case Detailed => Some(Summary)
    }
  }

  datatype Evidence = Definition | Fragment | Relation {
    function Rank(): nat {
      match this case Definition => 0 case Fragment => 1 case Relation => 2
    }
  }

  datatype Score = NaN | NegativeInfinity | PositiveInfinity | Number(value: real)

  datatype Candidate = Candidate(
    symbol: int, path: string, startLine: nat, endLine: nat, evidence: Evidence, role: string, score: Score)

  // ------------------------------------------------------------ ranking

  /** A cast to a 64-bit integer saturates. */
  function Saturate(x: int): int {
    if x < I64_MIN then I64_MIN else if x > I64_MAX then I64_MAX else x
  }

  /** Nearest integer, halves away from zero. */
  function Round(x: real): int {
    if x >= 0.0 then (x + 0.5).Floor else -((0.5 - x).Floor)
  }

  function Quantize(score: Score): int {
    match score
    case NaN => I64_MIN
    case NegativeInfinity => I64_MIN
    case PositiveInfinity => I64_MAX
    case Number(x) => Saturate(Round(x * 1000000.0))
  }

  /** Order of scores, unordered ones last. */
  predicate AtMost(a: Score, b: Score) {
    || a.NaN? || (a.NegativeInfinity? && !b.NaN?) || b.PositiveInfinity?
    || (a.Number? && b.Number? && a.value <= b.value)
  }

  /** Quantizing never reverses two scores, and keeps apart any two a millionth or more apart
      within range. */
  lemma QuantizeMonotone(a: Score, b: Score)
    ensures AtMost(a, b) ==> Quantize(a) <= Quantize(b)
    ensures I64_MIN <= Quantize(a) <= I64_MAX
    ensures a.Number? && b.Number? && b.value - a.value >= 0.000001 ==>
      Quantize(a) < Quantize(b) || Quantize(a) == I64_MAX || Quantize(b) == I64_MIN
  {
    if a.Number? && b.Number? {
      RoundMonotone(a.value * 1000000.0, b.value * 1000000.0);
    }
  }

  lemma RoundMonotone(x: real, y: real)
    ensures x <= y ==> Round(x) <= Round(y)
    ensures y - x >= 1.0 ==> Round(x) < Round(y)
  {
  }

  /** All that ranking and covering look at: everything but the raw score. */
  datatype Key = Key(
    score: int, evidence: Evidence, path: string, startLine: nat, endLine: nat, symbol: int, role: string)

  function KeyOf(c: Candidate): Key {
    Key(Quantize(c.score), c.evidence, c.path, c.startLine, c.endLine, c.symbol, c.role)
  }

  predicate KeyLess(a: Key, b: Key) {
    if a.score != b.score then a.score > b.score
    else if a.evidence != b.evidence then a.evidence.Rank() < b.evidence.Rank()
    else if a.path != b.path then StrLess(a.path, b.path)
    else if a.startLine != b.startLine then a.startLine < b.startLine
    else if a.endLine != b.endLine then a.endLine > b.endLine
    else if a.symbol != b.symbol then a.symbol < b.symbol
    else StrLess(a.role, b.role)
  }

  predicate CandidateLess(a: Candidate, b: Candidate) { KeyLess(KeyOf(a), KeyOf(b)) }

  predicate SpanCovers(a: Key, b: Key) {
    && a.path == b.path && a.role == b.role
    && if b.evidence.Fragment? then a.startLine <= b.startLine && b.endLine <= a.endLine
       else a.startLine == b.startLine && a.endLine == b.endLine
  }

  /** `b` adds nothing to `a`: the same, or a fragment within a fragment, of one symbol. */
  predicate Covers(a: Key, b: Key) {
    a.symbol == b.symbol && a.evidence == b.evidence && SpanCovers(a, b)
  }

  lemma KeyLessTotal()
    ensures StrictTotal(KeyLess)
  {
    hide StrLess;
    StrLessTotal();
  }

  lemma CandidateLessWeak()
    ensures StrictWeak(CandidateLess)
  {
    hide KeyLess, KeyOf;
    KeyLessTotal();
    TotalIsWeak(KeyLess);
    assert forall a, b, c :: !CandidateLess(a, b) && !CandidateLess(b, c) ==> !CandidateLess(a, c);
  }

  // ------------------------------------------------------------ what is kept

  function Keys(s: seq<Candidate>): seq<Key> {
    seq(|s|, i requires 0 <= i < |s| => KeyOf(s[i]))
  }

  ghost function KeySet(s: seq<Candidate>): set<Key> {
    set c | c in s :: KeyOf(c)
  }

  /** Ranked at or before `x`, some kept key covers it. */
  ghost predicate CoveredBy(kept: seq<Key>, x: Key) {
    exists y :: y in kept && Covers(y, x) && !KeyLess(x, y)
  }

  /** `kept` is what remains of `all`: ranked, nothing covered by something better, and
      everything covered. */
  ghost predicate IsKept(all: set<Key>, kept: seq<Key>) {
    && StrictlySorted(KeyLess, kept)
    && (forall x :: x in kept ==> x in all)
    && (forall i, j :: 0 <= i < j < |kept| ==> !Covers(kept[i], kept[j]))
    && (forall x :: x in all ==> CoveredBy(kept, x))
  }

  lemma {:induction false} KeptAgree(all: set<Key>, a: seq<Key>, b: seq<Key>, r: seq<Key>, n: nat)
    requires IsKept(all, a) && IsKept(all, b)
    requires StrictlySorted(KeyLess, r) && (forall x :: x in r <==> x in all) && n <= |r|
    ensures forall i :: 0 <= i < n ==> (r[i] in a <==> r[i] in b)
  {
    hide KeyLess, Covers, IsKept, StrictlySorted;
    if n > 0 {
      KeptAgree(all, a, b, r, n - 1);
      KeptNext(all, a, b, r, n - 1);
      KeptNext(all, b, a, r, n - 1);
    }
  }

  lemma KeptNext(all: set<Key>, a: seq<Key>, b: seq<Key>, r: seq<Key>, n: nat)
    requires IsKept(all, a) && IsKept(all, b)
    requires StrictlySorted(KeyLess, r) && (forall x :: x in r <==> x in all) && n < |r|
    requires forall i :: 0 <= i < n ==> (r[i] in a <==> r[i] in b)
    ensures r[n] in a ==> r[n] in b
  {
    hide KeyLess, Covers;
    KeyLessTotal();
    var x := r[n];
    assert x in r;
    if x in a {
      assert CoveredBy(b, x);
      var y :| y in b && Covers(y, x) && !KeyLess(x, y);
      if y != x {
        assert KeyLess(y, x);
        assert y in r;
        var i :| 0 <= i < |r| && r[i] == y;
        SortedPosition(KeyLess, r, i, n);
        assert y in a;
        NotCoveredEarlier(all, a, y, x);
      }
    }
  }

  lemma NotCoveredEarlier(all: set<Key>, a: seq<Key>, y: Key, x: Key)
    requires IsKept(all, a) && y in a && x in a && KeyLess(y, x)
    ensures !Covers(y, x)
  {
    hide KeyLess, Covers;
    KeyLessTotal();
    var i :| 0 <= i < |a| && a[i] == y;
    var j :| 0 <= j < |a| && a[j] == x;
    SortedPosition(KeyLess, a, i, j);
  }

  /** What is kept depends only on which keys there are: not on their order or repetition. */
  lemma KeptUnique(all: set<Key>, a: seq<Key>, b: seq<Key>)
    requires IsKept(all, a) && IsKept(all, b)
    ensures a == b
  {
    hide KeyLess, Covers;
    KeyLessTotal();
    var r := SetToSorted(KeyLess, all);
    KeptAgree(all, a, b, r, |r|);
    forall x ensures x in a <==> x in b {
      if x in a || x in b {
        assert x in r;
        var i :| 0 <= i < |r| && r[i] == x;
      }
    }
    StrictlySortedUnique(KeyLess, a, b);
  }

  lemma CoversItself(x: Key)
    ensures Covers(x, x)
  {
  }

  /** Handling the next key in rank order. */
  lemma KeepNext(all: set<Key>, kept: seq<Key>, x: Key, redundant: bool)
    requires IsKept(all, kept) && forall y :: y in all ==> !KeyLess(x, y)
    requires redundant <==> exists y :: y in kept && Covers(y, x)
    ensures IsKept(all + {x}, if redundant then kept else kept + [x])
  {
    hide KeyLess, Covers, CoveredBy;
    KeyLessTotal();
    var r := if redundant then kept else kept + [x];
    forall z | z in all + {x} ensures CoveredBy(r, z) {
      if z in all { StillCovered(kept, r, z); } else { CoveredItself(kept, x, redundant); }
    }
    CoversItself(x);
    if !redundant {
      forall y | y in kept ensures KeyLess(y, x) { assert y != x; }
    }
  }

  lemma StillCovered(kept: seq<Key>, r: seq<Key>, z: Key)
    requires CoveredBy(kept, z) && kept <= r
    ensures CoveredBy(r, z)
  {
    hide KeyLess, Covers;
    var y :| y in kept && Covers(y, z) && !KeyLess(z, y);
    assert y in r;
  }

  lemma CoveredItself(kept: seq<Key>, x: Key, redundant: bool)
    requires redundant ==> exists y :: y in kept && Covers(y, x) && !KeyLess(x, y)
    ensures CoveredBy(if redundant then kept else kept + [x], x)
  {
    hide KeyLess, Covers;
    KeyLessTotal();
    CoversItself(x);
    assert (kept + [x])[|kept|] == x;
  }

  function SlotOf(bySymbol: map<(int, Evidence), seq<nat>>, c: Candidate): seq<nat> {
    if (c.symbol, c.evidence) in bySymbol then bySymbol[(c.symbol, c.evidence)] else []
  }

  /** For each symbol and kind of evidence, where its kept candidates are. */
  ghost predicate Slots(bySymbol: map<(int, Evidence), seq<nat>>, kept: seq<Candidate>) {
    && (forall k, j: nat :: InSlot(bySymbol, k, j) ==> j < |kept| && (kept[j].symbol, kept[j].evidence) == k)
    && (forall j: nat :: j < |kept| ==> InSlot(bySymbol, (kept[j].symbol, kept[j].evidence), j))
  }

  ghost predicate InSlot(bySymbol: map<(int, Evidence), seq<nat>>, k: (int, Evidence), j: nat) {
    k in bySymbol && j in bySymbol[k]
  }

  method AnyCovers(kept: seq<Candidate>, slot: seq<nat>, c: Candidate) returns (redundant: bool)
    requires forall j :: j in slot ==> j < |kept|
    ensures redundant <==> exists j :: j in slot && SpanCovers(KeyOf(kept[j]), KeyOf(c))
  {
    hide SpanCovers, KeyOf;
    for i := 0 to |slot|
      invariant forall k :: 0 <= k < i ==> slot[k] in slot && !SpanCovers(KeyOf(kept[slot[k]]), KeyOf(c))
    {
      assert slot[i] in slot;
      if SpanCovers(KeyOf(kept[slot[i]]), KeyOf(c)) { return true; }
    }
    return false;
  }

  lemma SlotsCover(
    bySymbol: map<(int, Evidence), seq<nat>>, kept: seq<Candidate>, c: Candidate, slot: seq<nat>, redundant: bool)
    requires Slots(bySymbol, kept)
    requires slot == SlotOf(bySymbol, c)
    requires redundant <==> exists j :: j in slot && j < |kept| && SpanCovers(KeyOf(kept[j]), KeyOf(c))
    ensures redundant <==> exists y :: y in Keys(kept) && Covers(y, KeyOf(c))
  {
    hide SpanCovers;
    if redundant {
      var j :| j in slot && j < |kept| && SpanCovers(KeyOf(kept[j]), KeyOf(c));
      assert InSlot(bySymbol, (c.symbol, c.evidence), j);
      assert Keys(kept)[j] in Keys(kept) && Covers(Keys(kept)[j], KeyOf(c));
    }
    if y :| y in Keys(kept) && Covers(y, KeyOf(c)) {
      var j :| 0 <= j < |kept| && Keys(kept)[j] == y;
      assert InSlot(bySymbol, (kept[j].symbol, kept[j].evidence), j);
      assert j in slot && SpanCovers(KeyOf(kept[j]), KeyOf(c));
    }
  }

  lemma SlotsGrow(bySymbol: map<(int, Evidence), seq<nat>>, kept: seq<Candidate>, c: Candidate, slot: seq<nat>)
    requires Slots(bySymbol, kept)
    requires slot == SlotOf(bySymbol, c)
    ensures Slots(bySymbol[(c.symbol, c.evidence) := slot + [|kept|]], kept + [c])
    ensures Slots(bySymbol[(c.symbol, c.evidence) := slot], kept)
  {
    var at := (c.symbol, c.evidence);
    var m0, m1 := bySymbol[at := slot], bySymbol[at := slot + [|kept|]];
    forall k, j: nat ensures InSlot(m0, k, j) <==> InSlot(bySymbol, k, j) {}
    forall k, j: nat ensures InSlot(m1, k, j) <==> InSlot(bySymbol, k, j) || (k == at && j == |kept|) {}
    forall j: nat | j <= |kept| ensures InSlot(m1, ((kept + [c])[j].symbol, (kept + [c])[j].evidence), j) {
      if j < |kept| { assert InSlot(bySymbol, (kept[j].symbol, kept[j].evidence), j); }
    }
  }

  lemma KeySetAppend(s: seq<Candidate>, c: Candidate)
    ensures KeySet(s + [c]) == KeySet(s) + {KeyOf(c)} && Keys(s + [c]) == Keys(s) + [KeyOf(c)]
  {
    hide KeyOf;
    var t := s + [c];
    forall k | k in KeySet(s) + {KeyOf(c)} ensures k in KeySet(t) {
      if k == KeyOf(c) { assert t[|s|] == c; }
    }
  }

  /** In rank order a candidate never comes before an earlier one. */
  lemma RankedAfter(sorted: seq<Candidate>, i: nat)
    requires Sorted(CandidateLess, sorted) && i < |sorted|
    ensures forall y :: y in KeySet(sorted[..i]) ==> !KeyLess(KeyOf(sorted[i]), y)
  {
    hide KeyOf, KeyLess;
    forall y | y in KeySet(sorted[..i]) ensures !KeyLess(KeyOf(sorted[i]), y) {
      var c :| c in sorted[..i] && KeyOf(c) == y;
      var j :| 0 <= j < i && sorted[j] == c;
      assert !CandidateLess(sorted[i], sorted[j]);
    }
  }

  /** Ranks the candidates and drops those covered by better ones. */
  method RankAndDedup(candidates: seq<Candidate>) returns (kept: seq<Candidate>)
    ensures IsKept(KeySet(candidates), Keys(kept))
    ensures forall c :: c in kept ==> c in candidates
  {
    hide IsKept, Keys, KeySet, KeyOf, Slots, SpanCovers, Covers, Sorted, StrictWeak, CandidateLess, KeyLess;
    var sorted := StableSort(CandidateLess, candidates);
    CandidateLessWeak();
    StableSortSorted(CandidateLess, candidates);
    kept := [];
    var bySymbol: map<(int, Evidence), seq<nat>> := map[];
    NothingKept();
    for i := 0 to |sorted|
      invariant IsKept(KeySet(sorted[..i]), Keys(kept)) && Slots(bySymbol, kept)
      invariant forall c :: c in kept ==> c in sorted
    {
      var c := sorted[i];
      var slot := SlotOf(bySymbol, c);
      SlotInRange(bySymbol, kept, c, slot);
      var redundant := AnyCovers(kept, slot, c);
      SlotsCover(bySymbol, kept, c, slot, redundant);
      RankedAfter(sorted, i);
      KeepNext(KeySet(sorted[..i]), Keys(kept), KeyOf(c), redundant);
      assert sorted[..i + 1] == sorted[..i] + [c];
      KeySetAppend(sorted[..i], c);
      KeySetAppend(kept, c);
      SlotsGrow(bySymbol, kept, c, slot);
      if !redundant {
        slot := slot + [|kept|];
        kept := kept + [c];
      }
      bySymbol := bySymbol[(c.symbol, c.evidence) := slot];
    }
    assert sorted[..|sorted|] == sorted;
    SameKeys(candidates, sorted);
  }

  lemma NothingKept()
    ensures IsKept(KeySet([]), Keys([])) && Slots(map[], [])
  {
  }

  lemma SlotInRange(bySymbol: map<(int, Evidence), seq<nat>>, kept: seq<Candidate>, c: Candidate, slot: seq<nat>)
    requires Slots(bySymbol, kept)
    requires slot == SlotOf(bySymbol, c)
    ensures forall j :: j in slot ==> j < |kept|
  {
    forall j | j in slot ensures j < |kept| {
      assert InSlot(bySymbol, (c.symbol, c.evidence), j);
    }
  }

  lemma SameKeys(a: seq<Candidate>, b: seq<Candidate>)
    requires multiset(a) == multiset(b)
    ensures KeySet(a) == KeySet(b) && forall c :: c in a <==> c in b
  {
    hide KeyOf;
    forall c ensures c in a <==> c in b {
      assert c in a <==> c in multiset(a);
      assert c in b <==> c in multiset(b);
    }
  }

  /** The order of the candidates does not matter, up to raw scores that quantize alike. */
  lemma OrderIrrelevant(a: seq<Candidate>, b: seq<Candidate>, keptA: seq<Candidate>, keptB: seq<Candidate>)
    requires multiset(a) == multiset(b)
    requires IsKept(KeySet(a), Keys(keptA)) && IsKept(KeySet(b), Keys(keptB))
    ensures Keys(keptA) == Keys(keptB)
  {
    SameKeys(a, b);
    KeptUnique(KeySet(a), Keys(keptA), Keys(keptB));
  }

  // ------------------------------------------------------------ what the ranking says of candidates

  /** `a` scores a millionth or more above `b`, both within the range of the quantized scores. */
  predicate ClearlyAbove(a: Score, b: Score) {
    || (a.PositiveInfinity? && (b.NaN? || b.NegativeInfinity? || (b.Number? && b.value < 9_223_372_036_854.0)))
    || (a.Number? && a.value > -9_223_372_036_854.0 && (b.NaN? || b.NegativeInfinity?))
    || (a.Number? && b.Number? && a.value - b.value >= 0.000001
        && a.value > -9_223_372_036_854.0 && b.value < 9_223_372_036_854.0)
  }

  /** The tie-break: definitions, then fragments, then relations, and then by place. */
  predicate FirstOfEquals(a: Candidate, b: Candidate) {
    || (a.evidence.Definition? && !b.evidence.Definition?)
    || (a.evidence.Fragment? && b.evidence.Relation?)
    || (a.evidence == b.evidence && StrLess(a.path, b.path))
    || (a.evidence == b.evidence && a.path == b.path && a.startLine < b.startLine)
    || (a.evidence == b.evidence && a.path == b.path && a.startLine == b.startLine
        && (a.endLine > b.endLine
            || (a.endLine == b.endLine && (a.symbol < b.symbol || (a.symbol == b.symbol && StrLess(a.role, b.role))))))
  }

  /** `b` tells the same as `a`, or part of it: the same lines, or for fragments lines within. */
  predicate Repeats(b: Candidate, a: Candidate) {
    && a.symbol == b.symbol && a.evidence == b.evidence && a.path == b.path && a.role == b.role
    && a.startLine <= b.startLine && b.endLine <= a.endLine
    && (!a.evidence.Fragment? ==> a.startLine == b.startLine && a.endLine == b.endLine)
  }

  lemma QuantizeApart(a: Score, b: Score)
    ensures ClearlyAbove(a, b) ==> Quantize(a) > Quantize(b)
  {
    if a.Number? && b.Number? {
      RoundMonotone(b.value * 1000000.0, a.value * 1000000.0);
    }
  }

  /** Nothing stands before what is clearly more relevant, and equal scores stand in the order of the tie-break. */
  lemma RankedByRelevance(candidates: seq<Candidate>, kept: seq<Candidate>, i: nat, j: nat)
    requires IsKept(KeySet(candidates), Keys(kept)) && i < j < |kept|
    ensures !ClearlyAbove(kept[j].score, kept[i].score)
    ensures kept[i].score == kept[j].score ==> FirstOfEquals(kept[i], kept[j])
  {
    hide StrLess, Quantize;
    assert KeyLess(Keys(kept)[i], Keys(kept)[j]);
    QuantizeApart(kept[j].score, kept[i].score);
  }

  lemma RepeatsIff(a: Candidate, b: Candidate)
    ensures Repeats(b, a) <==> Covers(KeyOf(a), KeyOf(b))
  {
    hide Quantize;
  }

  lemma KeptCovers(all: set<Key>, kept: seq<Key>, x: Key)
    requires IsKept(all, kept) && x in all
    ensures CoveredBy(kept, x)
  {
    hide Covers, KeyLess, StrictlySorted, CoveredBy;
  }

  lemma CoverAt(kept: seq<Candidate>, x: Key) returns (i: nat)
    requires CoveredBy(Keys(kept), x)
    ensures i < |kept| && Covers(KeyOf(kept[i]), x) && !KeyLess(x, KeyOf(kept[i]))
  {
    hide Covers, KeyLess, KeyOf;
    var y :| y in Keys(kept) && Covers(y, x) && !KeyLess(x, y);
    i :| 0 <= i < |kept| && Keys(kept)[i] == y;
  }

  /** What is dropped repeats something kept that is not clearly less relevant. */
  lemma DroppedRepeats(candidates: seq<Candidate>, kept: seq<Candidate>, c: Candidate)
    requires IsKept(KeySet(candidates), Keys(kept)) && c in candidates
    ensures exists k :: k in kept && Repeats(c, k) && !ClearlyAbove(c.score, k.score)
  {
    hide IsKept, Quantize, Covers, Repeats, ClearlyAbove;
    KeptCovers(KeySet(candidates), Keys(kept), KeyOf(c));
    var i := CoverAt(kept, KeyOf(c));
    RepeatsIff(kept[i], c);
    QuantizeApart(c.score, kept[i].score);
    assert kept[i] in kept;
  }

  /** And nothing kept repeats something kept before it. */
  lemma NoneRepeats(candidates: seq<Candidate>, kept: seq<Candidate>, i: nat, j: nat)
    requires IsKept(KeySet(candidates), Keys(kept)) && i < j < |kept|
    ensures !Repeats(kept[j], kept[i])
  {
    hide Covers, KeyOf, Repeats, StrictlySorted, CoveredBy;
    assert !Covers(Keys(kept)[i], Keys(kept)[j]);
    RepeatsIff(kept[i], kept[j]);
  }

  // ------------------------------------------------------------ budgets

  const MAX_BUDGET_TOKENS: nat := 1_000_000
  const MAX_BUDGET_RESULTS: nat := 1_000

  datatype Budget = Budget(maxTokens: Option<nat>, maxResults: nat, detail: DetailLevel)

  datatype BudgetResult = Ok(budget: Budget) | ZeroMaxTokens | ZeroMaxResults

  predicate ValidBudget(b: Budget) {
    && 1 <= b.maxResults <= MAX_BUDGET_RESULTS
    && (b.maxTokens.Some? ==> 1 <= b.maxTokens.value <= MAX_BUDGET_TOKENS)
  }

  function NewBudget(maxTokens: Option<nat>, maxResults: nat, detail: DetailLevel): (r: BudgetResult)
    ensures r.Ok? <==> maxTokens != Some(0) && maxResults > 0
    ensures r.Ok? ==> ValidBudget(r.budget) && r.budget.detail == detail
    ensures maxTokens == Some(0) ==> r == ZeroMaxTokens
    ensures r.Ok? ==> r.budget.maxResults == if maxResults <= 1_000 then maxResults else 1_000
    ensures r.Ok? && maxTokens.None? ==> r.budget.maxTokens.None?
    ensures r.Ok? && maxTokens.Some? ==>
      r.budget.maxTokens == Some(if maxTokens.value <= 1_000_000 then maxTokens.value else 1_000_000)
  {
    if maxTokens == Some(0) then ZeroMaxTokens
    else if maxResults == 0 then ZeroMaxResults
    else
      var tokens := match maxTokens case None => None case Some(n) => Some(Min(n, MAX_BUDGET_TOKENS));
      Ok(Budget(tokens, Min(maxResults, MAX_BUDGET_RESULTS), detail))
  }

  datatype Row = Row(candidate: Candidate, level: DetailLevel, requested: DetailLevel) {
    predicate Degraded() { level.Rank() < requested.Rank() }
  }

  datatype Selection = Selection(
    rows: seq<Row>, total: nat, offset: nat, nextOffset: Option<nat>, degraded: nat, dropped: nat,
    spent: nat, overBudget: bool, neededMinTokens: Option<nat>)
  {
    predicate Minimal() { rows == [] && nextOffset == Some(offset) }
  }

  type Cost = (seq<Row>, bool) -> nat

  // ------------------------------------------------------------ the degradation chain

  /** How many lowerings bring `rows` rows from `requested` to `Overview`. */
  function Lowerings(requested: DetailLevel, rows: nat): nat {
    match requested case Overview => 0 case Summary => rows case Detailed => rows + rows
  }

  function LevelOf(rank: nat): DetailLevel {
    if rank == 0 then Overview else if rank == 1 then Summary else Detailed
  }

  /** Rows left after `k` steps on a page of `n`: all of them until every one is at `Overview`. */
  function ChainLength(n: nat, requested: DetailLevel, k: nat): nat {
    var low := Lowerings(requested, n);
    if k <= low then n else if k - low <= n then n - (k - low) else 0
  }

  /** Level of row `i` after `k` steps: rows below it are lowered fully first. */
  function ChainLevel(n: nat, requested: DetailLevel, k: nat, i: nat): DetailLevel
    requires i < n
  {
    var below := Lowerings(requested, n - 1 - i);
    if k <= below then requested
    else if k - below >= requested.Rank() then Overview
    else LevelOf(requested.Rank() - (k - below))
  }

  /** The page after `k` steps. */
  function ChainRows(page: seq<Candidate>, requested: DetailLevel, k: nat): (rows: seq<Row>)
    ensures |rows| == ChainLength(|page|, requested, k) <= |page|
  {
    seq(ChainLength(|page|, requested, k), i requires 0 <= i < ChainLength(|page|, requested, k) =>
      Row(page[i], ChainLevel(|page|, requested, k, i), requested))
  }

  /** Length of the whole chain. */
  function ChainEnd(n: nat, requested: DetailLevel): nat {
    Lowerings(requested, n) + n
  }

  function TruncatedAfter(total: nat, offset: nat, len: nat): bool { AddUsize(offset, len) < total }

  function StateCost(cost: Cost, total: nat, offset: nat, page: seq<Candidate>, requested: DetailLevel, k: nat): nat {
    var rows := ChainRows(page, requested, k);
    cost(rows, TruncatedAfter(total, offset, |rows|))
  }

  lemma ChainStart(page: seq<Candidate>, requested: DetailLevel)
    ensures ChainRows(page, requested, 0) ==
      seq(|page|, i requires 0 <= i < |page| => Row(page[i], requested, requested))
    ensures |ChainRows(page, requested, ChainEnd(|page|, requested))| == 0
  {
  }

  /** Lowering the last row that can be lowered is one step along the chain. */
  lemma ChainLower(page: seq<Candidate>, requested: DetailLevel, k: nat, j: nat)
    requires j < |ChainRows(page, requested, k)|
    requires ChainRows(page, requested, k)[j].level != Overview
    requires forall i :: j < i < |ChainRows(page, requested, k)| ==> ChainRows(page, requested, k)[i].level == Overview
    ensures k < Lowerings(requested, |page|)
    ensures var rows := ChainRows(page, requested, k);
      ChainRows(page, requested, k + 1) == rows[j := rows[j].(level := rows[j].level.Lower().value)]
  {
    var n, rows := |page|, ChainRows(page, requested, k);
    if j + 1 < |rows| { assert rows[j + 1].level == Overview; }
  }

  /** Dropping the last row, once none can be lowered, is one step along the chain. */
  lemma ChainDrop(page: seq<Candidate>, requested: DetailLevel, k: nat)
    requires var rows := ChainRows(page, requested, k); rows != [] && forall i :: 0 <= i < |rows| ==>
      rows[i].level == Overview
    ensures Lowerings(requested, |page|) <= k < ChainEnd(|page|, requested)
    ensures var rows := ChainRows(page, requested, k); ChainRows(page, requested, k + 1) == rows[..|rows| - 1]
  {
    var rows := ChainRows(page, requested, k);
    assert rows[0].level == Overview;
  }

  // ------------------------------------------------------------ selecting a page

  function Page(ranked: seq<Candidate>, offset: nat, max: nat): (page: seq<Candidate>)
    ensures |page| == if offset >= |ranked| then 0 else if |ranked| - offset <= max then |ranked| - offset else max
    ensures forall i :: 0 <= i < |page| ==> page[i] == ranked[offset + i]
  {
    if offset >= |ranked| then [] else ranked[offset..Min(offset + max, |ranked|)]
  }

  function DegradedCount(rows: seq<Row>): nat {
    if rows == [] then 0 else DegradedCount(rows[..|rows| - 1]) + (if rows[|rows| - 1].Degraded() then 1 else 0)
  }

  /** The cost of a response with the first row of the page only, at `Overview`. */
  function OneRowCost(cost: Cost, total: nat, offset: nat, first: Candidate, requested: DetailLevel): nat {
    cost([Row(first, Overview, requested)], TruncatedAfter(total, offset, 1))
  }

  /** State `k` is the first of the chain within the limit, or the last when none is. */
  ghost predicate FirstFit(
    cost: Cost, total: nat, offset: nat, page: seq<Candidate>, requested: DetailLevel, limit: nat, k: nat)
  {
    && k <= ChainEnd(|page|, requested)
    && (forall j: nat :: j < k ==> StateCost(cost, total, offset, page, requested, j) > limit)
    && (StateCost(cost, total, offset, page, requested, k) <= limit || k == ChainEnd(|page|, requested))
  }

  /** `s` answers the request with state `k` of the chain. */
  ghost predicate Selects(ranked: seq<Candidate>, offset: nat, b: Budget, cost: Cost, s: Selection, k: nat) {
    var page := Page(ranked, offset, b.maxResults);
    && s.total == |ranked| && s.offset == offset
    && s.rows == ChainRows(page, b.detail, k)
    && s.degraded == DegradedCount(s.rows) && s.dropped == |page| - |s.rows|
    && s.nextOffset == (if offset + |s.rows| < |ranked| then Some(offset + |s.rows|) else None)
    && match b.maxTokens
       case None => k == 0 && s.spent == 0 && !s.overBudget && s.neededMinTokens == None
       case Some(limit) =>
         && FirstFit(cost, |ranked|, offset, page, b.detail, limit, k)
         && s.spent == StateCost(cost, |ranked|, offset, page, b.detail, k)
         && (s.overBudget <==> s.spent > limit)
         && s.neededMinTokens ==
            if page != [] && s.rows == [] then Some(OneRowCost(cost, |ranked|, offset, page[0], b.detail)) else None
  }

  /** The last row that can be lowered, if any. */
  method LastLowerable(rows: seq<Row>) returns (at: Option<nat>)
    ensures at.None? <==> forall i :: 0 <= i < |rows| ==> rows[i].level == Overview
    ensures at.Some? ==> at.value < |rows| && rows[at.value].level != Overview
    ensures at.Some? ==> forall i :: at.value < i < |rows| ==> rows[i].level == Overview
  {
    var i := |rows|;
    while i > 0
      invariant 0 <= i <= |rows|
      invariant forall j :: i <= j < |rows| ==> rows[j].level == Overview
    {
      i := i - 1;
      if rows[i].level.Lower().Some? { return Some(i); }
    }
    return None;
  }

  method CountDegraded(rows: seq<Row>) returns (n: nat)
    ensures n == DegradedCount(rows) <= |rows|
  {
    n := 0;
    for i := 0 to |rows|
      invariant n == DegradedCount(rows[..i]) <= i
    {
      assert rows[..i + 1][..i] == rows[..i];
      if rows[i].Degraded() { n := n + 1; }
    }
    assert rows[..|rows|] == rows;
  }

  /** Lowers and drops until the page fits, counting the calls of `cost`. */
  method Fit(cost: Cost, total: nat, offset: nat, page: seq<Candidate>, requested: DetailLevel, limit: nat)
    returns (rows: seq<Row>, spent: nat, overBudget: bool, calls: nat, ghost k: nat)
    ensures FirstFit(cost, total, offset, page, requested, limit, k)
    ensures rows == ChainRows(page, requested, k) && spent == StateCost(cost, total, offset, page, requested, k)
    ensures overBudget <==> spent > limit
    ensures calls == k + 1
  {
    hide ChainLength, ChainLevel, TruncatedAfter, LevelOf;
    ChainStart(page, requested);
    rows := seq(|page|, i requires 0 <= i < |page| => Row(page[i], requested, requested));
    spent, overBudget, calls, k := cost(rows, TruncatedAfter(total, offset, |rows|)), false, 1, 0;
    while spent > limit
      invariant k <= ChainEnd(|page|, requested) && rows == ChainRows(page, requested, k)
      invariant spent == StateCost(cost, total, offset, page, requested, k)
      invariant forall j: nat :: j < k ==> StateCost(cost, total, offset, page, requested, j) > limit
      invariant calls == k + 1 && !overBudget
      decreases ChainEnd(|page|, requested) - k
    {
      var at := LastLowerable(rows);
      if at.Some? {
        ChainLower(page, requested, k, at.value);
        rows := rows[at.value := rows[at.value].(level := rows[at.value].level.Lower().value)];
      } else if rows == [] {
        overBudget := true;
        EmptyIsLast(page, requested, k);
        break;
      } else {
        ChainDrop(page, requested, k);
        rows := rows[..|rows| - 1];
      }
      k := k + 1;
      spent := cost(rows, TruncatedAfter(total, offset, |rows|));
      calls := calls + 1;
    }
  }

  lemma EmptyIsLast(page: seq<Candidate>, requested: DetailLevel, k: nat)
    requires k <= ChainEnd(|page|, requested) && ChainRows(page, requested, k) == []
    ensures k == ChainEnd(|page|, requested)
  {
  }

  /** One page of `candidates`, fitted to the budget. `calls` counts the calls of `cost`. */
  method Select(candidates: seq<Candidate>, offset: nat, b: Budget, cost: Cost)
    returns (s: Selection, calls: nat, ghost ranked: seq<Candidate>, ghost k: nat)
    requires offset <= USIZE_MAX && |candidates| <= USIZE_MAX
    ensures IsKept(KeySet(candidates), Keys(ranked)) && forall c :: c in ranked ==> c in candidates
    ensures Selects(ranked, offset, b, cost, s, k)
    ensures b.maxTokens.None? ==> calls == 0
    ensures b.maxTokens.Some? ==> calls == 1 + k + (if s.neededMinTokens.Some? then 1 else 0)
    ensures calls <= 2 + 3 * |Page(ranked, offset, b.maxResults)|
  {
    hide IsKept, KeySet, ChainRows, FirstFit;
    var all := RankAndDedup(candidates);
    ranked := all;
    KeptFewer(candidates, all);
    var page := Page(all, offset, b.maxResults);
    var rows := seq(|page|, i requires 0 <= i < |page| => Row(page[i], b.detail, b.detail));
    var spent, overBudget := 0, false;
    ChainStart(page, b.detail);
    calls, k := 0, 0;
    if b.maxTokens.Some? {
      rows, spent, overBudget, calls, k := Fit(cost, |all|, offset, page, b.detail, b.maxTokens.value);
      FirstFitBounded(cost, |all|, offset, page, b.detail, b.maxTokens.value, k);
    }
    var needed := None;
    if page != [] && rows == [] && b.maxTokens.Some? {
      needed := Some(cost([Row(page[0], Overview, b.detail)], TruncatedAfter(|all|, offset, 1)));
      calls := calls + 1;
    }
    var degraded := CountDegraded(rows);
    var next := AddUsize(offset, |rows|);
    s := Selection(rows, |all|, offset, if next < |all| then Some(next) else None,
      degraded, |page| - |rows|, spent, overBudget, needed);
  }

  lemma FirstFitBounded(
    cost: Cost, total: nat, offset: nat, page: seq<Candidate>, requested: DetailLevel, limit: nat, k: nat)
    requires FirstFit(cost, total, offset, page, requested, limit, k)
    ensures k <= 3 * |page| && |ChainRows(page, requested, k)| <= |page|
  {
  }

  /** No more is kept than came in. */
  lemma KeptFewer(candidates: seq<Candidate>, kept: seq<Candidate>)
    requires IsKept(KeySet(candidates), Keys(kept)) && forall c :: c in kept ==> c in candidates
    ensures |kept| <= |candidates|
  {
    KeyLessTotal();
    var ks := Keys(kept);
    assert Distinct(ks);
    var distinct := set k | k in ks;
    DistinctSize(ks, distinct);
    SubsetSize(distinct, KeySet(candidates));
    KeySetSize(candidates);
  }

  lemma {:induction false} KeySetSize(s: seq<Candidate>)
    ensures |KeySet(s)| <= |s|
  {
    if s == [] {
      assert KeySet(s) == {};
    } else {
      KeySetSize(s[..|s| - 1]);
      KeySetAppend(s[..|s| - 1], s[|s| - 1]);
      assert s[..|s| - 1] + [s[|s| - 1]] == s;
    }
  }

  // ------------------------------------------------------------ what the page promises

  /** The positions of the rows below the requested level. */
  ghost function Lowered(rows: seq<Row>): set<nat> {
    set i: nat | i < |rows| && rows[i].level != rows[i].requested
  }

  lemma {:induction false} DegradedAre(rows: seq<Row>)
    requires forall i :: 0 <= i < |rows| ==> rows[i].level.Rank() <= rows[i].requested.Rank()
    ensures DegradedCount(rows) == |Lowered(rows)|
  {
    if rows == [] {
      assert Lowered(rows) == {};
    } else {
      var n := |rows| - 1;
      DegradedAre(rows[..n]);
      assert Lowered(rows) == Lowered(rows[..n]) + (if rows[n].level != rows[n].requested then {n as nat} else {});
    }
  }

  /** What a selection holds: the ranked list from the offset on, as far as the page goes, less what was dropped;
      the cost of exactly that response; and nothing lowered or dropped without need. */
  lemma SelectionIs(ranked: seq<Candidate>, offset: nat, b: Budget, cost: Cost, s: Selection, k: nat)
    requires Selects(ranked, offset, b, cost, s, k) && |ranked| <= USIZE_MAX
    ensures var left := if offset <= |ranked| then |ranked| - offset else 0;
      |s.rows| + s.dropped == if left <= b.maxResults then left else b.maxResults
    ensures forall i :: 0 <= i < |s.rows| ==>
      s.rows[i].candidate == ranked[offset + i] && s.rows[i].requested == b.detail
    ensures s.degraded == |set i: nat | i < |s.rows| && s.rows[i].level != b.detail|
    ensures b.maxTokens.Some? ==> s.spent == cost(s.rows, s.nextOffset.Some?)
    ensures s.neededMinTokens.Some? ==>
      s.neededMinTokens.value == cost([Row(ranked[offset], Overview, b.detail)], offset + 1 < |ranked|)
    ensures b.maxTokens.None? ==> s.degraded == 0 && s.dropped == 0
    ensures b.maxTokens.Some? && (s.degraded > 0 || s.dropped > 0) ==>
      forall full: seq<Row> ::
        (&& |full| == |s.rows| + s.dropped
         && forall i :: 0 <= i < |full| ==> full[i] == Row(ranked[offset + i], b.detail, b.detail)) ==>
        cost(full, offset + |full| < |ranked|) > b.maxTokens.value
  {
    hide ChainRows;
    var page := Page(ranked, offset, b.maxResults);
    ChainShape(page, b.detail, k);
    ChainAsks(page, b.detail, k);
    DegradedAre(s.rows);
    assert Lowered(s.rows) == set i: nat | i < |s.rows| && s.rows[i].level != b.detail;
    ChainStart(page, b.detail);
    if k == 0 {
      assert Lowered(s.rows) == {};
    } else if b.maxTokens.Some? {
      assert StateCost(cost, |ranked|, offset, page, b.detail, 0) > b.maxTokens.value;
      forall full: seq<Row> | |full| == |page|
        && forall i :: 0 <= i < |full| ==> full[i] == Row(ranked[offset + i], b.detail, b.detail)
        ensures cost(full, offset + |full| < |ranked|) > b.maxTokens.value
      {
        assert full == ChainRows(page, b.detail, 0);
      }
    }
  }

  lemma ChainAsks(page: seq<Candidate>, requested: DetailLevel, k: nat)
    ensures forall i :: 0 <= i < |ChainRows(page, requested, k)| ==>
      ChainRows(page, requested, k)[i].requested == requested
  {
  }

  /** Levels never rise down the page, and rows are missing only when the rest are at `Overview`. */
  lemma ChainShape(page: seq<Candidate>, requested: DetailLevel, k: nat)
    ensures var rows := ChainRows(page, requested, k);
      && (forall i, j :: 0 <= i < j < |rows| ==> rows[j].level.Rank() <= rows[i].level.Rank())
      && (|rows| < |page| ==> forall i :: 0 <= i < |rows| ==> rows[i].level == Overview)
      && (forall i :: 0 <= i < |rows| ==> rows[i].candidate == page[i] && rows[i].level.Rank() <= requested.Rank())
      && (forall i, j :: 0 <= i < j < |rows| && rows[j].level != Overview ==> rows[i].level == requested)
  {
  }

  /** Rows in order of how much they say. */
  ghost predicate NoLess(more: seq<Row>, less: seq<Row>) {
    && |less| <= |more|
    && forall i :: 0 <= i < |less| ==>
         more[i].candidate == less[i].candidate && less[i].level.Rank() <= more[i].level.Rank()
  }

  lemma ChainFalls(page: seq<Candidate>, requested: DetailLevel, j: nat, k: nat)
    requires j <= k
    ensures NoLess(ChainRows(page, requested, j), ChainRows(page, requested, k))
  {
  }

  /** A larger budget never gives less. */
  lemma LargerBudgetNoLess(
    ranked: seq<Candidate>, offset: nat, b: Budget, larger: Budget, cost: Cost, s: Selection, t: Selection, k: nat,
    l: nat)
    requires b.maxTokens.Some? && (larger.maxTokens.Some? ==> larger.maxTokens.value >= b.maxTokens.value)
    requires larger.maxResults == b.maxResults && larger.detail == b.detail
    requires Selects(ranked, offset, b, cost, s, k) && Selects(ranked, offset, larger, cost, t, l)
    ensures NoLess(t.rows, s.rows)
  {
    hide ChainRows;
    var page := Page(ranked, offset, b.maxResults);
    if l <= k { ChainFalls(page, b.detail, l, k); }
  }

  lemma EndIsEmpty(page: seq<Candidate>, requested: DetailLevel, k: nat)
    ensures k == ChainEnd(|page|, requested) ==> ChainRows(page, requested, k) == []
  {
  }

  /** Without rows, the budget to ask for is enough for one. */
  lemma NeededTokensSuffice(
    ranked: seq<Candidate>, offset: nat, b: Budget, raised: Budget, cost: Cost, s: Selection, t: Selection, k: nat,
    l: nat)
    requires Selects(ranked, offset, b, cost, s, k) && s.neededMinTokens.Some?
    requires Selects(ranked, offset, raised, cost, t, l)
    requires raised.maxResults == b.maxResults && raised.detail == b.detail
    requires raised.maxTokens.Some? ==> raised.maxTokens.value >= s.neededMinTokens.value
    ensures t.rows != [] && !t.Minimal() && !t.overBudget
  {
    hide ChainRows;
    var page := Page(ranked, offset, b.maxResults);
    OneRowState(page, b.detail, l);
    assert raised.maxTokens.Some? ==>
      StateCost(cost, |ranked|, offset, page, b.detail, Lowerings(b.detail, |page|) + |page| - 1) <=
        raised.maxTokens.value;
  }

  lemma OneRowState(page: seq<Candidate>, requested: DetailLevel, l: nat)
    requires page != []
    ensures ChainRows(page, requested, Lowerings(requested, |page|) + |page| - 1) == [Row(page[0], Overview, requested)]
    ensures l <= Lowerings(requested, |page|) + |page| - 1 ==> ChainRows(page, requested, l) != []
  {
  }

  /** A page without rows while candidates remain says how much it would take, and that is more
      than the limit; any other page moves on. */
  lemma MinimalIff(ranked: seq<Candidate>, offset: nat, b: Budget, cost: Cost, s: Selection, k: nat)
    requires ValidBudget(b) && Selects(ranked, offset, b, cost, s, k)
    ensures s.Minimal() <==> s.neededMinTokens.Some?
    ensures s.Minimal() ==> b.maxTokens.Some? && s.neededMinTokens.value > b.maxTokens.value
    ensures s.nextOffset.Some? && !s.Minimal() ==> s.nextOffset.value > offset
  {
    hide ChainRows;
    var page := Page(ranked, offset, b.maxResults);
    if page != [] {
      OneRowState(page, b.detail, k);
      ChainStart(page, b.detail);
      if s.rows == [] && b.maxTokens.Some? {
        assert StateCost(cost, |ranked|, offset, page, b.detail, Lowerings(b.detail, |page|) + |page| - 1) >
          b.maxTokens.value;
      }
    }
  }

  /** The response exceeds the limit exactly when even one without rows does and none is given. */
  lemma OverBudgetIff(ranked: seq<Candidate>, offset: nat, b: Budget, cost: Cost, s: Selection, k: nat)
    requires Selects(ranked, offset, b, cost, s, k) && b.maxTokens.Some?
    ensures s.spent == cost(s.rows, TruncatedAfter(|ranked|, offset, |s.rows|))
    ensures s.overBudget <==> s.rows == [] && cost([], TruncatedAfter(|ranked|, offset, 0)) > b.maxTokens.value
    ensures var page := Page(ranked, offset, b.maxResults);
      s.overBudget <==> forall j: nat :: j <= ChainEnd(|page|, b.detail) ==>
        StateCost(cost, |ranked|, offset, page, b.detail, j) > b.maxTokens.value
    ensures !s.overBudget ==> s.spent <= b.maxTokens.value
  {
    hide ChainRows;
    EndIsEmpty(Page(ranked, offset, b.maxResults), b.detail, k);
  }

  // ------------------------------------------------------------ paging

  function RowCandidates(rows: seq<Row>): seq<Candidate> {
    seq(|rows|, i requires 0 <= i < |rows| => rows[i].candidate)
  }

  /** Pages of one request, each with its own budget, from `offset` on. */
  ghost predicate Pages(
    ranked: seq<Candidate>, offset: nat, pages: seq<Selection>, budgets: seq<Budget>, costs: seq<Cost>, ks: seq<nat>)
    decreases |pages|
  {
    && |pages| == |budgets| == |costs| == |ks|
    && (pages != [] ==>
          && Selects(ranked, offset, budgets[0], costs[0], pages[0], ks[0])
          && (|pages| > 1 ==>
                && pages[0].nextOffset.Some?
                && Pages(ranked, pages[0].nextOffset.value, pages[1..], budgets[1..], costs[1..], ks[1..])))
  }

  function AllRows(pages: seq<Selection>): seq<Candidate> {
    if pages == [] then [] else RowCandidates(pages[0].rows) + AllRows(pages[1..])
  }

  lemma PageRows(ranked: seq<Candidate>, offset: nat, b: Budget, cost: Cost, s: Selection, k: nat)
    requires Selects(ranked, offset, b, cost, s, k) && offset <= |ranked|
    ensures offset + |s.rows| <= |ranked| && RowCandidates(s.rows) == ranked[offset..offset + |s.rows|]
  {
    hide FirstFit;
  }

  lemma JoinStretches(ranked: seq<Candidate>, offset: nat, a: seq<Candidate>, b: seq<Candidate>)
    requires offset + |a| + |b| <= |ranked|
    requires a == ranked[offset..offset + |a|] && b == ranked[offset + |a|..offset + |a| + |b|]
    ensures a + b == ranked[offset..offset + |a + b|]
  {
  }

  /** Following `nextOffset` neither skips nor repeats: the rows of the pages are a stretch of the
      ranked list from the first offset, and all of the rest once there is no next page. */
  lemma {:induction false} PagesConcatenate(
    ranked: seq<Candidate>, offset: nat, pages: seq<Selection>, budgets: seq<Budget>, costs: seq<Cost>, ks: seq<nat>)
    requires Pages(ranked, offset, pages, budgets, costs, ks) && offset <= |ranked|
    ensures offset + |AllRows(pages)| <= |ranked| && AllRows(pages) == ranked[offset..offset + |AllRows(pages)|]
    ensures pages != [] && pages[|pages| - 1].nextOffset.None? ==> AllRows(pages) == ranked[offset..]
    ensures pages != [] && pages[|pages| - 1].nextOffset.Some? ==>
      pages[|pages| - 1].nextOffset.value == offset + |AllRows(pages)|
    decreases |pages|
  {
    hide Selects, RowCandidates;
    if pages != [] {
      PageRows(ranked, offset, budgets[0], costs[0], pages[0], ks[0]);
      NextAfter(ranked, offset, budgets[0], costs[0], pages[0], ks[0]);
      if |pages| > 1 {
        PagesConcatenate(ranked, pages[0].nextOffset.value, pages[1..], budgets[1..], costs[1..], ks[1..]);
        assert pages[1..][|pages| - 2] == pages[|pages| - 1];
        JoinStretches(ranked, offset, RowCandidates(pages[0].rows), AllRows(pages[1..]));
      } else {
        assert AllRows(pages[1..]) == [];
      }
    }
  }

  lemma NextAfter(ranked: seq<Candidate>, offset: nat, b: Budget, cost: Cost, s: Selection, k: nat)
    requires Selects(ranked, offset, b, cost, s, k)
    ensures s.nextOffset == if offset + |s.rows| < |ranked| then Some(offset + |s.rows|) else None
  {
  }
}
