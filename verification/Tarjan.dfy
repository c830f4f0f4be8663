/** The search loop of `cycles.rs:32-88` over arrays, checked step by step against
    `TarjanState`. */
module Tarjan {
  import opened Digraph
  import opened Limits
  import opened TarjanState

  // ------------------------------------------------------------ counting iterations

  ghost function Sum(s: seq<nat>): nat {
    if s == [] then 0 else s[0] + Sum(s[1..])
  }

  lemma {:induction false} SumUpdate(s: seq<nat>, i: nat, x: nat)
    requires i < |s|
    ensures Sum(s[i := x]) + s[i] == Sum(s) + x
  {
    if i > 0 {
      assert s[i := x][1..] == s[1..][i - 1 := x];
      SumUpdate(s[1..], i - 1, x);
    } else {
      assert s[0 := x][1..] == s[1..];
    }
  }

  lemma {:induction false} SumMonotone(a: seq<nat>, b: seq<nat>)
    requires |a| == |b| && forall i :: 0 <= i < |a| ==> a[i] <= b[i]
    ensures Sum(a) <= Sum(b)
  {
    if a != [] { SumMonotone(a[1..], b[1..]); }
  }

  /** One iteration per edge out of each node, and one to finish it. */
  ghost function Bounds(g: Graph): seq<nat> {
    seq(|g|, v requires 0 <= v < |g| => |g[v]| + 1)
  }

  ghost function Degrees(g: Graph): seq<nat> {
    seq(|g|, v requires 0 <= v < |g| => |g[v]|)
  }

  lemma {:induction false} SumSucc(a: seq<nat>, b: seq<nat>)
    requires |a| == |b| && forall i :: 0 <= i < |a| ==> b[i] == a[i] + 1
    ensures Sum(b) == |a| + Sum(a)
  {
    if a != [] { SumSucc(a[1..], b[1..]); }
  }

  lemma WorkBound(g: Graph, s: State)
    requires Sized(g, s) && Counted(g, s)
    ensures Sum(s.work) <= Sum(Bounds(g))
  {
    forall v | 0 <= v < |g| ensures s.work[v] <= |g[v]| + 1 {
      if OnCall(s, v) { var i :| 0 <= i < |s.call| && s.call[i].node == v; }
    }
    SumMonotone(s.work, Bounds(g));
  }

  lemma FollowWork(g: Graph, s: State)
    requires CanFollow(g, s) && Counted(g, s)
    ensures Sum(Follow(g, s).work) == Sum(s.work) + 1
  {
    SumUpdate(s.work, Top(s), s.call[|s.call| - 1].pos + 1);
  }

  lemma ReturnWork(g: Graph, s: State)
    requires CanReturn(g, s) && Counted(g, s)
    ensures Sum(s.work[Top(s) := |g[Top(s)]| + 1]) == Sum(s.work) + 1
  {
    SumUpdate(s.work, Top(s), |g[Top(s)]| + 1);
  }

  /** The nodes that were ever pushed on the call stack. */
  ghost function Entered(g: Graph, s: State): set<nat> {
    set v: nat | v < |g| && (Visited(s, v) || OnCall(s, v))
  }

  ghost function Below(n: nat): (r: set<nat>)
    ensures |r| == n && forall v: nat :: v in r <==> v < n
  {
    if n == 0 then {} else Below(n - 1) + {n - 1}
  }

  // ------------------------------------------------------------ start, roots and end

  ghost function Init(n: nat): State {
    State(seq(n, _ => UNVISITED), seq(n, _ => 0), seq(n, _ => false), [], [], 0, seq(n, _ => 0), [])
  }

  lemma {:induction false} SumZero(n: nat)
    ensures Sum(seq(n, _ => 0)) == 0
  {
    if n > 0 {
      assert seq(n, _ => 0 as nat)[1..] == seq(n - 1, _ => 0 as nat);
      SumZero(n - 1);
    }
  }

  /** The state before anything was visited. */
  ghost predicate Blank(g: Graph, s: State) {
    && |g| == |s.index| == |s.low| == |s.onStack| == |s.work|
    && s.stack == [] && s.call == [] && s.comps == []
    && (forall v: nat :: v < |g| ==> !Visited(s, v) && !s.onStack[v] && s.work[v] == 0)
  }

  lemma InitBlank(g: Graph)
    ensures Blank(g, Init(|g|)) && Sum(Init(|g|).work) == 0
    ensures IsGraph(g) ==> Sized(g, Init(|g|)) && Numbered(g, Init(|g|))
  {
    SumZero(|g|);
  }

  lemma BlankStacks(g: Graph, s: State)
    requires Blank(g, s) && Sized(g, s)
    ensures Stacked(g, s) && Frames(g, s) && Counted(g, s) && Scanned(g, s)
  {
    hide OnCall, IsGraph;
    forall i ensures Linked(g, s, i) {}
  }

  lemma BlankReaches(g: Graph, s: State)
    requires Blank(g, s) && Sized(g, s)
    ensures PoppedClosed(g, s) && CompsRight(g, s)
    ensures FramesReachDown(g, s) && StackReachesUp(g, s) && LowReached(g, s) && LowBounds(g, s)
  {
    hide Reach, Edges, IsComponent, IsGraph;
  }

  lemma InitKeeps(g: Graph)
    requires IsGraph(g)
    ensures Inv(g, Init(|g|)) && Sum(Init(|g|).work) == 0 && Entered(g, Init(|g|)) == {}
  {
    hide Init, Stacked, Frames, Counted, Scanned, PoppedClosed, FramesReachDown, StackReachesUp, LowReached,
      LowBounds, CompsRight;
    InitBlank(g);
    BlankStacks(g, Init(|g|));
    BlankReaches(g, Init(|g|));
  }

  ghost function PushRoot(s: State, root: nat): State {
    s.(call := [Frame(root, 0)])
  }

  lemma NothingStacked(g: Graph, s: State)
    requires Sized(g, s) && Stacked(g, s) && StackReachesUp(g, s) && s.call == []
    ensures forall v :: 0 <= v < |g| ==> !s.onStack[v]
    ensures s.stack == []
  {
    assert forall v: nat, i :: !ReachesFrame(g, s, v, i);
    StackOnStack(g, s);
  }

  lemma StackOnStack(g: Graph, s: State)
    requires Sized(g, s) && Stacked(g, s)
    ensures s.stack != [] ==> exists v :: 0 <= v < |g| && s.onStack[v]
  {
    if s.stack != [] { assert s.stack[0] in s.stack; }
  }

  lemma PushRootKeeps(g: Graph, s: State, root: nat)
    requires Inv(g, s) && s.call == [] && root < |g| && !Visited(s, root)
    ensures Inv(g, PushRoot(s, root))
  {
    hide Reach, Edges, IsComponent;
    NothingStacked(g, s);
    var t := PushRoot(s, root);
    assert Sized(g, t) && Numbered(g, t) && Stacked(g, t);
    forall i ensures Linked(g, t, i) {}
    assert OnCall(t, root) by { assert t.call[0].node == root; }
    assert Frames(g, t);
    assert Counted(g, t);
    assert CompsRight(g, t) by {
      assert forall u: nat :: u < |g| ==> (Popped(t, u) <==> Popped(s, u));
      SameComps(g, s, t);
    }
    assert PoppedClosed(g, t) by {
      assert forall u: nat :: u < |g| ==> (Popped(t, u) <==> Popped(s, u));
    }
  }

  /** The components are exactly those of the graph, each listed once. */
  ghost predicate AllComponents(g: Graph, comps: seq<seq<nat>>) {
    && (forall c :: c in comps ==> IsComponent(Edges(g), c) && forall x :: x in c ==> x < |g|)
    && (forall a, b, x :: 0 <= a < b < |comps| && x in comps[a] ==> x !in comps[b])
    && (forall v: nat :: v < |g| ==> Listed(comps, v))
  }

  ghost predicate Listed(comps: seq<seq<nat>>, v: nat) {
    exists a :: 0 <= a < |comps| && v in comps[a]
  }

  lemma RootsVisited(g: Graph, s: State)
    requires s.call == [] && forall v: nat :: v < |g| ==> v in Entered(g, s)
    ensures forall v: nat :: v < |g| ==> Visited(s, v)
  {
    forall v: nat | v < |g| ensures Visited(s, v) {
      assert v in Entered(g, s);
    }
  }

  lemma SearchComplete(g: Graph, s: State)
    requires Inv(g, s) && s.call == [] && forall v: nat :: v < |g| ==> Visited(s, v)
    ensures AllComponents(g, s.comps)
    ensures Sum(s.work) == |g| + Sum(Degrees(g))
    ensures |Entered(g, s)| == |g|
  {
    hide Reach, Edges, IsComponent;
    NothingStacked(g, s);
    forall v: nat | v < |g| ensures Listed(s.comps, v) {
      assert Popped(s, v) && InComps(s, v);
    }
    forall c, x | c in s.comps && x in c ensures x < |g| {
      var a :| 0 <= a < |s.comps| && s.comps[a] == c;
      assert Popped(s, x);
    }
    assert s.work == Bounds(g);
    SumSucc(Degrees(g), s.work);
    assert Entered(g, s) == Below(|g|);
  }

  // ------------------------------------------------------------ facts the loop body needs

  lemma TopFacts(g: Graph, s: State)
    requires Sized(g, s) && Numbered(g, s) && Stacked(g, s) && Frames(g, s) && Counted(g, s) && |s.call| > 0
    ensures Top(s) < |g| && s.call[|s.call| - 1].pos <= |g[Top(s)]|
    ensures s.index[Top(s)] == UNVISITED ==> s.call[|s.call| - 1].pos == 0
    ensures s.call[|s.call| - 1].pos < |g[Top(s)]| ==> IsNext(g, s, g[Top(s)][s.call[|s.call| - 1].pos])
    ensures |s.call| > 1 ==> s.call[|s.call| - 2].node < |g| && s.call[|s.call| - 2].node != Top(s)
  {
    hide Linked, OnCall;
    var k := |s.call| - 1;
    if k > 0 {
      assert s.onStack[s.call[k - 1].node];
      assert Visited(s, Top(s)) ==> s.index[s.call[k - 1].node] < s.index[s.call[k].node];
    }
  }

  /** A neighbour about to be scanned. */
  ghost predicate IsNext(g: Graph, s: State, w: nat) {
    w < |g| && w < |s.index| && s.index[w] >= UNVISITED
  }

  lemma LowAtMostIndex(g: Graph, s: State)
    requires Sized(g, s) && Stacked(g, s) && Frames(g, s) && |s.call| > 0 && Visited(s, Top(s))
    ensures s.low[Top(s)] <= s.index[Top(s)]
    ensures exists m: nat :: m < |s.stack| && s.stack[m] == Top(s)
    ensures |s.call| > 1 ==> s.low[s.call[|s.call| - 2].node] <= s.index[s.call[|s.call| - 2].node] < s.index[Top(s)]
  {
    hide IsGraph, Linked;
    var k := |s.call| - 1;
    assert s.onStack[s.call[k].node];
    var m :| 0 <= m < |s.stack| && s.stack[m] == Top(s);
    if k > 0 {
      assert s.onStack[s.call[k - 1].node];
      assert s.index[s.call[k - 1].node] < s.index[s.call[k].node];
    }
  }

  lemma StackDistinct(g: Graph, s: State, m: nat)
    requires Sized(g, s) && Stacked(g, s) && m < |s.stack|
    ensures s.stack[m] !in s.stack[m + 1..]
    ensures forall i :: 0 <= i < |s.stack| ==> s.stack[i] < |g|
  {
    var above := s.stack[m + 1..];
    forall i | 0 <= i < |above| ensures above[i] != s.stack[m] {
      assert s.index[s.stack[m]] < s.index[s.stack[m + 1 + i]];
    }
  }

  lemma OpenEntered(g: Graph, s: State)
    requires CanOpen(g, s)
    ensures Entered(g, Open(g, s)) == Entered(g, s)
  {
    assert OnCall(s, Top(s)) by { assert s.call[|s.call| - 1].node == Top(s); }
    assert forall v: nat :: OnCall(s, v) <==> OnCall(Open(g, s), v);
  }

  lemma FollowEntered(g: Graph, s: State)
    requires CanFollow(g, s) && Sized(g, s) && Frames(g, s) && Stacked(g, s)
    ensures var w := Next(g, s);
      if s.index[w] == UNVISITED then w !in Entered(g, s) && Entered(g, Follow(g, s)) == Entered(g, s) + {w}
      else Entered(g, Follow(g, s)) == Entered(g, s)
  {
    var w, t, k := Next(g, s), Follow(g, s), |s.call| - 1;
    assert forall i :: 0 <= i < |s.call| ==> t.call[i].node == s.call[i].node;
    forall v: nat | v < |g| ensures OnCall(t, v) <==> OnCall(s, v) || (s.index[w] == UNVISITED && v == w) {
      if OnCall(s, v) {
        var i :| 0 <= i < |s.call| && s.call[i].node == v;
        assert t.call[i].node == v;
      }
      if s.index[w] == UNVISITED { assert t.call[k + 1].node == w; }
    }
    assert forall i :: 0 <= i < |s.call| ==> s.onStack[s.call[i].node];
  }

  lemma FinishEntered(g: Graph, s: State, t: State)
    requires CanReturn(g, s) && t.index == s.index && t.call == s.call[..|s.call| - 1]
    ensures Entered(g, t) == Entered(g, s)
  {
    forall v: nat | v < |g| && OnCall(s, v) && v != Top(s) ensures OnCall(t, v) {
      var i :| 0 <= i < |s.call| && s.call[i].node == v;
      assert t.call[i].node == v;
    }
  }

  lemma RootEntered(g: Graph, s: State, root: nat)
    requires Sized(g, s) && s.call == [] && root < |g| && !Visited(s, root)
    ensures root !in Entered(g, s) && Entered(g, PushRoot(s, root)) == Entered(g, s) + {root}
  {
    assert PushRoot(s, root).call[0].node == root;
  }

  // ------------------------------------------------------------ the search

  /** Pops `stack` down to and including `v`. */
  method PopComponent(
    stack: seq<nat>, onStack: array<bool>, v: nat, ghost m: nat)
    returns (rest: seq<nat>, comp: seq<nat>)
    requires m < |stack| && stack[m] == v && v !in stack[m + 1..]
    requires forall i :: 0 <= i < |stack| ==> stack[i] < onStack.Length
    modifies onStack
    ensures rest == stack[..m] && comp == Reverse(stack[m..])
    ensures forall x :: 0 <= x < onStack.Length ==> onStack[x] == (old(onStack[x]) && x !in stack[m..])
  {
    rest, comp := stack, [];
    while |rest| > 0
      invariant m < |rest| <= |stack| && rest == stack[..|rest|]
      invariant comp == Reverse(stack[|rest|..])
      invariant forall x :: 0 <= x < onStack.Length ==> onStack[x] == (old(onStack[x]) && x !in stack[|rest|..])
    {
      var q := |rest| - 1;
      var w := rest[q];
      assert stack[q..] == [w] + stack[q + 1..];
      rest := rest[..q];
      onStack[w] := false;
      comp := comp + [w];
      if w == v {
        assert forall i :: m < i < |stack| ==> stack[i] == stack[m + 1..][i - m - 1];
        break;
      }
    }
  }

  /** The local variables of the loop hold the state `s`. */
  ghost predicate Holds(
    s: State, index: array<int>, low: array<nat>, onStack: array<bool>,
    stack: seq<nat>, call: seq<Frame>, counter: nat, comps: seq<seq<nat>>)
    reads index, low, onStack
  {
    s == State(index[..], low[..], onStack[..], stack, call, counter, s.work, comps)
  }

  lemma HoldsIdle(
    s: State, index: array<int>, low: array<nat>, onStack: array<bool>, counter: nat, comps: seq<seq<nat>>)
    requires Holds(s, index, low, onStack, [], [], counter, comps)
    ensures s.call == [] && s.comps == comps
  {
  }

  lemma RootFacts(
    g: Graph, s: State, index: array<int>, low: array<nat>, onStack: array<bool>, counter: nat, comps: seq<seq<nat>>,
    v: nat)
    requires Holds(s, index, low, onStack, [], [], counter, comps) && v < |g| == index.Length
    ensures Visited(s, v) <==> index[v] != UNVISITED
    ensures Visited(s, v) ==> v in Entered(g, s)
  {
  }

  method NewTables(n: nat) returns (index: array<int>, low: array<nat>, onStack: array<bool>)
    ensures fresh(index) && fresh(low) && fresh(onStack) && index.Length == n
    ensures Holds(Init(n), index, low, onStack, [], [], 0, [])
  {
    index := new int[n](_ => UNVISITED);
    low := new nat[n](_ => 0);
    onStack := new bool[n](_ => false);
  }

  /** Visits the node on top if this is its first time there. */
  method OpenTop(
    g: Graph, index: array<int>, low: array<nat>, onStack: array<bool>,
    stack0: seq<nat>, call: seq<Frame>, counter0: nat, comps: seq<seq<nat>>, ghost s0: State)
    returns (stack: seq<nat>, counter: nat, ghost s: State)
    requires |call| > 0 && Inv(g, s0) && Holds(s0, index, low, onStack, stack0, call, counter0, comps)
    modifies index, low, onStack
    ensures Inv(g, s) && Holds(s, index, low, onStack, stack, call, counter, comps) && Visited(s, Top(s))
    ensures s.work == s0.work && Entered(g, s) == Entered(g, s0)
  {
    hide Numbered, Stacked, Frames, Counted, Scanned, PoppedClosed, FramesReachDown, StackReachesUp, LowReached,
      LowBounds, CompsRight, Entered, Sum, Bounds, IsGraph, Return;
    TopFacts(g, s0);
    var Frame(v, pos) := call[|call| - 1];
    stack, counter, s := stack0, counter0, s0;
    if pos == 0 && index[v] == UNVISITED {
      OpenKeeps(g, s0);
      OpenEntered(g, s0);
      s := Open(g, s0);
      index[v] := counter;
      low[v] := counter;
      counter := counter + 1;
      stack := stack + [v];
      onStack[v] := true;
    }
  }

  /** Scans the next neighbour of the node on top. */
  method ScanTop(
    g: Graph, index: array<int>, low: array<nat>, onStack: array<bool>,
    stack: seq<nat>, call0: seq<Frame>, counter: nat, comps: seq<seq<nat>>, ghost s0: State)
    returns (call: seq<Frame>, ghost pushes: nat, ghost s: State)
    requires CanFollow(g, s0) && Inv(g, s0) && Holds(s0, index, low, onStack, stack, call0, counter, comps)
    modifies low
    ensures Inv(g, s) && Holds(s, index, low, onStack, stack, call, counter, comps)
    ensures Sum(s.work) == Sum(s0.work) + 1
    ensures Entered(g, s0) <= Entered(g, s) && |Entered(g, s)| == |Entered(g, s0)| + pushes
  {
    hide Numbered, Stacked, Frames, Counted, Scanned, PoppedClosed, FramesReachDown, StackReachesUp, LowReached,
      LowBounds, CompsRight, Entered, Sum, Bounds, IsGraph, Return;
    var k := |call0| - 1;
    var Frame(v, pos) := call0[k];
    TopFacts(g, s0);
    var w := g[v][pos];
    FollowKeeps(g, s0);
    FollowWork(g, s0);
    FollowEntered(g, s0);
    s, pushes := Follow(g, s0), 0;
    call := call0[k := Frame(v, pos + 1)];
    if index[w] == UNVISITED {
      call := call + [Frame(w, 0)];
      pushes := 1;
    } else if onStack[w] {
      low[v] := Min(low[v], index[w]);
    }
  }

  /** Finishes the node on top, all of whose neighbours were scanned. */
  method FinishTop(
    g: Graph, index: array<int>, low: array<nat>, onStack: array<bool>,
    stack0: seq<nat>, call0: seq<Frame>, counter: nat, comps0: seq<seq<nat>>, ghost s0: State)
    returns (stack: seq<nat>, call: seq<Frame>, comps: seq<seq<nat>>, ghost s: State)
    requires CanReturn(g, s0) && Inv(g, s0) && Holds(s0, index, low, onStack, stack0, call0, counter, comps0)
    modifies low, onStack
    ensures Inv(g, s) && Holds(s, index, low, onStack, stack, call, counter, comps)
    ensures Sum(s.work) == Sum(s0.work) + 1 && Entered(g, s) == Entered(g, s0)
  {
    hide Numbered, Stacked, Frames, Counted, Scanned, PoppedClosed, FramesReachDown, StackReachesUp, LowReached,
      LowBounds, CompsRight, Entered, Sum, Pop, IsGraph;
    var k := |call0| - 1;
    var v := call0[k].node;
    TopFacts(g, s0);
    LowAtMostIndex(g, s0);
    ReturnWork(g, s0);
    stack, comps := stack0, comps0;
    call := call0[..k];
    if k > 0 {
      var parent := call[k - 1].node;
      low[parent] := Min(low[parent], low[v]);
    }
    if low[v] == index[v] {
      ghost var m: nat :| m < |stack| && stack[m] == v;
      StackDistinct(g, s0, m);
      PopKeeps(g, s0, m);
      PopFields(g, s0, m);
      s := Pop(g, s0, m);
      FinishEntered(g, s0, s);
      var comp;
      stack, comp := PopComponent(stack, onStack, v, m);
      comps := comps + [comp];
      PopView(g, s0, m);
    } else {
      MergeKeeps(g, s0);
      s := Return(g, s0);
      FinishEntered(g, s0, s);
    }
  }

  lemma PopView(g: Graph, s: State, m: nat)
    requires CanPop(g, s, m)
    ensures forall x :: 0 <= x < |g| ==> Pop(g, s, m).onStack[x] == (s.onStack[x] && x !in s.stack[m..])
  {
  }

  /** One search from `root`, which was not visited before. `rounds` counts the iterations of
      the loop and `pushes` the frames pushed. */
  method Explore(
    g: Graph, root: nat, index: array<int>, low: array<nat>, onStack: array<bool>,
    counter0: nat, comps0: seq<seq<nat>>, ghost s0: State)
    returns (counter: nat, comps: seq<seq<nat>>, ghost s: State, ghost rounds: nat, ghost pushes: nat)
    requires Inv(g, s0) && root < |g| && !Visited(s0, root)
    requires Holds(s0, index, low, onStack, [], [], counter0, comps0)
    modifies index, low, onStack
    ensures Inv(g, s) && Holds(s, index, low, onStack, [], [], counter, comps)
    ensures Entered(g, s0) + {root} <= Entered(g, s)
    ensures rounds + Sum(s0.work) == Sum(s.work)
    ensures pushes + |Entered(g, s0)| == |Entered(g, s)|
  {
    hide Numbered, Stacked, Frames, Counted, Scanned, PoppedClosed, FramesReachDown, StackReachesUp, LowReached,
      LowBounds, CompsRight, Entered, Sum, Bounds, IsGraph, Return;
    counter, comps := counter0, comps0;
    var stack: seq<nat> := [];
    var call := [Frame(root, 0)];
    PushRootKeeps(g, s0, root);
    RootEntered(g, s0, root);
    s := PushRoot(s0, root);
    WorkBound(g, s);
    rounds, pushes := 0, 1;
    while |call| > 0
      invariant Inv(g, s) && Holds(s, index, low, onStack, stack, call, counter, comps)
      invariant Entered(g, s0) + {root} <= Entered(g, s)
      invariant rounds + Sum(s0.work) == Sum(s.work) <= Sum(Bounds(g))
      invariant pushes + |Entered(g, s0)| == |Entered(g, s)|
      decreases Sum(Bounds(g)) - Sum(s.work)
    {
      TopFacts(g, s);
      stack, counter, s := OpenTop(g, index, low, onStack, stack, call, counter, comps, s);
      TopFacts(g, s);
      var Frame(v, pos) := call[|call| - 1];
      rounds := rounds + 1;
      if pos < |g[v]| {
        ghost var pushed;
        call, pushed, s := ScanTop(g, index, low, onStack, stack, call, counter, comps, s);
        pushes := pushes + pushed;
      } else {
        stack, call, comps, s := FinishTop(g, index, low, onStack, stack, call, counter, comps, s);
      }
      WorkBound(g, s);
    }
    NothingStacked(g, s);
  }

  /** Every strongly connected component of `g`, in the order the search pops them.
      `iterations` counts the rounds of the inner loop, `pushes` the frames ever pushed. */
  method Components(g: Graph) returns (comps: seq<seq<nat>>, ghost iterations: nat, ghost pushes: nat)
    requires IsGraph(g)
    ensures AllComponents(g, comps)
    ensures iterations == |g| + Sum(Degrees(g))
    ensures pushes == |g|
  {
    hide *;
    var n := |g|;
    var index, low, onStack := NewTables(n);
    var counter: nat := 0;
    comps, iterations, pushes := [], 0, 0;
    ghost var s := Init(n);
    InitKeeps(g);
    for root := 0 to n
      invariant index.Length == n && Inv(g, s) && Holds(s, index, low, onStack, [], [], counter, comps)
      invariant iterations == Sum(s.work) && pushes == |Entered(g, s)|
      invariant forall v: nat :: v < root ==> v in Entered(g, s)
    {
      RootFacts(g, s, index, low, onStack, counter, comps, root);
      if index[root] != UNVISITED { continue; }
      ghost var rounds, pushed;
      counter, comps, s, rounds, pushed := Explore(g, root, index, low, onStack, counter, comps, s);
      iterations, pushes := iterations + rounds, pushes + pushed;
    }
    HoldsIdle(s, index, low, onStack, counter, comps);
    RootsVisited(g, s);
    SearchComplete(g, s);
  }
}
