/** Reachability in a directed graph given as a set of edges: the reference meaning that the
    cycle search and the dependency walk are checked against. */
module Digraph {

  /** `v` is exactly `k` edges away from `u` along some path. */
  ghost predicate Steps<T(!new)>(E: set<(T, T)>, u: T, v: T, k: nat)
    decreases k
  {
    if k == 0 then u == v else exists w :: (u, w) in E && Steps(E, w, v, k - 1)
  }

  ghost predicate Reach<T(!new)>(E: set<(T, T)>, u: T, v: T) {
    exists k: nat :: Steps(E, u, v, k)
  }

  /** Reachable by a non-empty path. */
  ghost predicate ReachPlus<T(!new)>(E: set<(T, T)>, u: T, v: T) {
    exists w :: (u, w) in E && Reach(E, w, v)
  }

  /** In the same strongly connected component. */
  ghost predicate Mutual<T(!new)>(E: set<(T, T)>, u: T, v: T) {
    Reach(E, u, v) && Reach(E, v, u)
  }

  ghost predicate Closed<T(!new)>(E: set<(T, T)>, S: set<T>) {
    forall u, v :: (u, v) in E && u in S ==> v in S
  }

  lemma ReachRefl<T(!new)>(E: set<(T, T)>, u: T)
    ensures Reach(E, u, u)
  {
    assert Steps(E, u, u, 0);
  }

  lemma ReachEdge<T(!new)>(E: set<(T, T)>, u: T, v: T)
    requires (u, v) in E
    ensures Reach(E, u, v)
  {
    assert Steps(E, v, v, 0);
    assert Steps(E, u, v, 1);
  }

  lemma {:induction false} StepsCompose<T(!new)>(E: set<(T, T)>, u: T, v: T, w: T, j: nat, k: nat)
    requires Steps(E, u, v, j) && Steps(E, v, w, k)
    ensures Steps(E, u, w, j + k)
  {
    if j > 0 {
      var x :| (u, x) in E && Steps(E, x, v, j - 1);
      StepsCompose(E, x, v, w, j - 1, k);
    }
  }

  lemma ReachTrans<T(!new)>(E: set<(T, T)>, u: T, v: T, w: T)
    requires Reach(E, u, v) && Reach(E, v, w)
    ensures Reach(E, u, w)
  {
    var j: nat :| Steps(E, u, v, j);
    var k: nat :| Steps(E, v, w, k);
    StepsCompose(E, u, v, w, j, k);
  }

  lemma {:induction false} StepsClosed<T(!new)>(E: set<(T, T)>, S: set<T>, u: T, v: T, k: nat)
    requires Closed(E, S) && u in S && Steps(E, u, v, k)
    ensures v in S
  {
    if k > 0 {
      var x :| (u, x) in E && Steps(E, x, v, k - 1);
      StepsClosed(E, S, x, v, k - 1);
    }
  }

  /** A set closed under edges is never left. */
  lemma ReachClosed<T(!new)>(E: set<(T, T)>, S: set<T>, u: T, v: T)
    requires Closed(E, S) && u in S && Reach(E, u, v)
    ensures v in S
  {
    var k: nat :| Steps(E, u, v, k);
    StepsClosed(E, S, u, v, k);
  }

  /** A path that does not stay at its start leaves it by an edge. */
  lemma ReachSplit<T(!new)>(E: set<(T, T)>, u: T, v: T)
    requires Reach(E, u, v) && u != v
    ensures ReachPlus(E, u, v)
  {
    var k: nat :| Steps(E, u, v, k);
    var x :| (u, x) in E && Steps(E, x, v, k - 1);
    assert Reach(E, x, v);
  }

  lemma MutualTrans<T(!new)>(E: set<(T, T)>, u: T, v: T, w: T)
    requires Mutual(E, u, v) && Mutual(E, v, w)
    ensures Mutual(E, u, w) && Mutual(E, w, u)
  {
    ReachTrans(E, u, v, w);
    ReachTrans(E, w, v, u);
  }

  /** Lying on a cycle is having a component of several nodes, or a self-edge. */
  lemma OnCycle<T(!new)>(E: set<(T, T)>, u: T)
    ensures ReachPlus(E, u, u) <==> ((u, u) in E || exists v :: v != u && Mutual(E, u, v))
  {
    ReachRefl(E, u);
    if ReachPlus(E, u, u) {
      var x :| (u, x) in E && Reach(E, x, u);
      ReachEdge(E, u, x);
      if x != u { assert Mutual(E, u, x); }
    }
    if v :| v != u && Mutual(E, u, v) {
      ReachSplit(E, u, v);
      var x :| (u, x) in E && Reach(E, x, v);
      ReachTrans(E, x, v, u);
    }
  }
}
