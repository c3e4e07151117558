/** Directed graphs as lists of targets: chains, cycles, and the levels of an acyclic one. */
module ConstraintGraphs {
  import opened Sequences

  type Edges = seq<seq<nat>>

  ghost predicate EdgesOk(edges: Edges) {
    forall u {:trigger edges[u]} :: 0 <= u < |edges| ==> Distinct(edges[u]) && forall t :: t in edges[u] ==> t < |edges|
  }

  predicate HasEdge(edges: Edges, u: nat, v: nat) {
    u < |edges| && v in edges[u]
  }

  /** Nodes that follow one another along edges. */
  ghost predicate Chain(edges: Edges, p: seq<nat>) {
    && (forall i :: 0 <= i < |p| ==> p[i] < |edges|)
    && (forall i {:trigger p[i]} :: 0 <= i < |p| - 1 ==> HasEdge(edges, p[i], p[i + 1]))
  }

  ghost predicate IsCycle(edges: Edges, c: seq<nat>) {
    c != [] && Chain(edges, c) && HasEdge(edges, c[|c| - 1], c[0])
  }

  ghost predicate Acyclic(edges: Edges) {
    forall c :: !IsCycle(edges, c)
  }

  /** Every edge leads to a greater number. */
  ghost predicate Rises(edges: Edges, number: seq<nat>) {
    |number| == |edges| && forall u: nat, v: nat :: HasEdge(edges, u, v) ==> u < |edges| && v < |edges| && number[u] < number[v]
  }

  /** Every edge leads to a smaller number. */
  ghost predicate Falls(edges: Edges, number: seq<nat>) {
    |number| == |edges| && forall u: nat, v: nat :: HasEdge(edges, u, v) ==> u < |edges| && v < |edges| && number[v] < number[u]
  }

  lemma {:induction false} ChainRises(edges: Edges, number: seq<nat>, p: seq<nat>)
    requires Rises(edges, number) && Chain(edges, p) && p != []
    ensures number[p[0]] + |p| - 1 <= number[p[|p| - 1]]
  {
    if |p| > 1 {
      var q := p[..|p| - 1];
      assert forall i :: 0 <= i < |q| ==> q[i] == p[i];
      ChainRises(edges, number, q);
      assert HasEdge(edges, p[|p| - 2], p[|p| - 2 + 1]);
    }
  }

  lemma RisesAcyclic(edges: Edges, number: seq<nat>)
    requires Rises(edges, number)
    ensures Acyclic(edges)
  {
    forall c ensures !IsCycle(edges, c) {
      if c != [] && Chain(edges, c) {
        ChainRises(edges, number, c);
      }
    }
  }

  lemma {:induction false} ChainFalls(edges: Edges, number: seq<nat>, p: seq<nat>)
    requires Falls(edges, number) && Chain(edges, p) && p != []
    ensures number[p[|p| - 1]] + |p| - 1 <= number[p[0]]
  {
    if |p| > 1 {
      var q := p[..|p| - 1];
      assert forall i :: 0 <= i < |q| ==> q[i] == p[i];
      ChainFalls(edges, number, q);
      assert HasEdge(edges, p[|p| - 2], p[|p| - 2 + 1]);
    }
  }

  lemma FallsAcyclic(edges: Edges, number: seq<nat>)
    requires Falls(edges, number)
    ensures Acyclic(edges)
  {
    forall c ensures !IsCycle(edges, c) {
      if c != [] && Chain(edges, c) {
        ChainFalls(edges, number, c);
      }
    }
  }

  // ----- Levels -----

  /** Every node is in one level, once; edges lead to later levels; and whatever is not in the first level
      has an edge into it from the level before. */
  ghost predicate Levelled(edges: Edges, levels: seq<seq<nat>>, levelOf: seq<nat>) {
    && Rises(edges, levelOf)
    && (forall v :: 0 <= v < |edges| ==> levelOf[v] < |levels| && v in levels[levelOf[v]])
    && (forall l, v {:trigger v in levels[l]} :: 0 <= l < |levels| && v in levels[l] ==> v < |edges| && levelOf[v] == l)
    && (forall l :: 0 <= l < |levels| ==> Distinct(levels[l]) && levels[l] != [])
    && (forall v :: 0 <= v < |edges| && levelOf[v] > 0 ==> ReachedFrom(edges, levelOf, v, levelOf[v] - 1))
  }

  ghost predicate ReachedFrom(edges: Edges, levelOf: seq<nat>, v: nat, level: nat) {
    exists u :: 0 <= u < |edges| && u < |levelOf| && HasEdge(edges, u, v) && levelOf[u] == level
  }

  /** The level of a node is the length of the longest chain before it. */
  lemma LevelIsLongestChain(edges: Edges, levels: seq<seq<nat>>, levelOf: seq<nat>, v: nat)
    requires Levelled(edges, levels, levelOf) && v < |edges|
    ensures forall p :: Chain(edges, p) && p != [] && p[|p| - 1] == v ==> |p| - 1 <= levelOf[v]
    ensures exists p :: Chain(edges, p) && |p| == levelOf[v] + 1 && p[|p| - 1] == v
  {
    forall p | Chain(edges, p) && p != [] && p[|p| - 1] == v ensures |p| - 1 <= levelOf[v] {
      ChainRises(edges, levelOf, p);
    }
    var q := ChainTo(edges, levels, levelOf, v);
  }

  lemma {:induction false} ChainTo(edges: Edges, levels: seq<seq<nat>>, levelOf: seq<nat>, v: nat) returns (p: seq<nat>)
    requires Levelled(edges, levels, levelOf) && v < |edges|
    ensures Chain(edges, p) && |p| == levelOf[v] + 1 && p[|p| - 1] == v
    decreases levelOf[v]
  {
    if levelOf[v] == 0 {
      p := [v];
    } else {
      assert ReachedFrom(edges, levelOf, v, levelOf[v] - 1);
      var u :| 0 <= u < |edges| && u < |levelOf| && HasEdge(edges, u, v) && levelOf[u] == levelOf[v] - 1;
      var q := ChainTo(edges, levels, levelOf, u);
      p := q + [v];
      ChainExtends(edges, q, v);
    }
  }

  lemma ChainExtends(edges: Edges, p: seq<nat>, v: nat)
    requires Chain(edges, p) && v < |edges| && (p != [] ==> HasEdge(edges, p[|p| - 1], v))
    ensures Chain(edges, p + [v])
  {
    var q := p + [v];
    forall i | 0 <= i < |q| - 1 ensures HasEdge(edges, q[i], q[i + 1]) {
      if i < |p| - 1 {
        assert HasEdge(edges, p[i], p[i + 1]);
      }
    }
  }

  /** Two nodes joined by an edge are never in one level. */
  lemma LevelsKeepApart(edges: Edges, levels: seq<seq<nat>>, levelOf: seq<nat>, l: nat, u: nat, v: nat)
    requires Levelled(edges, levels, levelOf) && l < |levels| && u in levels[l] && v in levels[l]
    ensures u < |edges| && v < |edges| && !HasEdge(edges, u, v)
  {
  }

  // ----- Depth-first search -----

  /** What a search that has found no cycle knows: `path` is the chain of open nodes, and the finished ones
      lead only to nodes finished earlier. */
  ghost predicate Open(edges: Edges, state: seq<nat>, path: seq<nat>, time: seq<nat>, clock: nat) {
    && |state| == |time| == |edges|
    && Distinct(path) && Chain(edges, path)
    && (forall u :: 0 <= u < |edges| ==> state[u] <= 2 && (state[u] == 1 <==> u in path))
    && (forall u :: 0 <= u < |edges| && state[u] == 2 ==> Finished(edges, state, time, clock, u))
  }

  ghost predicate Finished(edges: Edges, state: seq<nat>, time: seq<nat>, clock: nat, u: nat)
    requires u < |edges| == |state| == |time|
  {
    time[u] < clock && forall v :: v in edges[u] ==> v < |edges| && state[v] == 2 && time[v] < time[u]
  }

  ghost function Unvisited(state: seq<nat>): set<nat> {
    set u | 0 <= u < |state| && state[u] == 0
  }

  /** What was finished stays so, and a node in the open path stays there. */
  ghost predicate Later(state: seq<nat>, state': seq<nat>) {
    |state| == |state'| && forall u :: 0 <= u < |state| ==>
      (state[u] == 2 ==> state'[u] == 2) && (state[u] == 1 <==> state'[u] == 1)
  }

  lemma LaterUnvisited(state: seq<nat>, state': seq<nat>)
    requires Later(state, state') && forall u :: 0 <= u < |state| ==> state[u] <= 2
    ensures Unvisited(state') <= Unvisited(state)
  {
    forall u | u in Unvisited(state') ensures u in Unvisited(state) {
    }
  }

  /** The path goes down one more node. */
  lemma Opens(edges: Edges, state: seq<nat>, path: seq<nat>, time: seq<nat>, clock: nat, node: nat)
    requires Open(edges, state, path, time, clock) && node < |edges| && state[node] == 0
    requires path == [] || HasEdge(edges, path[|path| - 1], node)
    ensures Open(edges, state[node := 1], path + [node], time, clock)
    ensures Unvisited(state[node := 1]) < Unvisited(state)
  {
    var path', state' := path + [node], state[node := 1];
    assert node !in path;
    forall u | 0 <= u < |edges| && state'[u] == 2 ensures Finished(edges, state', time, clock, u) {
      assert Finished(edges, state, time, clock, u);
    }
    ChainExtends(edges, path, node);
    assert node in Unvisited(state) && node !in Unvisited(state');
    assert forall u :: u in Unvisited(state') ==> u in Unvisited(state);
  }

  /** The last node of the path, all of whose targets are finished, is finished too. */
  lemma Closes(edges: Edges, state: seq<nat>, path: seq<nat>, time: seq<nat>, clock: nat, node: nat)
    requires Open(edges, state, path + [node], time, clock) && node < |edges|
    requires forall v :: v in edges[node] ==> v < |edges| && state[v] == 2
    ensures Open(edges, state[node := 2], path, time[node := clock], clock + 1)
  {
    var path', state', time' := path + [node], state[node := 2], time[node := clock];
    assert path'[|path|] == node;
    assert forall i :: 0 <= i < |path| ==> path'[i] == path[i];
    assert node in path' && node !in path;
    forall u | 0 <= u < |edges| ensures state'[u] == 1 <==> u in path {
      assert u in path' <==> u in path || u == node;
    }
    forall u | 0 <= u < |edges| && state'[u] == 2 ensures Finished(edges, state', time', clock + 1, u) {
      if u != node {
        assert Finished(edges, state, time, clock, u);
      } else {
        forall v | v in edges[node] ensures time'[v] < time'[node] {
          assert Finished(edges, state, time, clock, v);
        }
      }
    }
  }

  /** An edge back into the path closes a cycle. */
  lemma BackEdge(edges: Edges, state: seq<nat>, path: seq<nat>, time: seq<nat>, clock: nat, target: nat)
    requires Open(edges, state, path, time, clock) && path != []
    requires target < |edges| && state[target] == 1 && HasEdge(edges, path[|path| - 1], target)
    ensures target in path && IsCycle(edges, path[IndexOf(path, target)..])
  {
    hide Chain;
    hide Finished;
    hide HasEdge;
    var k := IndexOf(path, target);
    ChainSuffix(edges, path, k);
    var c := path[k..];
    assert c[0] == target && c[|c| - 1] == path[|path| - 1];
  }

  lemma ChainSuffix(edges: Edges, p: seq<nat>, k: nat)
    requires Chain(edges, p) && k <= |p|
    ensures Chain(edges, p[k..])
  {
    hide HasEdge;
    var c := p[k..];
    forall i | 0 <= i < |c| - 1 ensures HasEdge(edges, c[i], c[i + 1]) {
      assert c[i] == p[k + i] && c[i + 1] == p[(k + i) + 1];
    }
  }

  lemma AllFinished(edges: Edges, state: seq<nat>, time: seq<nat>, clock: nat)
    requires Open(edges, state, [], time, clock)
    requires forall u :: 0 <= u < |edges| ==> state[u] == 2
    ensures Falls(edges, time) && Acyclic(edges)
  {
    forall u: nat, v: nat | HasEdge(edges, u, v) ensures u < |edges| && v < |edges| && time[v] < time[u] {
      assert Finished(edges, state, time, clock, u);
    }
    FallsAcyclic(edges, time);
  }

  // ----- Counting what a node waits for -----

  /** The nodes with an edge into `v` that are neither processed nor in `done`. */
  ghost function Waiting(edges: Edges, processed: seq<bool>, done: set<nat>, v: nat): set<nat>
    requires |processed| == |edges|
  {
    set u | 0 <= u < |edges| && !processed[u] && u !in done && HasEdge(edges, u, v)
  }

  lemma WaitingLess(edges: Edges, processed: seq<bool>, done: set<nat>, v: nat, node: nat)
    requires |processed| == |edges| && node < |edges| && !processed[node] && node !in done
    ensures |Waiting(edges, processed, done + {node}, v)| ==
            |Waiting(edges, processed, done, v)| - if HasEdge(edges, node, v) then 1 else 0
  {
    var w, w' := Waiting(edges, processed, done, v), Waiting(edges, processed, done + {node}, v);
    if HasEdge(edges, node, v) {
      assert w == w' + {node};
    } else {
      assert w == w';
    }
  }

  /** In a graph without cycles some node waits for nothing. */
  lemma {:induction false} NeverStuck(edges: Edges, processed: seq<bool>, number: seq<nat>, v: nat, top: nat)
    requires |processed| == |edges| && Falls(edges, number) && v < |edges| && !processed[v]
    requires forall u :: 0 <= u < |edges| ==> number[u] <= top
    ensures exists u :: 0 <= u < |edges| && !processed[u] && Waiting(edges, processed, {}, u) == {}
    decreases top - number[v]
  {
    if Waiting(edges, processed, {}, v) != {} {
      var u :| u in Waiting(edges, processed, {}, v);
      NeverStuck(edges, processed, number, u, top);
    }
  }

  lemma {:induction false} Largest(number: seq<nat>) returns (top: nat)
    ensures forall u :: 0 <= u < |number| ==> number[u] <= top
  {
    if number == [] {
      top := 0;
    } else {
      top := Largest(number[..|number| - 1]);
      if number[|number| - 1] > top {
        top := number[|number| - 1];
      }
    }
  }
}
