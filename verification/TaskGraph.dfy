/** The schedule's task graph: which system must run before which, and in which level each runs. */
module TaskGraphs {
  import opened Sequences
  import opened ScheduleAccesses
  import opened ConstraintGraphs

  datatype Slot = Regular | Terminal

  datatype Order = Before | After

  datatype OrderConstraint = OrderConstraint(systemType: nat, order: Order)

  datatype ScheduleEntry = ScheduleEntry(access: Access, orderConstraints: seq<OrderConstraint>, priority: int, slot: Slot)

  datatype Outcome =
    | Built(levels: seq<seq<nat>>)
    | Cyclic(cycle: seq<nat>)
    | EqualPriority(first: nat, second: nat)

  /** What the schedule guarantees: declared accesses, and constraints on registered systems only. */
  ghost predicate ScheduleOk(entries: seq<ScheduleEntry>, entryByType: map<nat, nat>) {
    && (forall i :: 0 <= i < |entries| ==> AccessOk(entries[i].access))
    && (forall i, k :: 0 <= i < |entries| && 0 <= k < |entries[i].orderConstraints| ==>
          entries[i].orderConstraints[k].systemType in entryByType)
    && (forall t :: t in entryByType ==> entryByType[t] < |entries|)
  }

  // ----- What must precede what -----

  function ConstraintEdge(entryByType: map<nat, nat>, i: nat, c: OrderConstraint): (nat, nat)
    requires c.systemType in entryByType
  {
    if c.order.Before? then (i, entryByType[c.systemType]) else (entryByType[c.systemType], i)
  }

  /** Constraint `k` of system `i` puts `u` before `v`. */
  ghost predicate Declares(entries: seq<ScheduleEntry>, entryByType: map<nat, nat>, i: nat, k: nat, u: nat, v: nat) {
    && i < |entries| && k < |entries[i].orderConstraints| && entries[i].orderConstraints[k].systemType in entryByType
    && ConstraintEdge(entryByType, i, entries[i].orderConstraints[k]) == (u, v)
  }

  ghost predicate Explicit(entries: seq<ScheduleEntry>, entryByType: map<nat, nat>, u: nat, v: nat) {
    exists i: nat, k: nat :: Declares(entries, entryByType, i, k, u, v)
  }

  ghost predicate Slotted(entries: seq<ScheduleEntry>, u: nat, v: nat) {
    u < |entries| && v < |entries| && entries[u].slot.Regular? && entries[v].slot.Terminal?
  }

  /** Declared or slotted order, which overrules priorities. */
  ghost predicate Forced(entries: seq<ScheduleEntry>, entryByType: map<nat, nat>, u: nat, v: nat) {
    Explicit(entries, entryByType, u, v) || Slotted(entries, u, v)
  }

  /** Two systems that conflict and that nothing else orders. */
  ghost predicate Contended(entries: seq<ScheduleEntry>, entryByType: map<nat, nat>, u: nat, v: nat) {
    && u < |entries| && v < |entries| && u != v && Conflicting(entries[u].access, entries[v].access)
    && !Forced(entries, entryByType, u, v) && !Forced(entries, entryByType, v, u)
  }

  ghost predicate MustPrecede(entries: seq<ScheduleEntry>, entryByType: map<nat, nat>, u: nat, v: nat) {
    || Forced(entries, entryByType, u, v)
    || (Contended(entries, entryByType, u, v) && entries[u].priority < entries[v].priority)
  }

  ghost predicate EdgesMean(entries: seq<ScheduleEntry>, entryByType: map<nat, nat>, edges: Edges) {
    && |edges| == |entries|
    && forall u: nat, v: nat :: HasEdge(edges, u, v) <==> MustPrecede(entries, entryByType, u, v)
  }

  // ----- Edges and indegrees -----

  function Nobody(n: nat): (processed: seq<bool>)
    ensures |processed| == n && forall i :: 0 <= i < n ==> !processed[i]
  {
    seq(n, _ => false)
  }

  /** The indegrees count the edges. */
  ghost predicate GraphOk(edges: Edges, indegree: seq<nat>) {
    && EdgesOk(edges) && |indegree| == |edges|
    && forall v :: 0 <= v < |edges| ==> indegree[v] == |Waiting(edges, Nobody(|edges|), {}, v)|
  }

  method AddEdge(edges: Edges, indegree: seq<nat>, before: nat, after: nat) returns (edges': Edges, indegree': seq<nat>)
    requires GraphOk(edges, indegree) && before < |edges| && after < |edges|
    ensures GraphOk(edges', indegree') && |edges'| == |edges|
    ensures forall u: nat, v: nat :: HasEdge(edges', u, v) <==> HasEdge(edges, u, v) || (u == before && v == after)
  {
    edges', indegree' := edges, indegree;
    if after in edges[before] {
      return;
    }
    edges' := edges[before := edges[before] + [after]];
    indegree' := indegree[after := indegree[after] + 1];
    var nobody := Nobody(|edges|);
    forall v | 0 <= v < |edges| ensures indegree'[v] == |Waiting(edges', nobody, {}, v)| {
      var w, w' := Waiting(edges, nobody, {}, v), Waiting(edges', nobody, {}, v);
      if v == after {
        assert w' == w + {before};
      } else {
        assert w' == w;
      }
    }
  }

  type Matrix = seq<seq<bool>>

  ghost predicate OrderedAre(n: nat, ordered: Matrix, forced: set<(nat, nat)>) {
    && |ordered| == n && (forall u :: 0 <= u < n ==> |ordered[u]| == n)
    && forall u, v :: 0 <= u < n && 0 <= v < n ==> (ordered[u][v] <==> (u, v) in forced || (v, u) in forced)
  }

  ghost predicate EdgesAre(edges: Edges, forced: set<(nat, nat)>) {
    forall u: nat, v: nat :: HasEdge(edges, u, v) <==> (u, v) in forced
  }

  /** Records that `before` runs before `after`, whatever their priorities. */
  method Force(edges: Edges, indegree: seq<nat>, ordered: Matrix, ghost forced: set<(nat, nat)>, before: nat, after: nat)
    returns (edges': Edges, indegree': seq<nat>, ordered': Matrix)
    requires GraphOk(edges, indegree) && before < |edges| && after < |edges|
    requires OrderedAre(|edges|, ordered, forced) && EdgesAre(edges, forced)
    ensures GraphOk(edges', indegree') && |edges'| == |edges|
    ensures OrderedAre(|edges|, ordered', forced + {(before, after)}) && EdgesAre(edges', forced + {(before, after)})
  {
    hide GraphOk;
    ordered' := ordered[before := ordered[before][after := true]];
    ordered' := ordered'[after := ordered'[after][before := true]];
    edges', indegree' := AddEdge(edges, indegree, before, after);
  }

  /** The constraints before number `b` of system `a`. */
  ghost predicate DeclaredBefore(entries: seq<ScheduleEntry>, entryByType: map<nat, nat>, a: nat, b: nat, u: nat, v: nat) {
    exists i: nat, k: nat :: (i < a || (i == a && k < b)) && Declares(entries, entryByType, i, k, u, v)
  }

  ghost predicate ForcedAre(entries: seq<ScheduleEntry>, entryByType: map<nat, nat>, a: nat, b: nat, forced: set<(nat, nat)>) {
    forall u: nat, v: nat :: (u, v) in forced <==> DeclaredBefore(entries, entryByType, a, b, u, v)
  }

  lemma ForcedNone(entries: seq<ScheduleEntry>, entryByType: map<nat, nat>)
    ensures ForcedAre(entries, entryByType, 0, 0, {})
  {
  }

  lemma ForcedOne(entries: seq<ScheduleEntry>, entryByType: map<nat, nat>, a: nat, b: nat, forced: set<(nat, nat)>)
    requires ForcedAre(entries, entryByType, a, b, forced)
    requires a < |entries| && b < |entries[a].orderConstraints| && entries[a].orderConstraints[b].systemType in entryByType
    ensures ForcedAre(entries, entryByType, a, b + 1, forced + {ConstraintEdge(entryByType, a, entries[a].orderConstraints[b])})
  {
    var e := ConstraintEdge(entryByType, a, entries[a].orderConstraints[b]);
    forall u: nat, v: nat
      ensures (u, v) in forced + {e} <==> DeclaredBefore(entries, entryByType, a, b + 1, u, v)
    {
      if (u, v) == e {
        assert Declares(entries, entryByType, a, b, u, v);
      } else if DeclaredBefore(entries, entryByType, a, b + 1, u, v) {
        var i: nat, k: nat :| (i < a || (i == a && k < b + 1)) && Declares(entries, entryByType, i, k, u, v);
        assert i < a || k < b;
      }
    }
  }

  lemma ForcedNext(entries: seq<ScheduleEntry>, entryByType: map<nat, nat>, a: nat, forced: set<(nat, nat)>)
    requires a < |entries| && ForcedAre(entries, entryByType, a, |entries[a].orderConstraints|, forced)
    ensures ForcedAre(entries, entryByType, a + 1, 0, forced)
  {
    forall u: nat, v: nat
      ensures DeclaredBefore(entries, entryByType, a + 1, 0, u, v)
          <==> DeclaredBefore(entries, entryByType, a, |entries[a].orderConstraints|, u, v)
    {
    }
  }

  lemma ForcedAll(entries: seq<ScheduleEntry>, entryByType: map<nat, nat>, forced: set<(nat, nat)>)
    requires ForcedAre(entries, entryByType, |entries|, 0, forced)
    ensures forall u: nat, v: nat :: (u, v) in forced <==> Explicit(entries, entryByType, u, v)
  {
    forall u: nat, v: nat
      ensures DeclaredBefore(entries, entryByType, |entries|, 0, u, v) <==> Explicit(entries, entryByType, u, v)
    {
    }
  }

  lemma NoEdges(n: nat)
    ensures GraphOk(seq(n, _ => []), seq(n, _ => 0)) && EdgesAre(seq(n, _ => []), {})
  {
    var edges: Edges := seq(n, _ => []);
    forall v | 0 <= v < n ensures |Waiting(edges, Nobody(n), {}, v)| == 0 {
      assert Waiting(edges, Nobody(n), {}, v) == {};
    }
  }

  method AddExplicitEdges(entries: seq<ScheduleEntry>, entryByType: map<nat, nat>)
    returns (edges: Edges, indegree: seq<nat>, ordered: Matrix, ghost forced: set<(nat, nat)>)
    requires ScheduleOk(entries, entryByType)
    ensures GraphOk(edges, indegree) && |edges| == |entries|
    ensures OrderedAre(|edges|, ordered, forced) && EdgesAre(edges, forced)
    ensures forall u: nat, v: nat :: (u, v) in forced <==> Explicit(entries, entryByType, u, v)
  {
    hide GraphOk;
    hide OrderedAre;
    hide EdgesAre;
    hide ForcedAre;
    hide Explicit;
    var n := |entries|;
    edges, indegree, forced := seq(n, _ => []), seq(n, _ => 0), {};
    ordered := seq(n, _ => seq(n, _ => false));
    NoEdges(n);
    assert OrderedAre(n, ordered, forced) by { NothingOrdered(n); }
    ForcedNone(entries, entryByType);
    var i := 0;
    while i < n
      invariant i <= n && GraphOk(edges, indegree) && |edges| == n
      invariant OrderedAre(n, ordered, forced) && EdgesAre(edges, forced)
      invariant ForcedAre(entries, entryByType, i, 0, forced)
    {
      var constraints := entries[i].orderConstraints;
      var k := 0;
      while k < |constraints|
        invariant k <= |constraints| && GraphOk(edges, indegree) && |edges| == n
        invariant OrderedAre(n, ordered, forced) && EdgesAre(edges, forced)
        invariant ForcedAre(entries, entryByType, i, k, forced)
      {
        var target := entryByType[constraints[k].systemType];
        ForcedOne(entries, entryByType, i, k, forced);
        if constraints[k].order.Before? {
          edges, indegree, ordered := Force(edges, indegree, ordered, forced, i, target);
        } else {
          edges, indegree, ordered := Force(edges, indegree, ordered, forced, target, i);
        }
        forced := forced + {ConstraintEdge(entryByType, i, constraints[k])};
        k := k + 1;
      }
      ForcedNext(entries, entryByType, i, forced);
      i := i + 1;
    }
    ForcedAll(entries, entryByType, forced);
  }

  lemma NothingOrdered(n: nat)
    ensures OrderedAre(n, seq(n, _ => seq(n, _ => false)), {})
  {
  }

  /** Terminal systems before number `t`, with every regular one, and `t` with those before number `r`. */
  ghost predicate SlottedBefore(entries: seq<ScheduleEntry>, t: nat, r: nat, u: nat, v: nat) {
    Slotted(entries, u, v) && (v < t || (v == t && u < r))
  }

  method AddTerminalEdges(entries: seq<ScheduleEntry>, edges0: Edges, indegree0: seq<nat>, ordered0: Matrix,
                          ghost forced0: set<(nat, nat)>)
    returns (edges: Edges, indegree: seq<nat>, ordered: Matrix, ghost forced: set<(nat, nat)>)
    requires GraphOk(edges0, indegree0) && |edges0| == |entries|
    requires OrderedAre(|edges0|, ordered0, forced0) && EdgesAre(edges0, forced0)
    ensures GraphOk(edges, indegree) && |edges| == |entries|
    ensures OrderedAre(|edges|, ordered, forced) && EdgesAre(edges, forced)
    ensures forall u: nat, v: nat :: (u, v) in forced <==> (u, v) in forced0 || Slotted(entries, u, v)
  {
    hide GraphOk;
    hide OrderedAre;
    hide EdgesAre;
    edges, indegree, ordered, forced := edges0, indegree0, ordered0, forced0;
    var n := |entries|;
    var terminal := 0;
    while terminal < n
      invariant terminal <= n && GraphOk(edges, indegree) && |edges| == n
      invariant OrderedAre(n, ordered, forced) && EdgesAre(edges, forced)
      invariant forall u: nat, v: nat :: (u, v) in forced <==> (u, v) in forced0 || SlottedBefore(entries, terminal, 0, u, v)
    {
      if entries[terminal].slot.Terminal? {
        var regular := 0;
        while regular < n
          invariant regular <= n && GraphOk(edges, indegree) && |edges| == n
          invariant OrderedAre(n, ordered, forced) && EdgesAre(edges, forced)
          invariant forall u: nat, v: nat ::
                      (u, v) in forced <==> (u, v) in forced0 || SlottedBefore(entries, terminal, regular, u, v)
        {
          if entries[regular].slot.Regular? {
            edges, indegree, ordered := Force(edges, indegree, ordered, forced, regular, terminal);
            forced := forced + {(regular, terminal)};
          }
          regular := regular + 1;
        }
      }
      terminal := terminal + 1;
    }
  }

  // ----- Conflicts -----

  ghost predicate Undecided(entries: seq<ScheduleEntry>, forced: set<(nat, nat)>, u: nat, v: nat) {
    && u < |entries| && v < |entries| && u != v && Conflicting(entries[u].access, entries[v].access)
    && (u, v) !in forced && (v, u) !in forced
  }

  /** Of the pairs before (f, s), counted with the smaller number first, the undecided ones go by priority. */
  ghost predicate ByPriority(entries: seq<ScheduleEntry>, forced: set<(nat, nat)>, f: nat, s: nat, u: nat, v: nat) {
    && Undecided(entries, forced, u, v) && entries[u].priority < entries[v].priority
    && var lo, hi := if u < v then u else v, if u < v then v else u;
       lo < f || (lo == f && hi < s)
  }

  ghost predicate Differ(entries: seq<ScheduleEntry>, forced: set<(nat, nat)>, f: nat, s: nat) {
    forall u: nat, v: nat :: Undecided(entries, forced, u, v) && u < v && (u < f || (u == f && v < s)) ==>
      entries[u].priority != entries[v].priority
  }

  ghost predicate ConflictEdges(entries: seq<ScheduleEntry>, forced: set<(nat, nat)>, f: nat, s: nat, edges: Edges) {
    forall u: nat, v: nat :: HasEdge(edges, u, v) <==> (u, v) in forced || ByPriority(entries, forced, f, s, u, v)
  }

  lemma ConflictNext(entries: seq<ScheduleEntry>, forced: set<(nat, nat)>, f: nat, edges: Edges)
    requires ConflictEdges(entries, forced, f, |entries|, edges) && Differ(entries, forced, f, |entries|)
    ensures ConflictEdges(entries, forced, f + 1, f + 2, edges) && Differ(entries, forced, f + 1, f + 2)
  {
    forall u: nat, v: nat
      ensures ByPriority(entries, forced, f, |entries|, u, v) <==> ByPriority(entries, forced, f + 1, f + 2, u, v)
    {
    }
  }

  lemma ConflictOne(entries: seq<ScheduleEntry>, forced: set<(nat, nat)>, f: nat, s: nat, edges: Edges, edges': Edges)
    requires f < s < |entries| && ConflictEdges(entries, forced, f, s, edges) && Differ(entries, forced, f, s)
    requires if Undecided(entries, forced, f, s)
             then entries[f].priority != entries[s].priority
                  && var before, after := if entries[f].priority < entries[s].priority then f else s,
                                          if entries[f].priority < entries[s].priority then s else f;
                     forall u: nat, v: nat :: HasEdge(edges', u, v) <==> HasEdge(edges, u, v) || (u == before && v == after)
             else edges' == edges
    ensures ConflictEdges(entries, forced, f, s + 1, edges') && Differ(entries, forced, f, s + 1)
  {
    UndecidedSymmetric(entries, forced, f, s);
    forall u: nat, v: nat
      ensures HasEdge(edges', u, v) <==> (u, v) in forced || ByPriority(entries, forced, f, s + 1, u, v)
    {
      assert HasEdge(edges, u, v) <==> (u, v) in forced || ByPriority(entries, forced, f, s, u, v);
    }
  }

  lemma UndecidedSymmetric(entries: seq<ScheduleEntry>, forced: set<(nat, nat)>, u: nat, v: nat)
    ensures Undecided(entries, forced, u, v) <==> Undecided(entries, forced, v, u)
  {
    if u < |entries| && v < |entries| {
      ConflictingSymmetric(entries[u].access, entries[v].access);
    }
  }

  method AddConflictEdges(entries: seq<ScheduleEntry>, edges0: Edges, indegree0: seq<nat>, ordered: Matrix,
                          ghost forced: set<(nat, nat)>)
    returns (clash: bool, first: nat, second: nat, edges: Edges, indegree: seq<nat>)
    requires GraphOk(edges0, indegree0) && |edges0| == |entries|
    requires OrderedAre(|edges0|, ordered, forced) && EdgesAre(edges0, forced)
    requires forall i :: 0 <= i < |entries| ==> AccessOk(entries[i].access)
    ensures GraphOk(edges, indegree) && |edges| == |entries|
    ensures clash ==> Undecided(entries, forced, first, second) && entries[first].priority == entries[second].priority
    ensures !clash ==> Differ(entries, forced, |entries|, |entries| + 1) && ConflictEdges(entries, forced, |entries|, |entries| + 1, edges)
  {
    hide GraphOk;
    hide Conflicting;
    hide ConflictEdges;
    hide Differ;
    edges, indegree, clash, first, second := edges0, indegree0, false, 0, 0;
    var n := |entries|;
    ConflictNone(entries, forced, edges);
    while first < n
      invariant first <= n && GraphOk(edges, indegree) && |edges| == n && !clash
      invariant ConflictEdges(entries, forced, first, first + 1, edges) && Differ(entries, forced, first, first + 1)
    {
      second := first + 1;
      while second < n
        invariant first < second <= n && GraphOk(edges, indegree) && |edges| == n && !clash
        invariant ConflictEdges(entries, forced, first, second, edges) && Differ(entries, forced, first, second)
      {
        ghost var before0 := edges;
        var conflict := Conflicts(entries[first].access, entries[second].access);
        if conflict && !ordered[first][second] {
          if entries[first].priority == entries[second].priority {
            clash := true;
            return;
          }
          var firstRunsFirst := entries[first].priority < entries[second].priority;
          var before := if firstRunsFirst then first else second;
          var after := if firstRunsFirst then second else first;
          edges, indegree := AddEdge(edges, indegree, before, after);
        }
        ConflictOne(entries, forced, first, second, before0, edges);
        second := second + 1;
      }
      ConflictNext(entries, forced, first, edges);
      first := first + 1;
    }
  }

  lemma ConflictNone(entries: seq<ScheduleEntry>, forced: set<(nat, nat)>, edges: Edges)
    requires EdgesAre(edges, forced)
    ensures ConflictEdges(entries, forced, 0, 1, edges) && Differ(entries, forced, 0, 1)
  {
  }

  // ----- Cycles -----

  /** Goes on from `node`; on the way back every node it opened is finished, unless it met a cycle. */
  method FindCycleFrom(node: nat, edges: Edges, state0: seq<nat>, path0: seq<nat>, ghost time0: seq<nat>, ghost clock0: nat)
    returns (found: bool, cycle: seq<nat>, state: seq<nat>, path: seq<nat>, ghost time: seq<nat>, ghost clock: nat)
    requires EdgesOk(edges) && Open(edges, state0, path0, time0, clock0)
    requires node < |edges| && state0[node] == 0 && (path0 == [] || HasEdge(edges, path0[|path0| - 1], node))
    ensures found ==> IsCycle(edges, cycle)
    ensures !found ==> path == path0 && Open(edges, state, path, time, clock) && Later(state0, state) && state[node] == 2
    decreases Unvisited(state0)
  {
    hide Open;
    hide Chain;
    hide IsCycle;
    OpenState(edges, state0, path0, time0, clock0);
    Opens(edges, state0, path0, time0, clock0, node);
    state := state0[node := 1];
    path := path0 + [node];
    time, clock, cycle := time0, clock0, [];
    var k := 0;
    while k < |edges[node]|
      invariant 0 <= k <= |edges[node]| && path == path0 + [node]
      invariant |state| == |edges| && Open(edges, state, path, time, clock)
      invariant Later(state0[node := 1], state)
      invariant forall j :: 0 <= j < k ==> edges[node][j] < |edges| && state[edges[node][j]] == 2
    {
      var target := edges[node][k];
      assert target in edges[node];
      OpenState(edges, state, path, time, clock);
      if state[target] == 0 {
        LaterUnvisited(state0[node := 1], state);
        ghost var before := state;
        found, cycle, state, path, time, clock := FindCycleFrom(target, edges, state, path, time, clock);
        if found {
          return;
        }
        OpenState(edges, state, path, time, clock);
        LaterChain(state0[node := 1], before, state);
      }
      if state[target] == 1 {
        BackEdge(edges, state, path, time, clock, target);
        cycle := path[IndexOf(path, target)..];
        return true, cycle, state, path, time, clock;
      }
      k := k + 1;
    }
    OpenState(edges, state, path, time, clock);
    AllTargets(edges, state, node);
    Closes(edges, state, path0, time, clock, node);
    path := path[..|path| - 1];
    state := state[node := 2];
    time := time[node := clock];
    clock := clock + 1;
    found := false;
  }

  lemma OpenState(edges: Edges, state: seq<nat>, path: seq<nat>, time: seq<nat>, clock: nat)
    requires Open(edges, state, path, time, clock)
    ensures |state| == |time| == |edges| && forall u :: 0 <= u < |edges| ==> state[u] <= 2
  {
  }

  lemma LaterChain(a: seq<nat>, b: seq<nat>, c: seq<nat>)
    requires Later(a, b) && Later(b, c)
    ensures Later(a, c)
  {
  }

  lemma AllTargets(edges: Edges, state: seq<nat>, node: nat)
    requires node < |edges| == |state|
    requires forall j :: 0 <= j < |edges[node]| ==> edges[node][j] < |edges| && state[edges[node][j]] == 2
    ensures forall v :: v in edges[node] ==> v < |edges| && state[v] == 2
  {
  }

  /** A cycle, if there is one; otherwise numbers that fall along every edge. */
  method FindCycle(edges: Edges) returns (cycle: seq<nat>, ghost time: seq<nat>)
    requires EdgesOk(edges)
    ensures cycle != [] ==> IsCycle(edges, cycle)
    ensures cycle == [] ==> Acyclic(edges) && Falls(edges, time)
  {
    hide Open;
    hide Chain;
    var state := seq(|edges|, _ => 0);
    var path: seq<nat> := [];
    ghost var clock := 0;
    time := seq(|edges|, _ => 0);
    NothingOpen(edges);
    var i := 0;
    while i < |edges|
      invariant 0 <= i <= |edges| && path == [] && |state| == |edges| && Open(edges, state, path, time, clock)
      invariant forall u :: 0 <= u < i ==> state[u] == 2
    {
      if state[i] == 0 {
        var found;
        found, cycle, state, path, time, clock := FindCycleFrom(i, edges, state, path, time, clock);
        if found {
          return;
        }
      }
      NothingLeftOpen(edges, state, time, clock, i);
      i := i + 1;
    }
    AllFinished(edges, state, time, clock);
    cycle := [];
  }

  lemma NothingOpen(edges: Edges)
    ensures Open(edges, seq(|edges|, _ => 0), [], seq(|edges|, _ => 0), 0)
  {
  }

  lemma NothingLeftOpen(edges: Edges, state: seq<nat>, time: seq<nat>, clock: nat, i: nat)
    requires Open(edges, state, [], time, clock) && i < |edges|
    ensures |state| == |edges| && (state[i] != 0 ==> state[i] == 2)
  {
  }

  // ----- Levels -----

  /** After some rounds: every processed node sits in its level, above all it waited for, and a node that waits
      for nothing any more waited for something of the last round. */
  ghost predicate Kahn(edges: Edges, processed: seq<bool>, indegree: seq<nat>, levels: seq<seq<nat>>, levelOf: seq<nat>) {
    && |processed| == |indegree| == |levelOf| == |edges|
    && (forall v :: 0 <= v < |edges| ==> indegree[v] == |Waiting(edges, processed, {}, v)|)
    && (forall v :: 0 <= v < |edges| && processed[v] ==> Settled(edges, processed, levels, levelOf, v))
    && LevelsAre(edges, processed, levels, levelOf)
    && (forall l :: 0 <= l < |levels| ==> Distinct(levels[l]) && levels[l] != [])
    && (forall v :: 0 <= v < |edges| && !processed[v] && |levels| > 0 && Waiting(edges, processed, {}, v) == {} ==>
          ReachedFrom(edges, levelOf, v, |levels| - 1))
    && (forall u, v :: 0 <= u < |edges| && 0 <= v < |edges| && !processed[u] && HasEdge(edges, u, v) ==> !processed[v])
  }

  ghost predicate LevelsAre(edges: Edges, processed: seq<bool>, levels: seq<seq<nat>>, levelOf: seq<nat>) {
    && |processed| == |levelOf| == |edges|
    && (forall l, v {:trigger v in levels[l]} :: 0 <= l < |levels| && v in levels[l] ==> v < |edges| && processed[v] && levelOf[v] == l)
  }

  ghost predicate Settled(edges: Edges, processed: seq<bool>, levels: seq<seq<nat>>, levelOf: seq<nat>, v: nat)
    requires |processed| == |levelOf| == |edges| && v < |edges|
  {
    && levelOf[v] < |levels| && v in levels[levelOf[v]]
    && (forall u :: 0 <= u < |edges| && HasEdge(edges, u, v) ==> processed[u] && levelOf[u] < levelOf[v])
    && (levelOf[v] > 0 ==> ReachedFrom(edges, levelOf, v, levelOf[v] - 1))
  }

  lemma KahnStarts(edges: Edges, indegree: seq<nat>)
    requires GraphOk(edges, indegree)
    ensures Kahn(edges, Nobody(|edges|), indegree, [], seq(|edges|, _ => 0))
  {
  }

  ghost predicate IsReady(edges: Edges, processed: seq<bool>, indegree: seq<nat>, v: nat)
    requires |processed| == |indegree| == |edges|
  {
    v < |edges| && !processed[v] && indegree[v] == 0
  }

  method CollectReady(edges: Edges, processed: seq<bool>, indegree: seq<nat>) returns (ready: seq<nat>)
    requires |processed| == |indegree| == |edges|
    ensures Distinct(ready) && forall v: nat :: v in ready <==> IsReady(edges, processed, indegree, v)
  {
    ready := [];
    var i := 0;
    while i < |edges|
      invariant 0 <= i <= |edges| && Distinct(ready)
      invariant forall v: nat :: v in ready <==> v < i && IsReady(edges, processed, indegree, v)
    {
      if !processed[i] && indegree[i] == 0 {
        DistinctConcat(ready, [i]);
        ready := ready + [i];
      }
      i := i + 1;
    }
  }

  /** One less to wait for, for every target of `node`. */
  method ReleaseTargets(edges: Edges, indegree0: seq<nat>, node: nat) returns (indegree: seq<nat>)
    requires EdgesOk(edges) && |indegree0| == |edges| && node < |edges|
    requires forall v :: v in edges[node] ==> indegree0[v] > 0
    ensures |indegree| == |edges|
    ensures forall v :: 0 <= v < |edges| ==> indegree[v] + (if HasEdge(edges, node, v) then 1 else 0) == indegree0[v]
  {
    indegree := indegree0;
    var targets := edges[node];
    assert Distinct(targets);
    var k := 0;
    while k < |targets|
      invariant 0 <= k <= |targets| && |indegree| == |edges|
      invariant forall v :: 0 <= v < |edges| ==> indegree[v] + (if v in targets[..k] then 1 else 0) == indegree0[v]
    {
      var target := targets[k];
      assert target in targets && target !in targets[..k];
      indegree := indegree[target := indegree[target] - 1];
      k := k + 1;
    }
    assert targets[..k] == targets;
  }

  ghost predicate Counts(edges: Edges, processed: seq<bool>, done: set<nat>, indegree: seq<nat>) {
    && |processed| == |indegree| == |edges|
    && forall v :: 0 <= v < |edges| ==> indegree[v] == |Waiting(edges, processed, done, v)|
  }

  ghost function AsSet(nodes: seq<nat>): set<nat> {
    set v | v in nodes
  }

  method ReleaseReady(edges: Edges, processed: seq<bool>, indegree0: seq<nat>, ready: seq<nat>) returns (indegree: seq<nat>)
    requires EdgesOk(edges) && Counts(edges, processed, {}, indegree0) && Distinct(ready)
    requires forall v :: v in ready ==> v < |edges| && !processed[v]
    ensures Counts(edges, processed, AsSet(ready), indegree)
  {
    hide Counts;
    indegree := indegree0;
    ghost var done: set<nat> := {};
    var k := 0;
    while k < |ready|
      invariant 0 <= k <= |ready| && Counts(edges, processed, done, indegree)
      invariant forall v :: v in done <==> v in ready[..k]
    {
      var node := ready[k];
      assert node in ready && node !in ready[..k];
      CountsLess(edges, processed, done, indegree, node);
      ghost var before := indegree;
      indegree := ReleaseTargets(edges, indegree, node);
      CountsAfter(edges, processed, done, node, before, indegree);
      done := done + {node};
      k := k + 1;
    }
    assert ready[..k] == ready;
    assert done == AsSet(ready);
  }

  lemma CountsLess(edges: Edges, processed: seq<bool>, done: set<nat>, indegree: seq<nat>, node: nat)
    requires EdgesOk(edges) && Counts(edges, processed, done, indegree)
    requires node < |edges| && !processed[node] && node !in done
    ensures |indegree| == |edges| && forall v :: v in edges[node] ==> v < |edges| && indegree[v] > 0
  {
    forall v | v in edges[node] ensures v < |edges| && indegree[v] > 0 {
      assert node in Waiting(edges, processed, done, v);
    }
  }

  lemma CountsAfter(edges: Edges, processed: seq<bool>, done: set<nat>, node: nat, indegree0: seq<nat>, indegree: seq<nat>)
    requires Counts(edges, processed, done, indegree0) && node < |edges| && !processed[node] && node !in done
    requires |indegree| == |edges|
    requires forall v :: 0 <= v < |edges| ==> indegree[v] + (if HasEdge(edges, node, v) then 1 else 0) == indegree0[v]
    ensures Counts(edges, processed, done + {node}, indegree)
  {
    forall v | 0 <= v < |edges| ensures indegree[v] == |Waiting(edges, processed, done + {node}, v)| {
      WaitingLess(edges, processed, done, v, node);
    }
  }

  /** The nodes processed so far. */
  ghost function Processed(processed: seq<bool>): set<nat> {
    set i | 0 <= i < |processed| && processed[i]
  }

  /** `processed'` and `levelOf'` after the `ready` nodes were given the next level. */
  ghost predicate Advanced(processed: seq<bool>, processed': seq<bool>, levelOf: seq<nat>, levelOf': seq<nat>,
                           ready: seq<nat>, level: nat) {
    && |processed'| == |processed| == |levelOf| == |levelOf'|
    && forall v :: 0 <= v < |processed| ==>
         && (processed'[v] <==> processed[v] || v in ready)
         && levelOf'[v] == if v in ready then level else levelOf[v]
  }

  lemma WaitingAdvanced(edges: Edges, processed: seq<bool>, processed': seq<bool>, ready: seq<nat>, v: nat)
    requires |processed'| == |processed| == |edges|
    requires forall u :: 0 <= u < |edges| ==> (processed'[u] <==> processed[u] || u in ready)
    ensures Waiting(edges, processed', {}, v) == Waiting(edges, processed, AsSet(ready), v)
  {
  }

  /** A node whose last wait ended in this round waited for one of the ready nodes. */
  lemma LastWait(edges: Edges, processed: seq<bool>, processed': seq<bool>, levelOf': seq<nat>, ready: seq<nat>, level: nat, v: nat)
    requires |processed'| == |processed| == |edges| == |levelOf'| && v < |edges|
    requires forall u :: 0 <= u < |edges| ==> (processed'[u] <==> processed[u] || u in ready)
    requires forall u :: 0 <= u < |edges| && u in ready ==> levelOf'[u] == level
    requires Waiting(edges, processed, {}, v) != {} && Waiting(edges, processed', {}, v) == {}
    ensures ReachedFrom(edges, levelOf', v, level)
  {
    var u :| u in Waiting(edges, processed, {}, v);
    assert u !in Waiting(edges, processed', {}, v);
  }

  lemma SettledStays(edges: Edges, processed: seq<bool>, processed': seq<bool>, levels: seq<seq<nat>>, levelOf: seq<nat>,
                     levelOf': seq<nat>, ready: seq<nat>, v: nat)
    requires |processed| == |levelOf| == |edges| && v < |edges| && processed[v] && Settled(edges, processed, levels, levelOf, v)
    requires Advanced(processed, processed', levelOf, levelOf', ready, |levels|)
    requires forall u :: u in ready ==> u < |edges| && !processed[u]
    ensures Settled(edges, processed', levels + [ready], levelOf', v)
  {
    assert levelOf'[v] == levelOf[v];
    assert (levels + [ready])[levelOf[v]] == levels[levelOf[v]];
    forall u | 0 <= u < |edges| && HasEdge(edges, u, v) ensures processed'[u] && levelOf'[u] < levelOf'[v] {
      assert u !in ready;
    }
    if levelOf[v] > 0 {
      assert ReachedFrom(edges, levelOf, v, levelOf[v] - 1);
      var u :| 0 <= u < |edges| && u < |levelOf| && HasEdge(edges, u, v) && levelOf[u] == levelOf[v] - 1;
      assert levelOf'[u] == levelOf[u];
    }
  }

  lemma ReadySettles(edges: Edges, processed: seq<bool>, processed': seq<bool>, indegree: seq<nat>, levels: seq<seq<nat>>,
                     levelOf: seq<nat>, levelOf': seq<nat>, ready: seq<nat>, v: nat)
    requires Kahn(edges, processed, indegree, levels, levelOf) && v in ready
    requires forall u: nat :: u in ready <==> IsReady(edges, processed, indegree, u)
    requires Advanced(processed, processed', levelOf, levelOf', ready, |levels|)
    ensures v < |edges| && Settled(edges, processed', levels + [ready], levelOf', v)
  {
    assert IsReady(edges, processed, indegree, v);
    assert Waiting(edges, processed, {}, v) == {};
    forall u | 0 <= u < |edges| && HasEdge(edges, u, v) ensures processed'[u] && levelOf'[u] < levelOf'[v] {
      assert u !in Waiting(edges, processed, {}, v);
      assert Settled(edges, processed, levels, levelOf, u);
    }
    if |levels| > 0 {
      assert ReachedFrom(edges, levelOf, v, |levels| - 1);
      var u :| 0 <= u < |edges| && u < |levelOf| && HasEdge(edges, u, v) && levelOf[u] == |levels| - 1;
      assert u !in Waiting(edges, processed, {}, v);
      assert levelOf'[u] == levelOf[u];
    }
  }

  lemma WaitEnded(edges: Edges, processed: seq<bool>, processed': seq<bool>, indegree: seq<nat>, levels: seq<seq<nat>>,
                  levelOf: seq<nat>, levelOf': seq<nat>, ready: seq<nat>, v: nat)
    requires Kahn(edges, processed, indegree, levels, levelOf)
    requires forall u: nat :: u in ready <==> IsReady(edges, processed, indegree, u)
    requires Advanced(processed, processed', levelOf, levelOf', ready, |levels|)
    requires v < |edges| && !processed'[v] && Waiting(edges, processed', {}, v) == {}
    ensures ReachedFrom(edges, levelOf', v, |levels|)
  {
    hide Settled;
    hide HasEdge;
    hide ReachedFrom;
    assert !IsReady(edges, processed, indegree, v);
    assert indegree[v] == |Waiting(edges, processed, {}, v)|;
    LastWait(edges, processed, processed', levelOf', ready, |levels|, v);
  }

  lemma OneMoreLevel(edges: Edges, processed: seq<bool>, processed': seq<bool>, levels: seq<seq<nat>>,
                     levelOf: seq<nat>, levelOf': seq<nat>, ready: seq<nat>)
    requires LevelsAre(edges, processed, levels, levelOf) && forall v :: v in ready ==> v < |edges| && !processed[v]
    requires Advanced(processed, processed', levelOf, levelOf', ready, |levels|)
    ensures LevelsAre(edges, processed', levels + [ready], levelOf')
  {
    var levels' := levels + [ready];
    forall l, v | 0 <= l < |levels'| && v in levels'[l] ensures v < |edges| && processed'[v] && levelOf'[v] == l {
      if l < |levels| {
        assert v in levels[l];
      }
    }
  }

  lemma KahnRound(edges: Edges, processed: seq<bool>, processed': seq<bool>, indegree: seq<nat>, indegree': seq<nat>,
                  levels: seq<seq<nat>>, levelOf: seq<nat>, levelOf': seq<nat>, ready: seq<nat>)
    requires Kahn(edges, processed, indegree, levels, levelOf) && ready != [] && Distinct(ready)
    requires forall u: nat :: u in ready <==> IsReady(edges, processed, indegree, u)
    requires Advanced(processed, processed', levelOf, levelOf', ready, |levels|)
    requires Counts(edges, processed, AsSet(ready), indegree')
    ensures Kahn(edges, processed', indegree', levels + [ready], levelOf')
  {
    hide Settled;
    hide Distinct;
    hide HasEdge;
    hide Waiting;
    hide ReachedFrom;
    hide LevelsAre;
    var levels' := levels + [ready];
    forall v | 0 <= v < |edges| ensures indegree'[v] == |Waiting(edges, processed', {}, v)| {
      WaitingAdvanced(edges, processed, processed', ready, v);
    }
    forall v | 0 <= v < |edges| && processed'[v] ensures Settled(edges, processed', levels', levelOf', v) {
      if processed[v] {
        SettledStays(edges, processed, processed', levels, levelOf, levelOf', ready, v);
      } else {
        ReadySettles(edges, processed, processed', indegree, levels, levelOf, levelOf', ready, v);
      }
    }
    OneMoreLevel(edges, processed, processed', levels, levelOf, levelOf', ready);
    forall l | 0 <= l < |levels'| ensures Distinct(levels'[l]) && levels'[l] != [] {
      assert levels'[l] == if l < |levels| then levels[l] else ready;
    }
    forall v | 0 <= v < |edges| && !processed'[v] && Waiting(edges, processed', {}, v) == {}
      ensures ReachedFrom(edges, levelOf', v, |levels|)
    {
      WaitEnded(edges, processed, processed', indegree, levels, levelOf, levelOf', ready, v);
    }
    forall u, v | 0 <= u < |edges| && 0 <= v < |edges| && !processed'[u] && HasEdge(edges, u, v) ensures !processed'[v] {
      ReadyHasNoWait(edges, processed, indegree, ready, u, v);
    }
  }

  lemma ReadyHasNoWait(edges: Edges, processed: seq<bool>, indegree: seq<nat>, ready: seq<nat>, u: nat, v: nat)
    requires |processed| == |indegree| == |edges| && u < |edges| && v < |edges|
    requires forall x: nat :: x in ready <==> IsReady(edges, processed, indegree, x)
    requires indegree[v] == |Waiting(edges, processed, {}, v)| && !processed[u] && HasEdge(edges, u, v)
    ensures v !in ready
  {
    assert u in Waiting(edges, processed, {}, v);
  }

  lemma KahnEnds(edges: Edges, processed: seq<bool>, indegree: seq<nat>, levels: seq<seq<nat>>, levelOf: seq<nat>)
    requires EdgesOk(edges) && Kahn(edges, processed, indegree, levels, levelOf)
    requires forall v :: 0 <= v < |edges| ==> processed[v]
    ensures Levelled(edges, levels, levelOf) && Acyclic(edges)
  {
    forall u: nat, v: nat | HasEdge(edges, u, v) ensures u < |edges| && v < |edges| && levelOf[u] < levelOf[v] {
      assert v in edges[u];
      assert Settled(edges, processed, levels, levelOf, v);
    }
    forall v | 0 <= v < |edges|
      ensures levelOf[v] < |levels| && v in levels[levelOf[v]]
              && (levelOf[v] > 0 ==> ReachedFrom(edges, levelOf, v, levelOf[v] - 1))
    {
      assert Settled(edges, processed, levels, levelOf, v);
    }
    RisesAcyclic(edges, levelOf);
  }

  method MarkReady(processed0: seq<bool>, ready: seq<nat>, ghost levelOf0: seq<nat>, ghost level: nat)
    returns (processed: seq<bool>, ghost levelOf: seq<nat>)
    requires |levelOf0| == |processed0| && forall v :: v in ready ==> v < |processed0|
    ensures Advanced(processed0, processed, levelOf0, levelOf, ready, level)
    ensures |processed| == |processed0|
    ensures forall v :: 0 <= v < |processed| ==> (processed[v] <==> processed0[v] || v in ready)
  {
    processed, levelOf := processed0, levelOf0;
    var k := 0;
    while k < |ready|
      invariant 0 <= k <= |ready|
      invariant Advanced(processed0, processed, levelOf0, levelOf, ready[..k], level)
    {
      assert ready[k] in ready;
      assert forall v :: v in ready[..k + 1] <==> v in ready[..k] || v == ready[k];
      processed := processed[ready[k] := true];
      levelOf := levelOf[ready[k] := level];
      k := k + 1;
    }
    assert ready[..k] == ready;
  }

  /** As many nodes processed as there are nodes means all of them. */
  lemma AllProcessed(processed: seq<bool>)
    ensures |Processed(processed)| <= |processed|
    ensures |Processed(processed)| == |processed| ==> forall v :: 0 <= v < |processed| ==> processed[v]
  {
    var all := Below(|processed|);
    assert all == Processed(processed) + (all - Processed(processed));
    if |Processed(processed)| == |processed| {
      assert all - Processed(processed) == {};
      forall v | 0 <= v < |processed| ensures processed[v] {
        assert v in all;
      }
    }
  }

  lemma ProcessedMore(processed: seq<bool>, processed': seq<bool>, levelOf: seq<nat>, levelOf': seq<nat>, ready: seq<nat>, level: nat)
    requires Advanced(processed, processed', levelOf, levelOf', ready, level) && Distinct(ready)
    requires forall v :: v in ready ==> v < |processed| && !processed[v]
    ensures |Processed(processed')| == |Processed(processed)| + |ready|
  {
    DistinctCount(ready);
    assert Processed(processed') == Processed(processed) + AsSet(ready);
    assert Processed(processed) * AsSet(ready) == {};
  }

  lemma {:induction false} DistinctCount(s: seq<nat>)
    requires Distinct(s)
    ensures |AsSet(s)| == |s|
  {
    if s != [] {
      var t, last := s[..|s| - 1], s[|s| - 1];
      DistinctCount(t);
      assert s == t + [last];
      assert AsSet(s) == AsSet(t) + {last};
    }
  }

  /** Peels level after level off the graph; when none comes off, there is a cycle to report. */
  method BuildLevels(edges: Edges, indegree0: seq<nat>) returns (outcome: Outcome, ghost levelOf: seq<nat>)
    requires GraphOk(edges, indegree0)
    ensures outcome.Built? <==> Acyclic(edges)
    ensures outcome.Built? ==> Levelled(edges, outcome.levels, levelOf)
    ensures !outcome.Built? ==> outcome.Cyclic? && IsCycle(edges, outcome.cycle)
  {
    hide Acyclic;
    hide IsCycle;
    hide Levelled;
    hide Kahn;
    hide Waiting;
    hide Advanced;
    hide Counts;
    var indegree := indegree0;
    var processed := Nobody(|edges|);
    var processedCount := 0;
    var levels: seq<seq<nat>> := [];
    levelOf := seq(|edges|, _ => 0);
    KahnStarts(edges, indegree);
    assert Processed(processed) == {};
    while processedCount < |edges|
      invariant Kahn(edges, processed, indegree, levels, levelOf)
      invariant |processed| == |indegree| == |levelOf| == |edges|
      invariant processedCount == |Processed(processed)| <= |edges|
      decreases |edges| - processedCount
    {
      var ready := CollectReady(edges, processed, indegree);
      if ready == [] {
        ghost var time;
        var cycle;
        cycle, time := FindCycle(edges);
        StuckMeansCycle(edges, processed, indegree, levels, levelOf, time);
        CycleRefutes(edges, cycle);
        return Cyclic(cycle), levelOf;
      }
      KahnCounts(edges, processed, indegree, levels, levelOf);
      var processed', levelOf' := MarkReady(processed, ready, levelOf, |levels|);
      var indegree' := ReleaseReady(edges, processed, indegree, ready);
      CountsLength(edges, processed, AsSet(ready), indegree');
      KahnRound(edges, processed, processed', indegree, indegree', levels, levelOf, levelOf', ready);
      ProcessedMore(processed, processed', levelOf, levelOf', ready, |levels|);
      AllProcessed(processed');
      AdvancedLength(processed, processed', levelOf, levelOf', ready, |levels|);
      processedCount := processedCount + |ready|;
      processed, levelOf, indegree := processed', levelOf', indegree';
      levels := levels + [ready];
    }
    AllProcessed(processed);
    KahnEnds(edges, processed, indegree, levels, levelOf);
    outcome := Built(levels);
  }

  lemma AdvancedLength(processed: seq<bool>, processed': seq<bool>, levelOf: seq<nat>, levelOf': seq<nat>, ready: seq<nat>, level: nat)
    requires Advanced(processed, processed', levelOf, levelOf', ready, level)
    ensures |processed'| == |levelOf'| == |processed|
  {
  }

  lemma CountsLength(edges: Edges, processed: seq<bool>, done: set<nat>, indegree: seq<nat>)
    requires Counts(edges, processed, done, indegree)
    ensures |indegree| == |edges|
  {
  }

  lemma KahnCounts(edges: Edges, processed: seq<bool>, indegree: seq<nat>, levels: seq<seq<nat>>, levelOf: seq<nat>)
    requires Kahn(edges, processed, indegree, levels, levelOf)
    ensures Counts(edges, processed, {}, indegree)
  {
  }

  lemma CycleRefutes(edges: Edges, cycle: seq<nat>)
    requires IsCycle(edges, cycle)
    ensures !Acyclic(edges)
  {
  }

  /** With nodes left and none of them ready, the search must have found a cycle. */
  lemma StuckMeansCycle(edges: Edges, processed: seq<bool>, indegree: seq<nat>, levels: seq<seq<nat>>, levelOf: seq<nat>, time: seq<nat>)
    requires Kahn(edges, processed, indegree, levels, levelOf) && |Processed(processed)| < |edges|
    requires forall v: nat :: !IsReady(edges, processed, indegree, v)
    ensures !Falls(edges, time)
  {
    var v := SomeUnprocessed(processed);
    forall u | 0 <= u < |edges| && !processed[u] ensures Waiting(edges, processed, {}, u) != {} {
      assert !IsReady(edges, processed, indegree, u);
      assert indegree[u] == |Waiting(edges, processed, {}, u)|;
    }
    if Falls(edges, time) {
      var top := Largest(time);
      NeverStuck(edges, processed, time, v, top);
    }
  }

  lemma AllSet(processed: seq<bool>)
    ensures (forall i :: 0 <= i < |processed| ==> processed[i]) ==> |Processed(processed)| == |processed|
  {
    if forall i :: 0 <= i < |processed| ==> processed[i] {
      assert Processed(processed) == Below(|processed|);
    }
  }

  lemma SomeUnprocessed(processed: seq<bool>) returns (v: nat)
    requires |Processed(processed)| < |processed|
    ensures v < |processed| && !processed[v]
  {
    AllSet(processed);
    v :| v < |processed| && !processed[v];
  }

  // ----- The whole graph -----

  /** No two systems of a level conflict. */
  ghost predicate LevelsApart(entries: seq<ScheduleEntry>, levels: seq<seq<nat>>) {
    forall l, u, v :: 0 <= l < |levels| && u in levels[l] && v in levels[l] && u != v ==>
      u < |entries| && v < |entries| && !Conflicting(entries[u].access, entries[v].access)
  }

  ghost predicate PrioritiesDiffer(entries: seq<ScheduleEntry>, entryByType: map<nat, nat>) {
    forall u: nat, v: nat :: Contended(entries, entryByType, u, v) ==> entries[u].priority != entries[v].priority
  }

  lemma ForcedMeans(entries: seq<ScheduleEntry>, entryByType: map<nat, nat>, forced: set<(nat, nat)>)
    requires forall u: nat, v: nat :: (u, v) in forced <==> Forced(entries, entryByType, u, v)
    ensures forall u: nat, v: nat :: Undecided(entries, forced, u, v) <==> Contended(entries, entryByType, u, v)
  {
    hide Forced;
    hide Conflicting;
  }

  lemma EdgesAreAll(entries: seq<ScheduleEntry>, entryByType: map<nat, nat>, forced: set<(nat, nat)>, edges: Edges)
    requires |edges| == |entries| && ConflictEdges(entries, forced, |entries|, |entries| + 1, edges)
    requires Differ(entries, forced, |entries|, |entries| + 1)
    requires forall u: nat, v: nat :: (u, v) in forced <==> Forced(entries, entryByType, u, v)
    ensures EdgesMean(entries, entryByType, edges) && PrioritiesDiffer(entries, entryByType)
  {
    hide Forced;
    hide Conflicting;
    ForcedMeans(entries, entryByType, forced);
    forall u: nat, v: nat ensures HasEdge(edges, u, v) <==> MustPrecede(entries, entryByType, u, v) {
      assert ByPriority(entries, forced, |entries|, |entries| + 1, u, v) <==>
             Contended(entries, entryByType, u, v) && entries[u].priority < entries[v].priority;
    }
    forall u: nat, v: nat | Contended(entries, entryByType, u, v) ensures entries[u].priority != entries[v].priority {
      UndecidedSymmetric(entries, forced, u, v);
      assert Undecided(entries, forced, u, v) && Undecided(entries, forced, v, u);
    }
  }

  /** Conflicting systems are ordered one way or the other. */
  lemma ConflictsOrdered(entries: seq<ScheduleEntry>, entryByType: map<nat, nat>, u: nat, v: nat)
    requires PrioritiesDiffer(entries, entryByType) && u < |entries| && v < |entries| && u != v
    requires Conflicting(entries[u].access, entries[v].access)
    ensures MustPrecede(entries, entryByType, u, v) || MustPrecede(entries, entryByType, v, u)
  {
    hide Forced;
    hide Conflicting;
    ConflictingSymmetric(entries[u].access, entries[v].access);
    if !Forced(entries, entryByType, u, v) && !Forced(entries, entryByType, v, u) {
      assert Contended(entries, entryByType, u, v) && Contended(entries, entryByType, v, u);
    }
  }

  lemma LevelsAreApart(entries: seq<ScheduleEntry>, entryByType: map<nat, nat>, edges: Edges, levels: seq<seq<nat>>, levelOf: seq<nat>)
    requires EdgesMean(entries, entryByType, edges) && PrioritiesDiffer(entries, entryByType)
    requires Levelled(edges, levels, levelOf)
    ensures LevelsApart(entries, levels)
  {
    hide MustPrecede;
    hide Conflicting;
    forall l, u, v | 0 <= l < |levels| && u in levels[l] && v in levels[l] && u != v
      ensures u < |entries| && v < |entries| && !Conflicting(entries[u].access, entries[v].access)
    {
      LevelsKeepApart(edges, levels, levelOf, l, u, v);
      LevelsKeepApart(edges, levels, levelOf, l, v, u);
      if Conflicting(entries[u].access, entries[v].access) {
        ConflictsOrdered(entries, entryByType, u, v);
      }
    }
  }

  // ----- What the levels owe to the declarations -----

  /** Some constraint of system `i` is on the type of system `j`. */
  ghost predicate Names(entries: seq<ScheduleEntry>, entryByType: map<nat, nat>, i: nat, j: nat) {
    i < |entries| && exists k :: 0 <= k < |entries[i].orderConstraints| && NamesBy(entries, entryByType, i, k, j)
  }

  ghost predicate NamesBy(entries: seq<ScheduleEntry>, entryByType: map<nat, nat>, i: nat, k: nat, j: nat)
    requires i < |entries| && k < |entries[i].orderConstraints|
  {
    entries[i].orderConstraints[k].systemType in entryByType && entryByType[entries[i].orderConstraints[k].systemType] == j
  }

  /** System `u` asks to run before `v`, or `v` after `u`. */
  ghost predicate Asked(entries: seq<ScheduleEntry>, entryByType: map<nat, nat>, u: nat, v: nat)
    requires u < |entries| && v < |entries|
  {
    || (exists k :: 0 <= k < |entries[u].orderConstraints| && NamesBy(entries, entryByType, u, k, v)
                    && entries[u].orderConstraints[k].order == Before)
    || (exists k :: 0 <= k < |entries[v].orderConstraints| && NamesBy(entries, entryByType, v, k, u)
                    && entries[v].orderConstraints[k].order == After)
  }

  /** Two conflicting systems of one slot that say nothing of each other. */
  ghost predicate Rivals(entries: seq<ScheduleEntry>, entryByType: map<nat, nat>, u: nat, v: nat)
    requires u < |entries| && v < |entries|
  {
    && u != v && entries[u].slot == entries[v].slot && Conflicting(entries[u].access, entries[v].access)
    && !Names(entries, entryByType, u, v) && !Names(entries, entryByType, v, u)
  }

  lemma ExplicitMeans(entries: seq<ScheduleEntry>, entryByType: map<nat, nat>, u: nat, v: nat)
    requires u < |entries| && v < |entries|
    ensures Explicit(entries, entryByType, u, v) <==> Asked(entries, entryByType, u, v)
  {
    forall k: nat | k < |entries[u].orderConstraints| && NamesBy(entries, entryByType, u, k, v)
                    && entries[u].orderConstraints[k].order == Before
      ensures Explicit(entries, entryByType, u, v)
    {
      assert Declares(entries, entryByType, u, k, u, v);
    }
    forall k: nat | k < |entries[v].orderConstraints| && NamesBy(entries, entryByType, v, k, u)
                    && entries[v].orderConstraints[k].order == After
      ensures Explicit(entries, entryByType, u, v)
    {
      assert Declares(entries, entryByType, v, k, u, v);
    }
    forall i: nat, k: nat | Declares(entries, entryByType, i, k, u, v) ensures Asked(entries, entryByType, u, v) {
      if entries[i].orderConstraints[k].order == Before {
        assert NamesBy(entries, entryByType, u, k, v);
      } else {
        assert NamesBy(entries, entryByType, v, k, u);
      }
    }
  }

  lemma NamedMeans(entries: seq<ScheduleEntry>, entryByType: map<nat, nat>, u: nat, v: nat)
    requires u < |entries| && v < |entries|
    ensures Names(entries, entryByType, u, v) || Names(entries, entryByType, v, u) <==>
            Asked(entries, entryByType, u, v) || Asked(entries, entryByType, v, u)
  {
    hide NamesBy;
  }

  /** Who must run before whom, from the declarations alone: who asked for it, regular systems before terminal
      ones, and between rivals the lower priority first. */
  lemma MustPrecedeMeans(entries: seq<ScheduleEntry>, entryByType: map<nat, nat>, u: nat, v: nat)
    requires u < |entries| && v < |entries|
    ensures MustPrecede(entries, entryByType, u, v) <==>
            || Asked(entries, entryByType, u, v)
            || (entries[u].slot == Regular && entries[v].slot == Terminal)
            || (Rivals(entries, entryByType, u, v) && entries[u].priority < entries[v].priority)
  {
    hide Explicit;
    hide Asked;
    hide Names;
    hide Conflicting;
    ExplicitMeans(entries, entryByType, u, v);
    ExplicitMeans(entries, entryByType, v, u);
    NamedMeans(entries, entryByType, u, v);
  }

  /** A constraint puts the levels of the two systems in the order it asks for. */
  lemma LevelsAsAsked(entries: seq<ScheduleEntry>, entryByType: map<nat, nat>, edges: Edges, levelOf: seq<nat>, i: nat, k: nat)
    requires ScheduleOk(entries, entryByType) && EdgesMean(entries, entryByType, edges) && Rises(edges, levelOf)
    requires i < |entries| && k < |entries[i].orderConstraints|
    ensures var target := entryByType[entries[i].orderConstraints[k].systemType];
            && |levelOf| == |entries| && target < |entries|
            && (entries[i].orderConstraints[k].order == Before ==> levelOf[i] < levelOf[target])
            && (entries[i].orderConstraints[k].order == After ==> levelOf[target] < levelOf[i])
  {
    hide MustPrecede;
    hide Conflicting;
    assert entries[i].orderConstraints[k].systemType in entryByType;
    var target := entryByType[entries[i].orderConstraints[k].systemType];
    assert NamesBy(entries, entryByType, i, k, target);
    if entries[i].orderConstraints[k].order == Before {
      MustPrecedeMeans(entries, entryByType, i, target);
      assert HasEdge(edges, i, target);
    } else {
      MustPrecedeMeans(entries, entryByType, target, i);
      assert HasEdge(edges, target, i);
    }
  }

  /** Regular systems come in earlier levels than terminal ones, and of two rivals the one of lower priority. */
  lemma LevelsByRank(entries: seq<ScheduleEntry>, entryByType: map<nat, nat>, edges: Edges, levelOf: seq<nat>, u: nat, v: nat)
    requires EdgesMean(entries, entryByType, edges) && Rises(edges, levelOf) && u < |entries| && v < |entries|
    ensures |levelOf| == |entries|
    ensures entries[u].slot == Regular && entries[v].slot == Terminal ==> levelOf[u] < levelOf[v]
    ensures Rivals(entries, entryByType, u, v) && entries[u].priority < entries[v].priority ==> levelOf[u] < levelOf[v]
  {
    hide MustPrecede;
    hide Rivals;
    hide Asked;
    MustPrecedeMeans(entries, entryByType, u, v);
    if MustPrecede(entries, entryByType, u, v) {
      assert HasEdge(edges, u, v);
    }
  }

  /** Priorities decide between rivals and nobody else; with equal ones the build stops. */
  lemma PrioritiesMean(entries: seq<ScheduleEntry>, entryByType: map<nat, nat>, u: nat, v: nat)
    requires u < |entries| && v < |entries|
    ensures Contended(entries, entryByType, u, v) <==>
            Rivals(entries, entryByType, u, v)
  {
    hide Explicit;
    hide Asked;
    hide Names;
    hide Conflicting;
    ExplicitMeans(entries, entryByType, u, v);
    ExplicitMeans(entries, entryByType, v, u);
    NamedMeans(entries, entryByType, u, v);
  }

  /** Every system is in the level its number says, and the levels keep to the declarations. */
  ghost predicate LevelsObey(entries: seq<ScheduleEntry>, entryByType: map<nat, nat>, levels: seq<seq<nat>>, levelOf: seq<nat>)
    requires ScheduleOk(entries, entryByType)
  {
    && |levelOf| == |entries|
    && (forall v :: 0 <= v < |entries| ==> levelOf[v] < |levels| && v in levels[levelOf[v]])
    && (forall l, v :: 0 <= l < |levels| && v in levels[l] ==> v < |entries| && levelOf[v] == l)
    && (forall i, k :: 0 <= i < |entries| && 0 <= k < |entries[i].orderConstraints| ==>
          var target := entryByType[entries[i].orderConstraints[k].systemType];
          if entries[i].orderConstraints[k].order == Before then levelOf[i] < levelOf[target] else levelOf[target] < levelOf[i])
    && (forall u, v :: 0 <= u < |entries| && 0 <= v < |entries| && entries[u].slot == Regular && entries[v].slot == Terminal ==>
          levelOf[u] < levelOf[v])
    && (forall u, v :: 0 <= u < |entries| && 0 <= v < |entries| && Rivals(entries, entryByType, u, v) ==>
          entries[u].priority < entries[v].priority ==> levelOf[u] < levelOf[v])
  }

  lemma LevelsDoObey(entries: seq<ScheduleEntry>, entryByType: map<nat, nat>, edges: Edges, levels: seq<seq<nat>>, levelOf: seq<nat>)
    requires ScheduleOk(entries, entryByType) && EdgesMean(entries, entryByType, edges) && Levelled(edges, levels, levelOf)
    ensures LevelsObey(entries, entryByType, levels, levelOf)
  {
    hide EdgesMean;
    hide Rises;
    hide Rivals;
    assert |edges| == |entries| == |levelOf| by {
      EdgesCount(entries, entryByType, edges, levelOf);
    }
    forall i, k | 0 <= i < |entries| && 0 <= k < |entries[i].orderConstraints|
      ensures var target := entryByType[entries[i].orderConstraints[k].systemType];
              if entries[i].orderConstraints[k].order == Before then levelOf[i] < levelOf[target] else levelOf[target] < levelOf[i]
    {
      LevelsAsAsked(entries, entryByType, edges, levelOf, i, k);
    }
    forall u, v | 0 <= u < |entries| && 0 <= v < |entries|
      ensures entries[u].slot == Regular && entries[v].slot == Terminal ==> levelOf[u] < levelOf[v]
      ensures Rivals(entries, entryByType, u, v) && entries[u].priority < entries[v].priority ==> levelOf[u] < levelOf[v]
    {
      LevelsByRank(entries, entryByType, edges, levelOf, u, v);
    }
  }

  lemma EdgesCount(entries: seq<ScheduleEntry>, entryByType: map<nat, nat>, edges: Edges, levelOf: seq<nat>)
    requires EdgesMean(entries, entryByType, edges) && Rises(edges, levelOf)
    ensures |edges| == |entries| == |levelOf|
  {
  }

  /** Builds a task graph for a schedule, or says why it cannot be built. */
  method Build(entries: seq<ScheduleEntry>, entryByType: map<nat, nat>)
    returns (outcome: Outcome, ghost edges: Edges, ghost levelOf: seq<nat>)
    requires ScheduleOk(entries, entryByType)
    ensures outcome.EqualPriority? <==> !PrioritiesDiffer(entries, entryByType)
    ensures outcome.EqualPriority? ==>
              Contended(entries, entryByType, outcome.first, outcome.second)
              && entries[outcome.first].priority == entries[outcome.second].priority
    ensures !outcome.EqualPriority? ==> EdgesMean(entries, entryByType, edges) && (outcome.Built? <==> Acyclic(edges))
    ensures outcome.Cyclic? ==> IsCycle(edges, outcome.cycle)
    ensures outcome.Built? ==> Levelled(edges, outcome.levels, levelOf) && LevelsApart(entries, outcome.levels)
    ensures outcome.Built? ==> LevelsObey(entries, entryByType, outcome.levels, levelOf)
  {
    hide LevelsObey;
    hide Acyclic;
    hide IsCycle;
    hide Levelled;
    hide LevelsApart;
    hide Conflicting;
    hide OrderedAre;
    hide GraphOk;
    hide ConflictEdges;
    hide Differ;
    hide Explicit;
    hide Slotted;
    hide EdgesMean;
    var es, indegree, ordered;
    ghost var forced;
    es, indegree, ordered, forced := AddExplicitEdges(entries, entryByType);
    es, indegree, ordered, forced := AddTerminalEdges(entries, es, indegree, ordered, forced);
    ForcedMeans(entries, entryByType, forced);
    var clash, first, second;
    clash, first, second, es, indegree := AddConflictEdges(entries, es, indegree, ordered, forced);
    edges := es;
    if clash {
      return EqualPriority(first, second), edges, [];
    }
    EdgesAreAll(entries, entryByType, forced, edges);
    outcome, levelOf := BuildLevels(es, indegree);
    if outcome.Built? {
      LevelsAreApart(entries, entryByType, edges, outcome.levels, levelOf);
      LevelsDoObey(entries, entryByType, edges, outcome.levels, levelOf);
    }
  }
}
