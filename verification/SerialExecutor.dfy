/** Running the levels of a task graph, and why the order within them does not matter. */
module SerialExecutors {
  import opened Sequences
  import opened ScheduleAccesses
  import opened ConstraintGraphs
  import opened TaskGraphs

  /** The components of a scene, by dense type id: `C` is everything stored for one type. */
  type Store<C> = map<nat, C>

  ghost predicate Agree<C>(s: Store<C>, t: Store<C>, access: Access) {
    s.Keys == t.Keys && forall id :: id in s && access.Touches(id) ==> s[id] == t[id]
  }

  /** A system that keeps to its declaration: it changes only what it declares written, and what it writes
      depends only on what it declares touched. */
  ghost predicate Respects<C(!new)>(tick: Store<C> -> Store<C>, access: Access) {
    && (forall s: Store<C> :: Keeps(tick, access, s))
    && (forall s: Store<C>, t: Store<C> {:trigger Agree(s, t, access)} :: Agree(s, t, access) ==> SameWrites(tick, access, s, t))
  }

  ghost predicate Keeps<C>(tick: Store<C> -> Store<C>, access: Access, s: Store<C>) {
    tick(s).Keys == s.Keys && forall id :: id in s && !access.Writes(id) ==> tick(s)[id] == s[id]
  }

  ghost predicate SameWrites<C>(tick: Store<C> -> Store<C>, access: Access, s: Store<C>, t: Store<C>) {
    forall id :: id in tick(s) && access.Writes(id) ==> id in tick(t) && tick(s)[id] == tick(t)[id]
  }

  ghost predicate AllRespect<C(!new)>(ticks: seq<Store<C> -> Store<C>>, entries: seq<ScheduleEntry>) {
    |ticks| == |entries| && forall i :: 0 <= i < |ticks| ==> Respects(ticks[i], entries[i].access)
  }

  ghost function RunAll<C>(ticks: seq<Store<C> -> Store<C>>, order: seq<nat>, s: Store<C>): Store<C>
    requires forall i :: 0 <= i < |order| ==> order[i] < |ticks|
  {
    if order == [] then s else ticks[order[|order| - 1]](RunAll(ticks, order[..|order| - 1], s))
  }

  /** Two systems that do not conflict may swap. */
  lemma Commute<C(!new)>(f: Store<C> -> Store<C>, g: Store<C> -> Store<C>, a: Access, b: Access, s: Store<C>)
    requires Respects(f, a) && Respects(g, b) && !Conflicting(a, b)
    ensures f(g(s)) == g(f(s))
  {
    assert Keeps(f, a, s) && Keeps(g, b, s) && Keeps(f, a, g(s)) && Keeps(g, b, f(s));
    ApartAgree(g, a, b, s);
    ConflictingSymmetric(a, b);
    ApartAgree(f, b, a, s);
    assert SameWrites(f, a, s, g(s)) && SameWrites(g, b, s, f(s));
    forall id | id in s ensures f(g(s))[id] == g(f(s))[id] {
      assert !Clash(a, b, id);
    }
  }

  /** A system without conflicts leaves what the other touches as it was. */
  lemma ApartAgree<C(!new)>(g: Store<C> -> Store<C>, a: Access, b: Access, s: Store<C>)
    requires Respects(g, b) && !Conflicting(a, b)
    ensures Agree(s, g(s), a)
  {
    assert Keeps(g, b, s);
    forall id | id in s && a.Touches(id) ensures s[id] == g(s)[id] {
      assert !Clash(a, b, id);
    }
  }

  lemma {:induction false} RunConcat<C>(ticks: seq<Store<C> -> Store<C>>, a: seq<nat>, b: seq<nat>, s: Store<C>)
    requires (forall i :: 0 <= i < |a| ==> a[i] < |ticks|) && (forall i :: 0 <= i < |b| ==> b[i] < |ticks|)
    ensures forall i :: 0 <= i < |a + b| ==> (a + b)[i] < |ticks|
    ensures RunAll(ticks, a + b, s) == RunAll(ticks, b, RunAll(ticks, a, s))
  {
    if b == [] {
      assert a + b == a;
    } else {
      RunConcat(ticks, a, b[..|b| - 1], s);
      assert (a + b)[..|a + b| - 1] == a + b[..|b| - 1];
    }
  }

  /** A system that conflicts with none of those before it may run first. */
  lemma {:induction false} Hoist<C(!new)>(ticks: seq<Store<C> -> Store<C>>, entries: seq<ScheduleEntry>, before: seq<nat>, x: nat,
                                          s: Store<C>)
    requires AllRespect(ticks, entries) && x < |ticks|
    requires forall i :: 0 <= i < |before| ==> before[i] < |ticks| && !Conflicting(entries[x].access, entries[before[i]].access)
    ensures ticks[x](RunAll(ticks, before, s)) == RunAll(ticks, before, ticks[x](s))
  {
    if before != [] {
      var q, y := before[..|before| - 1], before[|before| - 1];
      Hoist(ticks, entries, q, x, s);
      Commute(ticks[x], ticks[y], entries[x].access, entries[y].access, RunAll(ticks, q, s));
    }
  }

  // ----- Orders -----

  ghost predicate Precedes(order: seq<nat>, u: nat, v: nat) {
    exists i, j :: 0 <= i < j < |order| && order[i] == u && order[j] == v
  }

  /** Conflicting systems stand in `b` as they stand in `a`. */
  ghost predicate SameConflictOrder(entries: seq<ScheduleEntry>, a: seq<nat>, b: seq<nat>) {
    forall u: nat, v: nat ::
      (Precedes(a, u, v) && u < |entries| && v < |entries| && Conflicting(entries[u].access, entries[v].access)) ==>
        Precedes(b, u, v)
  }

  ghost predicate SameMembers(a: seq<nat>, b: seq<nat>) {
    Distinct(a) && Distinct(b) && forall x :: x in a <==> x in b
  }

  lemma NotBoth(order: seq<nat>, u: nat, v: nat)
    requires Distinct(order) && Precedes(order, u, v)
    ensures !Precedes(order, v, u)
  {
  }

  lemma PrecedesWithout(b: seq<nat>, x: nat, u: nat, v: nat)
    requires Distinct(b) && x in b && Precedes(b, u, v) && u != x && v != x
    ensures Precedes(b[..IndexOf(b, x)] + b[IndexOf(b, x) + 1..], u, v)
  {
    hide IndexOf;
    hide Distinct;
    var k := IndexOf(b, x);
    var c := b[..k] + b[k + 1..];
    var i, j :| 0 <= i < j < |b| && b[i] == u && b[j] == v;
    assert i != k && j != k;
    var i', j' := if i < k then i else i - 1, if j < k then j else j - 1;
    assert c[i'] == u && c[j'] == v;
  }

  lemma PrecedesTail(a: seq<nat>, u: nat, v: nat)
    requires a != [] && Precedes(a[1..], u, v)
    ensures Precedes(a, u, v) && u in a[1..] && v in a[1..]
  {
    var i, j :| 0 <= i < j < |a[1..]| && a[1..][i] == u && a[1..][j] == v;
    assert a[i + 1] == u && a[j + 1] == v;
  }

  lemma FirstPrecedes(a: seq<nat>, y: nat)
    requires a != [] && y in a && y != a[0]
    ensures Precedes(a, a[0], y)
  {
    var j :| 0 <= j < |a| && a[j] == y;
    assert a[0] == a[0] && 0 < j;
  }

  /** What stands before the first of `a` in `b` does not conflict with it. */
  lemma EarlierApart(entries: seq<ScheduleEntry>, a: seq<nat>, b: seq<nat>, i: nat)
    requires a != [] && SameMembers(a, b) && SameConflictOrder(entries, a, b)
    requires a[0] in b && i < IndexOf(b, a[0]) && a[0] < |entries| && b[i] < |entries|
    ensures !Conflicting(entries[a[0]].access, entries[b[i]].access)
  {
    var k := IndexOf(b, a[0]);
    assert b[i] in b;
    FirstPrecedes(a, b[i]);
    assert Precedes(b, b[i], a[0]) by {
      assert b[k] == a[0];
    }
    if Conflicting(entries[a[0]].access, entries[b[i]].access) {
      NotBoth(b, a[0], b[i]);
    }
  }

  lemma TailOrder(entries: seq<ScheduleEntry>, a: seq<nat>, b: seq<nat>)
    requires a != [] && SameMembers(a, b) && SameConflictOrder(entries, a, b) && a[0] in b
    ensures var k := IndexOf(b, a[0]);
            SameMembers(a[1..], b[..k] + b[k + 1..]) && SameConflictOrder(entries, a[1..], b[..k] + b[k + 1..])
  {
    var x, k := a[0], IndexOf(b, a[0]);
    var c := b[..k] + b[k + 1..];
    assert c == Without(b, x);
    WithoutDistinct(b, x);
    assert a == [x] + a[1..];
    forall u: nat, v: nat | Precedes(a[1..], u, v) && u < |entries| && v < |entries|
      && Conflicting(entries[u].access, entries[v].access)
      ensures Precedes(c, u, v)
    {
      PrecedesTail(a, u, v);
      PrecedesWithout(b, x, u, v);
    }
  }

  /** Two orders that agree on conflicting systems give the same components. */
  lemma {:induction false} OrderIrrelevant<C(!new)>(ticks: seq<Store<C> -> Store<C>>, entries: seq<ScheduleEntry>,
                                                    a: seq<nat>, b: seq<nat>, s: Store<C>)
    requires AllRespect(ticks, entries) && SameMembers(a, b) && SameConflictOrder(entries, a, b)
    requires (forall i :: 0 <= i < |a| ==> a[i] < |ticks|) && (forall i :: 0 <= i < |b| ==> b[i] < |ticks|)
    ensures RunAll(ticks, a, s) == RunAll(ticks, b, s)
    decreases |a|
  {
    hide SameConflictOrder;
    hide SameMembers;
    hide AllRespect;
    hide RunAll;
    hide Conflicting;
    hide IndexOf;
    if a == [] {
      NoMembers(a, b);
    } else {
      MemberOf(a, b, 0);
      var x, k := a[0], IndexOf(b, a[0]);
      var before, after := b[..k], b[k + 1..];
      TailOrder(entries, a, b);
      SizeOf(ticks, entries);
      forall i | 0 <= i < |before| ensures before[i] < |ticks| && !Conflicting(entries[x].access, entries[before[i]].access) {
        EarlierApart(entries, a, b, i);
      }
      OrderIrrelevant(ticks, entries, a[1..], before + after, ticks[x](s));
      Hoist(ticks, entries, before, x, s);
      RunMiddle(ticks, before, x, after, s);
      RunMiddle(ticks, [], x, a[1..], s);
      RunConcat(ticks, before, after, ticks[x](s));
      assert b == before + [x] + after && a == [] + [x] + a[1..];
      RunNothing(ticks, s);
    }
  }

  lemma RunNothing<C>(ticks: seq<Store<C> -> Store<C>>, s: Store<C>)
    ensures RunAll(ticks, [], s) == s
  {
  }

  lemma NoMembers(a: seq<nat>, b: seq<nat>)
    requires SameMembers(a, b) && a == []
    ensures b == []
  {
    DistinctCount(a);
    DistinctCount(b);
    assert AsSet(a) == AsSet(b);
  }

  lemma RunMiddle<C>(ticks: seq<Store<C> -> Store<C>>, before: seq<nat>, x: nat, after: seq<nat>, s: Store<C>)
    requires x < |ticks| && (forall i :: 0 <= i < |before| ==> before[i] < |ticks|) && (forall i :: 0 <= i < |after| ==> after[i] < |ticks|)
    ensures forall i :: 0 <= i < |before + [x] + after| ==> (before + [x] + after)[i] < |ticks|
    ensures RunAll(ticks, before + [x] + after, s) == RunAll(ticks, after, ticks[x](RunAll(ticks, before, s)))
  {
    hide RunAll;
    RunLast(ticks, before, x, s);
    RunConcat(ticks, before + [x], after, s);
  }

  lemma SizeOf<C(!new)>(ticks: seq<Store<C> -> Store<C>>, entries: seq<ScheduleEntry>)
    requires AllRespect(ticks, entries)
    ensures |ticks| == |entries|
  {
  }

  lemma MemberOf(a: seq<nat>, b: seq<nat>, i: nat)
    requires SameMembers(a, b) && i < |a|
    ensures a[i] in b
  {
    assert a[i] in a;
  }

  lemma RunLast<C>(ticks: seq<Store<C> -> Store<C>>, before: seq<nat>, x: nat, s: Store<C>)
    requires x < |ticks| && forall i :: 0 <= i < |before| ==> before[i] < |ticks|
    ensures forall i :: 0 <= i < |before + [x]| ==> (before + [x])[i] < |ticks|
    ensures RunAll(ticks, before + [x], s) == ticks[x](RunAll(ticks, before, s))
  {
    assert (before + [x])[..|before|] == before;
  }

  // ----- Orders that keep the edges -----

  /** All the systems once, each after everything that must precede it. */
  ghost predicate Linear(edges: Edges, order: seq<nat>) {
    && Distinct(order) && (forall x: nat :: x in order <==> x < |edges|)
    && (forall i :: 0 <= i < |order| ==> order[i] < |edges|)
    && forall u: nat, v: nat :: HasEdge(edges, u, v) ==> Precedes(order, u, v)
  }

  /** Any two orders that keep the edges agree on conflicting systems, so they give the same components. */
  lemma LinearOrdersAgree<C(!new)>(ticks: seq<Store<C> -> Store<C>>, entries: seq<ScheduleEntry>, entryByType: map<nat, nat>,
                                   edges: Edges, a: seq<nat>, b: seq<nat>, s: Store<C>)
    requires AllRespect(ticks, entries) && EdgesMean(entries, entryByType, edges) && PrioritiesDiffer(entries, entryByType)
    requires Linear(edges, a) && Linear(edges, b)
    ensures forall i :: 0 <= i < |a| ==> a[i] < |ticks|
    ensures forall i :: 0 <= i < |b| ==> b[i] < |ticks|
    ensures RunAll(ticks, a, s) == RunAll(ticks, b, s)
  {
    hide AllRespect;
    hide PrioritiesDiffer;
    hide MustPrecede;
    hide Conflicting;
    hide Precedes;
    SizeOf(ticks, entries);
    assert SameMembers(a, b);
    forall u: nat, v: nat | Precedes(a, u, v) && u < |entries| && v < |entries|
      && Conflicting(entries[u].access, entries[v].access)
      ensures Precedes(b, u, v)
    {
      PrecedesApart(a, u, v);
      ConflictsOrdered(entries, entryByType, u, v);
      if HasEdge(edges, v, u) {
        NotBoth(a, u, v);
      }
    }
    OrderIrrelevant(ticks, entries, a, b, s);
  }

  lemma PrecedesApart(order: seq<nat>, u: nat, v: nat)
    requires Distinct(order) && Precedes(order, u, v)
    ensures u != v
  {
  }

  // ----- Levels as an order -----

  ghost function Flatten(levels: seq<seq<nat>>): seq<nat> {
    if levels == [] then [] else Flatten(levels[..|levels| - 1]) + levels[|levels| - 1]
  }

  lemma {:induction false} FlattenMembers(levels: seq<seq<nat>>)
    ensures forall x :: x in Flatten(levels) <==> exists l :: 0 <= l < |levels| && x in levels[l]
  {
    if levels != [] {
      FlattenMembers(levels[..|levels| - 1]);
      forall x | exists l :: 0 <= l < |levels| && x in levels[l] ensures x in Flatten(levels) {
        var l :| 0 <= l < |levels| && x in levels[l];
        if l < |levels| - 1 {
          assert x in levels[..|levels| - 1][l];
        }
      }
    }
  }

  lemma {:induction false} FlattenPrecedes(levels: seq<seq<nat>>, l: nat, m: nat, u: nat, v: nat)
    requires l < m < |levels| && u in levels[l] && v in levels[m]
    ensures Precedes(Flatten(levels), u, v)
    decreases |levels|
  {
    var front, last := levels[..|levels| - 1], levels[|levels| - 1];
    if m < |levels| - 1 {
      FlattenPrecedes(front, l, m, u, v);
      var i, j :| 0 <= i < j < |Flatten(front)| && Flatten(front)[i] == u && Flatten(front)[j] == v;
      assert Flatten(levels)[i] == u && Flatten(levels)[j] == v;
    } else {
      FlattenMembers(front);
      assert u in front[l] && u in Flatten(front);
      var i :| 0 <= i < |Flatten(front)| && Flatten(front)[i] == u;
      var j :| 0 <= j < |last| && last[j] == v;
      assert Flatten(levels)[i] == u && Flatten(levels)[|Flatten(front)| + j] == v;
    }
  }

  lemma {:induction false} FlattenDistinct(levels: seq<seq<nat>>, levelOf: seq<nat>)
    requires forall l :: 0 <= l < |levels| ==> Distinct(levels[l])
    requires forall l, v {:trigger v in levels[l]} :: 0 <= l < |levels| && v in levels[l] ==> v < |levelOf| && levelOf[v] == l
    ensures Distinct(Flatten(levels))
  {
    if levels != [] {
      var front, last := levels[..|levels| - 1], levels[|levels| - 1];
      forall l, v {:trigger v in front[l]} | 0 <= l < |front| && v in front[l] ensures v < |levelOf| && levelOf[v] == l {
        assert v in levels[l];
      }
      FlattenDistinct(front, levelOf);
      FlattenMembers(front);
      forall x | x in Flatten(front) ensures x !in last {
        var l :| 0 <= l < |front| && x in front[l];
        assert x in levels[l];
      }
      DistinctConcat(Flatten(front), last);
    }
  }

  /** Running level by level keeps the edges. */
  lemma LevelsLinear(edges: Edges, levels: seq<seq<nat>>, levelOf: seq<nat>)
    requires Levelled(edges, levels, levelOf)
    ensures Linear(edges, Flatten(levels))
  {
    hide Precedes;
    FlattenDistinct(levels, levelOf);
    FlattenMembers(levels);
    forall x: nat ensures x in Flatten(levels) <==> x < |edges| {
      if x < |edges| {
        assert x in levels[levelOf[x]];
      }
    }
    assert forall i :: 0 <= i < |Flatten(levels)| ==> Flatten(levels)[i] in Flatten(levels);
    forall u: nat, v: nat | HasEdge(edges, u, v) ensures Precedes(Flatten(levels), u, v) {
      FlattenPrecedes(levels, levelOf[u], levelOf[v], u, v);
    }
  }

  /** The same levels, each in any order of its own. */
  ghost predicate Shuffled(levels: seq<seq<nat>>, shuffled: seq<seq<nat>>) {
    |shuffled| == |levels| && forall l :: 0 <= l < |levels| ==> SameMembers(levels[l], shuffled[l])
  }

  lemma ShuffledLevels(edges: Edges, levels: seq<seq<nat>>, shuffled: seq<seq<nat>>, levelOf: seq<nat>)
    requires Levelled(edges, levels, levelOf) && Shuffled(levels, shuffled)
    ensures Levelled(edges, shuffled, levelOf)
  {
    forall v | 0 <= v < |edges| ensures levelOf[v] < |shuffled| && v in shuffled[levelOf[v]] {
      assert v in levels[levelOf[v]];
      assert SameMembers(levels[levelOf[v]], shuffled[levelOf[v]]);
    }
    forall l, v {:trigger v in shuffled[l]} | 0 <= l < |shuffled| && v in shuffled[l] ensures v < |edges| && levelOf[v] == l {
      assert SameMembers(levels[l], shuffled[l]);
      assert v in levels[l];
    }
    forall l | 0 <= l < |shuffled| ensures Distinct(shuffled[l]) && shuffled[l] != [] {
      assert SameMembers(levels[l], shuffled[l]);
      assert levels[l][0] in levels[l];
    }
  }

  /** However the systems of each level are ordered, the components come out as in the executor's own order. */
  lemma LevelOrderIrrelevant<C(!new)>(ticks: seq<Store<C> -> Store<C>>, entries: seq<ScheduleEntry>, entryByType: map<nat, nat>,
                                      edges: Edges, levels: seq<seq<nat>>, shuffled: seq<seq<nat>>, levelOf: seq<nat>, s: Store<C>)
    requires AllRespect(ticks, entries) && EdgesMean(entries, entryByType, edges) && PrioritiesDiffer(entries, entryByType)
    requires Levelled(edges, levels, levelOf) && Shuffled(levels, shuffled)
    ensures forall i :: 0 <= i < |Flatten(levels)| ==> Flatten(levels)[i] < |ticks|
    ensures forall i :: 0 <= i < |Flatten(shuffled)| ==> Flatten(shuffled)[i] < |ticks|
    ensures RunAll(ticks, Flatten(shuffled), s) == RunAll(ticks, Flatten(levels), s)
  {
    hide AllRespect;
    hide EdgesMean;
    hide PrioritiesDiffer;
    hide Levelled;
    hide Linear;
    ShuffledLevels(edges, levels, shuffled, levelOf);
    LevelsLinear(edges, levels, levelOf);
    LevelsLinear(edges, shuffled, levelOf);
    LinearOrdersAgree(ticks, entries, entryByType, edges, Flatten(shuffled), Flatten(levels), s);
  }

  lemma FlattenNone(levels: seq<seq<nat>>)
    ensures Flatten(levels[..0]) == []
  {
  }

  lemma FlattenNext(levels: seq<seq<nat>>, l: nat)
    requires l < |levels|
    ensures Flatten(levels[..l + 1]) == Flatten(levels[..l]) + levels[l]
  {
    assert levels[..l + 1][..l] == levels[..l];
  }

  lemma RunNone<C>(ticks: seq<Store<C> -> Store<C>>, store: Store<C>)
    ensures RunAll(ticks, [], store) == store
  {
  }

  class SerialExecutor {
    const levels: seq<seq<nat>>

    constructor (levels: seq<seq<nat>>)
      ensures this.levels == levels
    {
      this.levels := levels;
    }

    /** Runs every system once, level by level. */
    method Execute<C>(ticks: seq<Store<C> -> Store<C>>, store0: Store<C>) returns (store: Store<C>)
      requires forall l, i :: 0 <= l < |levels| && 0 <= i < |levels[l]| ==> levels[l][i] < |ticks|
      ensures forall i :: 0 <= i < |Flatten(levels)| ==> Flatten(levels)[i] < |ticks|
      ensures store == RunAll(ticks, Flatten(levels), store0)
    {
      hide Flatten;
      hide RunAll;
      FlattenNone(levels);
      RunNone(ticks, store0);
      store := store0;
      var l := 0;
      while l < |levels|
        invariant 0 <= l <= |levels|
        invariant forall i :: 0 <= i < |Flatten(levels[..l])| ==> Flatten(levels[..l])[i] < |ticks|
        invariant store == RunAll(ticks, Flatten(levels[..l]), store0)
      {
        var level := levels[l];
        ghost var done := Flatten(levels[..l]);
        FlattenNext(levels, l);
        var k := 0;
        assert done + level[..0] == done;
        while k < |level|
          invariant 0 <= k <= |level|
          invariant forall i :: 0 <= i < |done + level[..k]| ==> (done + level[..k])[i] < |ticks|
          invariant store == RunAll(ticks, done + level[..k], store0)
        {
          RunLast(ticks, done + level[..k], level[k], store0);
          assert done + level[..k + 1] == (done + level[..k]) + [level[k]];
          store := ticks[level[k]](store);
          k := k + 1;
        }
        assert level[..k] == level;
        l := l + 1;
      }
      assert levels[..l] == levels;
    }
  }
}
