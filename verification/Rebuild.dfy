/** Building a forest row by row, each row below an earlier one, and how the result mirrors the
    forest whose rows were listed breadth first. */
module Rebuild {
  import opened Entities
  import opened Sequences
  import opened Forests
  import opened BreadthFirst
  import opened Components

  /** `f` holds exactly the entities of `list`, each the child its row says, in row order. */
  ghost predicate Built(f: Forest, list: seq<Entity>, parents: seq<int>) {
    && WellFormed(f) && |list| == |parents| && Distinct(list)
    && (forall x :: x in f.parent <==> x in list)
    && (forall j {:trigger BuiltRow(f, list, parents, j)} :: 0 <= j < |list| ==> BuiltRow(f, list, parents, j))
  }

  ghost predicate BuiltRow(f: Forest, list: seq<Entity>, parents: seq<int>, j: nat)
    requires j < |list| == |parents|
  {
    && -1 <= parents[j] < j
    && list[j] in f.parent && f.parent[list[j]] == (if parents[j] == -1 then NONE else list[parents[j]])
    && list[j] in f.kids && f.kids[list[j]] == RowsOf(list, parents, j)
  }

  lemma RowsOfPush<T>(list: seq<T>, parents: seq<int>, e: T, p: int, i: int)
    requires |list| == |parents|
    ensures RowsOf(list + [e], parents + [p], i) == RowsOf(list, parents, i) + if p == i then [e] else []
  {
    assert (list + [e])[..|list|] == list && (parents + [p])[..|list|] == parents;
  }

  lemma {:induction false} RowsOfNobody<T>(list: seq<T>, parents: seq<int>, i: int)
    requires |list| == |parents| && i !in parents
    ensures RowsOf(list, parents, i) == []
  {
    if list != [] {
      RowsOfNobody(list[..|list| - 1], parents[..|list| - 1], i);
    }
  }

  lemma WithoutAbsent<T>(s: seq<T>, x: T)
    requires x !in s
    ensures Without(s, x) == s
  {
  }

  /** A new root has nobody below it, so it can be put last below any other entity. */
  lemma NewRootMoves(f: Forest, e: Entity, p: Entity)
    requires WellFormed(f) && e.Valid() && e !in f.parent && p in f.parent
    ensures WellFormed(AddRoot(f, e)) && p in f.kids && p != e
    ensures CanMove(AddRoot(f, e), e, p, |f.kids[p]|)
    ensures var g := Move(AddRoot(f, e), e, p, |f.kids[p]|);
            && WellFormed(g) && g.parent == f.parent[e := p]
            && g.kids.Keys == f.kids.Keys + {e}
            && (forall q :: q in f.kids ==> g.kids[q] == if q == p then f.kids[p] + [e] else f.kids[q])
            && g.kids[e] == []
  {
    hide Move;
    hide Under;
    hide WellFormed;
    AddRootWellFormed(f, e);
    ForestKeys(f);
    var a := AddRoot(f, e);
    NothingUnder(a, e, p);
    forall q | q in f.kids ensures e !in f.kids[q] && Without(a.kids[q], e) == f.kids[q] {
      KidsOf(f, q);
      WithoutAbsent(f.kids[q], e);
    }
    MoveResult(a, e, p, |f.kids[p]|);
  }

  lemma NothingUnder(f: Forest, e: Entity, x: Entity)
    requires WellFormed(f) && e in f.parent && x in f.parent && x != e && f.kids[e] == []
    ensures !Under(f, x, e)
  {
    if Under(f, x, e) {
      var k := TopBelow(f, x, e);
    }
  }

  lemma BuildRoot(f: Forest, list: seq<Entity>, parents: seq<int>, e: Entity)
    requires Built(f, list, parents) && e.Valid() && e !in f.parent
    ensures Built(AddRoot(f, e), list + [e], parents + [-1])
  {
    AddRootWellFormed(f, e);
    BuildRows(f, AddRoot(f, e), list, parents, e, -1);
  }

  lemma BuildChild(f: Forest, list: seq<Entity>, parents: seq<int>, e: Entity, p: nat)
    requires Built(f, list, parents) && e.Valid() && e !in f.parent && p < |list|
    ensures WellFormed(AddRoot(f, e)) && list[p] in f.kids
    ensures CanMove(AddRoot(f, e), e, list[p], |f.kids[list[p]]|)
    ensures Built(Move(AddRoot(f, e), e, list[p], |f.kids[list[p]]|), list + [e], parents + [p])
  {
    hide Move;
    hide Under;
    assert list[p] in f.parent;
    NewRootMoves(f, e, list[p]);
    BuildRows(f, Move(AddRoot(f, e), e, list[p], |f.kids[list[p]]|), list, parents, e, p);
  }

  lemma BuildRows(f: Forest, g: Forest, list: seq<Entity>, parents: seq<int>, e: Entity, p: int)
    requires Built(f, list, parents) && e !in f.parent && -1 <= p < |list| && WellFormed(g)
    requires g.parent == f.parent[e := if p == -1 then NONE else list[p]]
    requires g.kids.Keys == f.kids.Keys + {e} && g.kids[e] == []
    requires forall q :: q in f.kids ==> g.kids[q] == if p != -1 && q == list[p] then f.kids[q] + [e] else f.kids[q]
    ensures Built(g, list + [e], parents + [p])
  {
    hide WellFormed;
    hide BuiltRow;
    DistinctConcat(list, [e]);
    var list', parents' := list + [e], parents + [p];
    forall j | 0 <= j < |list'| ensures BuiltRow(g, list', parents', j) {
      BuildRow(f, g, list, parents, e, p, j);
    }
  }

  lemma BuildRow(f: Forest, g: Forest, list: seq<Entity>, parents: seq<int>, e: Entity, p: int, j: nat)
    requires Built(f, list, parents) && e !in f.parent && -1 <= p < |list| && WellFormed(g) && j <= |list|
    requires g.parent == f.parent[e := if p == -1 then NONE else list[p]]
    requires g.kids.Keys == f.kids.Keys + {e} && g.kids[e] == []
    requires forall q :: q in f.kids ==> g.kids[q] == if p != -1 && q == list[p] then f.kids[q] + [e] else f.kids[q]
    ensures BuiltRow(g, list + [e], parents + [p], j)
  {
    hide WellFormed;
    hide RowsOf;
    hide Built;
    BuiltKeys(f, list, parents);
    RowsOfPush(list, parents, e, p, j);
    if j < |list| {
      BuiltAt(f, list, parents, j);
    } else {
      forall k | 0 <= k < |list| ensures parents[k] != |list| {
        BuiltAt(f, list, parents, k);
      }
      RowsOfNobody(list, parents, |list|);
    }
  }

  lemma BuiltKeys(f: Forest, list: seq<Entity>, parents: seq<int>)
    requires Built(f, list, parents)
    ensures |list| == |parents| && forall x :: x in f.parent <==> x in list
  {
  }

  lemma BuiltAt(f: Forest, list: seq<Entity>, parents: seq<int>, j: nat)
    requires Built(f, list, parents) && j < |list|
    ensures |list| == |parents| && BuiltRow(f, list, parents, j)
    ensures forall i :: 0 <= i < |list| ==> (list[i] == list[j] <==> i == j)
  {
    hide BuiltRow;
    hide WellFormed;
  }

  // ----- The same shape -----

  function Renamed(from: seq<Entity>, to: seq<Entity>, s: seq<Entity>): seq<Entity>
    requires |from| == |to|
  {
    if s == [] then [] else Renamed(from, to, s[..|s| - 1]) + [Counterpart(from, to, s[|s| - 1])]
  }

  /** The forests match entity by entity along the two lists: same parents, same children in the same order. */
  ghost predicate Isomorphic(f0: Forest, from: seq<Entity>, f1: Forest, to: seq<Entity>) {
    && WellFormed(f0) && WellFormed(f1) && |from| == |to| && Distinct(from) && Distinct(to)
    && (forall x :: x in f0.parent <==> x in from) && (forall x :: x in f1.parent <==> x in to)
    && (forall i {:trigger Matches(f0, from, f1, to, i)} :: 0 <= i < |from| ==> Matches(f0, from, f1, to, i))
  }

  ghost predicate Matches(f0: Forest, from: seq<Entity>, f1: Forest, to: seq<Entity>, i: nat)
    requires i < |from| == |to|
  {
    && from[i] in f0.parent && to[i] in f1.parent && f1.parent[to[i]] == Counterpart(from, to, f0.parent[from[i]])
    && from[i] in f0.kids && to[i] in f1.kids && f1.kids[to[i]] == Renamed(from, to, f0.kids[from[i]])
  }

  lemma {:induction false} RowsOfRenamed(from: seq<Entity>, to: seq<Entity>, n: nat, parents: seq<int>, i: int)
    requires |from| == |to| && n == |parents| <= |from| && Distinct(from)
    requires forall k :: 0 <= k < |from| ==> from[k].Valid()
    ensures RowsOf(to[..n], parents, i) == Renamed(from, to, RowsOf(from[..n], parents, i))
    decreases n
  {
    if n > 0 {
      RowsOfRenamed(from, to, n - 1, parents[..n - 1], i);
      assert from[..n][..n - 1] == from[..n - 1] && to[..n][..n - 1] == to[..n - 1];
      IndexOfDistinct(from, n - 1);
      var rest := RowsOf(from[..n - 1], parents[..n - 1], i);
      assert (rest + [from[n - 1]])[..|rest|] == rest && rest + [] == rest;
      var rest' := RowsOf(to[..n - 1], parents[..n - 1], i);
      assert rest' + [] == rest';
    }
  }

  /** Rows listed breadth first and rebuilt in that order give back the same forest. */
  lemma RebuiltIsIsomorphic(f0: Forest, roots: seq<Entity>, from: seq<Entity>, f1: Forest, to: seq<Entity>, parents: seq<int>)
    requires WellFormed(f0) && BfsAt(f0, roots, from, parents, |from|)
    requires forall x :: x in f0.parent <==> x in from
    requires forall x :: x in roots ==> x in f0.parent && f0.parent[x] == NONE
    requires Built(f1, to, parents)
    ensures Isomorphic(f0, from, f1, to)
  {
    hide WellFormed;
    ForestKeys(f0);
    ForestKeys(f1);
    hide BuiltRow;
    forall i | 0 <= i < |from| ensures Matches(f0, from, f1, to, i) {
      RebuiltParent(f0, roots, from, f1, to, parents, i);
      RebuiltKids(f0, roots, from, f1, to, parents, i);
    }
  }

  lemma RebuiltParent(f0: Forest, roots: seq<Entity>, from: seq<Entity>, f1: Forest, to: seq<Entity>, parents: seq<int>, i: nat)
    requires WellFormed(f0) && BfsAt(f0, roots, from, parents, |from|) && Built(f1, to, parents) && i < |from|
    requires forall x :: x in roots ==> x in f0.parent && f0.parent[x] == NONE
    ensures from[i] in f0.parent && to[i] in f1.parent
    ensures f1.parent[to[i]] == Counterpart(from, to, f0.parent[from[i]])
  {
    hide WellFormed;
    ForestKeys(f0);
    assert RowOk(f0, |roots|, from, parents, |from|, i);
    assert BuiltRow(f1, to, parents, i);
    if i < |roots| {
      assert from[i] == roots[i] && roots[i] in roots;
    } else {
      assert RowOk(f0, |roots|, from, parents, |from|, parents[i]);
      IndexOfDistinct(from, parents[i]);
    }
  }

  lemma RebuiltKids(f0: Forest, roots: seq<Entity>, from: seq<Entity>, f1: Forest, to: seq<Entity>, parents: seq<int>, i: nat)
    requires WellFormed(f0) && BfsAt(f0, roots, from, parents, |from|) && Built(f1, to, parents) && i < |from|
    ensures from[i] in f0.kids && to[i] in f1.kids
    ensures f1.kids[to[i]] == Renamed(from, to, f0.kids[from[i]])
  {
    hide WellFormed;
    ForestKeys(f0);
    ForestKeys(f1);
    forall k | 0 <= k < |from| ensures from[k].Valid() {
      assert RowOk(f0, |roots|, from, parents, |from|, k);
    }
    assert RowOk(f0, |roots|, from, parents, |from|, i);
    assert to[..|to|] == to && from[..|from|] == from;
    RowsOfRenamed(from, to, |from|, parents, i);
    assert RowsOf(from, parents, i) == KidsOfRow(f0, from, |from|, i);
    assert BuiltRow(f1, to, parents, i);
  }
}
