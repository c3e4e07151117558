/** Listing trees breadth first: a list that grows by the children of each of its members in turn. */
module BreadthFirst {
  import opened Entities
  import opened Sequences
  import opened Forests

  /** `x` lies in the tree of one of `start`. */
  ghost predicate UnderAny(f: Forest, x: Entity, start: seq<Entity>)
    requires WellFormed(f) && x in f.parent
  {
    exists i :: 0 <= i < |start| && Under(f, x, start[i])
  }

  /** Trees to list: nobody twice, and no tree inside another. */
  ghost predicate Apart(f: Forest, start: seq<Entity>)
    requires WellFormed(f)
  {
    && Distinct(start)
    && (forall i :: 0 <= i < |start| ==> start[i] in f.parent)
    && (forall i :: 0 <= i < |start| && f.parent[start[i]] != NONE ==> !UnderAny(f, f.parent[start[i]], start))
  }

  /** The members of `list` that name row `i` as their parent, in order. */
  function RowsOf<T>(list: seq<T>, parents: seq<int>, i: int): seq<T>
    requires |list| == |parents|
  {
    if list == [] then []
    else RowsOf(list[..|list| - 1], parents[..|list| - 1], i)
         + if parents[|list| - 1] == i then [list[|list| - 1]] else []
  }

  /** A row's parent: none for the first `roots` rows, an earlier expanded row for the others. */
  ghost predicate RowOk(f: Forest, roots: nat, list: seq<Entity>, parents: seq<int>, index: nat, j: nat)
    requires j < |list| == |parents|
  {
    && list[j] in f.parent
    && (j < roots ==> parents[j] == -1)
    && (j >= roots ==> 0 <= parents[j] < index && parents[j] < j && f.parent[list[j]] == list[parents[j]])
  }

  /** `list` holds `start` and the children of its first `index` members, each after its parent. */
  ghost predicate BfsAt(f: Forest, start: seq<Entity>, list: seq<Entity>, parents: seq<int>, index: nat)
    requires WellFormed(f)
  {
    && |list| == |parents| && index <= |list|
    && start <= list
    && Distinct(list)
    && (forall j {:trigger RowOk(f, |start|, list, parents, index, j)} :: 0 <= j < |list| ==>
          RowOk(f, |start|, list, parents, index, j) && UnderAny(f, list[j], start))
    && (forall i: int {:trigger RowsOf(list, parents, i)} :: i >= 0 ==>
          RowsOf(list, parents, i) == KidsOfRow(f, list, index, i))
  }

  /** The children that row `i` has been given, once `index` rows are expanded. */
  ghost function KidsOfRow(f: Forest, list: seq<Entity>, index: nat, i: int): seq<Entity>
    requires i >= 0
  {
    if i < index && i < |list| && list[i] in f.kids then f.kids[list[i]] else []
  }

  lemma {:induction false} RowsOfRoots<T>(list: seq<T>, i: int)
    requires i >= 0
    ensures RowsOf(list, Repeat(|list|, -1), i) == []
  {
    if list != [] {
      RowsOfRoots(list[..|list| - 1], i);
      assert Repeat(|list|, -1)[..|list| - 1] == Repeat(|list| - 1, -1);
    }
  }

  /** Appending the children of one row gives them to that row alone. */
  lemma {:induction false} RowsOfAppend<T>(list: seq<T>, parents: seq<int>, more: seq<T>, index: int, i: int)
    requires |list| == |parents|
    ensures RowsOf(list + more, parents + Repeat(|more|, index), i) ==
            RowsOf(list, parents, i) + if i == index then more else []
  {
    if more == [] {
      assert list + more == list && parents + Repeat(|more|, index) == parents;
    } else {
      var less := more[..|more| - 1];
      RowsOfAppend(list, parents, less, index, i);
      assert (list + more)[..|list + more| - 1] == list + less;
      assert (parents + Repeat(|more|, index))[..|list + more| - 1] == parents + Repeat(|less|, index);
    }
  }

  lemma BfsStarts(f: Forest, start: seq<Entity>)
    requires WellFormed(f) && Apart(f, start)
    ensures BfsAt(f, start, start, Repeat(|start|, -1), 0)
  {
    var parents := Repeat(|start|, -1);
    forall j | 0 <= j < |start| ensures RowOk(f, |start|, start, parents, 0, j) && UnderAny(f, start[j], start) {
      assert Under(f, start[j], start[j]);
    }
    forall i: int | i >= 0 ensures RowsOf(start, parents, i) == [] {
      RowsOfRoots(start, i);
    }
  }

  /** The children of the next row have not been listed before. */
  lemma NewKids(f: Forest, start: seq<Entity>, list: seq<Entity>, parents: seq<int>, index: nat)
    requires WellFormed(f) && Apart(f, start) && BfsAt(f, start, list, parents, index) && index < |list|
    ensures list[index] in f.parent
    ensures forall k :: k in f.kids[list[index]] ==> k !in list && k in f.parent && UnderAny(f, k, start)
  {
    assert RowOk(f, |start|, list, parents, index, index);
    var x := list[index];
    KidsOf(f, x);
    forall k | k in f.kids[x] ensures k !in list && UnderAny(f, k, start) {
      forall j | 0 <= j < |list| ensures list[j] != k {
        assert RowOk(f, |start|, list, parents, index, j);
        assert j < |start| ==> list[j] == start[j];
      }
      var i :| 0 <= i < |start| && Under(f, x, start[i]);
      assert Under(f, k, start[i]);
    }
  }

  lemma BfsStep(f: Forest, start: seq<Entity>, list: seq<Entity>, parents: seq<int>, index: nat)
    requires WellFormed(f) && Apart(f, start) && BfsAt(f, start, list, parents, index) && index < |list|
    ensures list[index] in f.parent && list[index] in f.kids
    ensures var more := f.kids[list[index]];
            BfsAt(f, start, list + more, parents + Repeat(|more|, index), index + 1)
  {
    hide *;
    BfsParts(f, start, list, parents, index);
    NewKids(f, start, list, parents, index);
    KidsOf(f, list[index]);
    var more := f.kids[list[index]];
    DistinctConcat(list, more);
    BfsStepRows(f, start, list, parents, index);
    BfsStepKids(f, start, list, parents, index);
    BfsMade(f, start, list + more, parents + Repeat(|more|, index), index + 1);
  }

  lemma BfsParts(f: Forest, start: seq<Entity>, list: seq<Entity>, parents: seq<int>, index: nat)
    requires WellFormed(f) && BfsAt(f, start, list, parents, index)
    ensures |list| == |parents| && index <= |list| && start <= list && Distinct(list)
  {
  }

  lemma BfsMade(f: Forest, start: seq<Entity>, list: seq<Entity>, parents: seq<int>, index: nat)
    requires WellFormed(f) && |list| == |parents| && index <= |list| && start <= list && Distinct(list)
    requires forall j {:trigger RowOk(f, |start|, list, parents, index, j)} :: 0 <= j < |list| ==>
               RowOk(f, |start|, list, parents, index, j) && UnderAny(f, list[j], start)
    requires forall i: int {:trigger RowsOf(list, parents, i)} :: i >= 0 ==>
               RowsOf(list, parents, i) == KidsOfRow(f, list, index, i)
    ensures BfsAt(f, start, list, parents, index)
  {
    hide WellFormed;
    hide UnderAny;
    hide RowsOf;
    hide KidsOfRow;
    hide Distinct;
    forall j | 0 <= j < |list| ensures RowOk(f, |start|, list, parents, index, j) && UnderAny(f, list[j], start) {
      assert RowOk(f, |start|, list, parents, index, j);
    }
    forall i: int | i >= 0 ensures RowsOf(list, parents, i) == KidsOfRow(f, list, index, i) {
      assert RowsOf(list, parents, i) == KidsOfRow(f, list, index, i);
    }
  }

  lemma BfsStepRows(f: Forest, start: seq<Entity>, list: seq<Entity>, parents: seq<int>, index: nat)
    requires WellFormed(f) && Apart(f, start) && BfsAt(f, start, list, parents, index) && index < |list|
    requires list[index] in f.parent && list[index] in f.kids
    ensures var more := f.kids[list[index]];
            var list', parents' := list + more, parents + Repeat(|more|, index);
            forall j {:trigger RowOk(f, |start|, list', parents', index + 1, j)} :: 0 <= j < |list'| ==>
              RowOk(f, |start|, list', parents', index + 1, j) && UnderAny(f, list'[j], start)
  {
    NewKids(f, start, list, parents, index);
    var more := f.kids[list[index]];
    KidsOf(f, list[index]);
    var list', parents' := list + more, parents + Repeat(|more|, index);
    forall j | 0 <= j < |list'| ensures RowOk(f, |start|, list', parents', index + 1, j) && UnderAny(f, list'[j], start) {
      if j < |list| {
        assert RowOk(f, |start|, list, parents, index, j);
      } else {
        assert list'[j] == more[j - |list|];
      }
    }
  }

  lemma BfsStepKids(f: Forest, start: seq<Entity>, list: seq<Entity>, parents: seq<int>, index: nat)
    requires WellFormed(f) && BfsAt(f, start, list, parents, index) && index < |list|
    requires list[index] in f.kids
    ensures var more := f.kids[list[index]];
            var list', parents' := list + more, parents + Repeat(|more|, index);
            forall i: int {:trigger RowsOf(list', parents', i)} :: i >= 0 ==>
              RowsOf(list', parents', i) == KidsOfRow(f, list', index + 1, i)
  {
    hide WellFormed;
    hide Repeat;
    hide RowOk;
    hide UnderAny;
    var more := f.kids[list[index]];
    var list', parents' := list + more, parents + Repeat(|more|, index);
    forall i: int | i >= 0 ensures RowsOf(list', parents', i) == KidsOfRow(f, list', index + 1, i) {
      RowsOfAppend(list, parents, more, index, i);
      assert RowsOf(list, parents, i) == KidsOfRow(f, list, index, i);
    }
  }

  lemma BfsBound(f: Forest, start: seq<Entity>, list: seq<Entity>, parents: seq<int>, index: nat)
    requires WellFormed(f) && BfsAt(f, start, list, parents, index)
    ensures |list| <= |f.parent|
  {
    forall x | x in list ensures x in f.parent.Keys {
      var j :| 0 <= j < |list| && list[j] == x;
      assert RowOk(f, |start|, list, parents, index, j);
    }
    DistinctBound(list, f.parent.Keys);
  }

  lemma BfsDistinct(f: Forest, start: seq<Entity>, list: seq<Entity>, parents: seq<int>, index: nat)
    requires WellFormed(f) && BfsAt(f, start, list, parents, index)
    ensures Distinct(list)
  {
  }

  lemma BfsLength(f: Forest, start: seq<Entity>, list: seq<Entity>, parents: seq<int>, index: nat)
    requires WellFormed(f) && BfsAt(f, start, list, parents, index)
    ensures |list| == |parents|
  {
  }

  lemma BfsParents(f: Forest, start: seq<Entity>, list: seq<Entity>, parents: seq<int>)
    requires WellFormed(f) && BfsAt(f, start, list, parents, |list|)
    ensures |list| == |parents|
    ensures forall j :: 0 <= j < |list| ==> -1 <= parents[j] < j && list[j] in f.parent
  {
    forall j | 0 <= j < |list| ensures -1 <= parents[j] < j && list[j] in f.parent {
      assert RowOk(f, |start|, list, parents, |list|, j);
    }
  }

  /** When every row has been expanded, the list is exactly the union of the trees. */
  lemma BfsDone(f: Forest, start: seq<Entity>, list: seq<Entity>, parents: seq<int>)
    requires WellFormed(f) && BfsAt(f, start, list, parents, |list|)
    ensures forall x :: x in list <==> x in f.parent && UnderAny(f, x, start)
  {
    forall x | x in list ensures x in f.parent && UnderAny(f, x, start) {
      var j :| 0 <= j < |list| && list[j] == x;
      assert RowOk(f, |start|, list, parents, |list|, j);
    }
    forall x | x in f.parent && UnderAny(f, x, start) ensures x in list {
      var i :| 0 <= i < |start| && Under(f, x, start[i]);
      BfsReaches(f, start, list, parents, x, start[i]);
    }
  }

  lemma {:induction false} BfsReaches(f: Forest, start: seq<Entity>, list: seq<Entity>, parents: seq<int>, x: Entity, root: Entity)
    requires WellFormed(f) && BfsAt(f, start, list, parents, |list|)
    requires x in f.parent && root in start && Under(f, x, root)
    ensures x in list
    decreases f.depth[x]
  {
    if x == root {
      assert start <= list;
    } else {
      BfsReaches(f, start, list, parents, f.parent[x], root);
      var i :| 0 <= i < |list| && list[i] == f.parent[x];
      assert RowsOf(list, parents, i) == KidsOfRow(f, list, |list|, i);
      RowsOfMembers(list, parents, i);
    }
  }

  lemma {:induction false} RowsOfMembers<T>(list: seq<T>, parents: seq<int>, i: int)
    requires |list| == |parents|
    ensures forall x :: x in RowsOf(list, parents, i) ==> x in list
  {
    if list != [] {
      RowsOfMembers(list[..|list| - 1], parents[..|list| - 1], i);
    }
  }

  lemma SubtreeApart(f: Forest, x: Entity)
    requires WellFormed(f) && x in f.parent
    ensures Apart(f, [x]) && BfsAt(f, [x], [x], [-1], 0)
  {
    ParentNotUnder(f, x);
    BfsStarts(f, [x]);
    assert Repeat(1, -1) == [-1];
  }

  lemma SubtreeListed(f: Forest, x: Entity, list: seq<Entity>, parents: seq<int>)
    requires WellFormed(f) && x in f.parent && BfsAt(f, [x], list, parents, |list|)
    ensures Distinct(list)
    ensures forall y :: y in list <==> y in f.parent && Under(f, y, x)
  {
    BfsDone(f, [x], list, parents);
    forall y | y in f.parent ensures UnderAny(f, y, [x]) <==> Under(f, y, x) {
      if Under(f, y, x) {
        assert Under(f, y, [x][0]);
      }
    }
  }

  /** The roots' trees lie apart and cover the forest. */
  lemma RootsApart(f: Forest, roots: seq<Entity>)
    requires WellFormed(f) && Distinct(roots)
    requires forall x :: x in roots <==> x in f.parent && f.parent[x] == NONE
    ensures Apart(f, roots)
    ensures forall x :: x in f.parent ==> UnderAny(f, x, roots)
  {
    forall i | 0 <= i < |roots| ensures roots[i] in f.parent && f.parent[roots[i]] == NONE {
      assert roots[i] in roots;
    }
    forall x | x in f.parent ensures UnderAny(f, x, roots) {
      var r := RootOf(f, x);
      var i :| 0 <= i < |roots| && roots[i] == r;
      assert Under(f, x, roots[i]);
    }
  }
}
