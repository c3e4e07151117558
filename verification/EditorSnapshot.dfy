/** The editor's copy of the forest: one row per entity, depth first, with its depth. */
module EditorSnapshots {
  import opened Entities
  import opened Sequences
  import opened Forests
  import opened PreorderLists
  import opened Scenes
  import Links

  datatype HierarchyRow = HierarchyRow(entity: Entity, depth: nat)

  ghost function EntitiesOf(rows: seq<HierarchyRow>): (list: seq<Entity>)
    ensures |list| == |rows| && forall i :: 0 <= i < |rows| ==> list[i] == rows[i].entity
  {
    seq(|rows|, i requires 0 <= i < |rows| => rows[i].entity)
  }

  /** The rows of a list of entities of `f`. */
  ghost function RowsOfList(f: Forest, list: seq<Entity>): (rows: seq<HierarchyRow>)
    requires WellFormed(f) && forall x :: x in list ==> x in f.parent
    ensures |rows| == |list|
  {
    if list == [] then [] else
    RowsOfList(f, list[..|list| - 1]) + [HierarchyRow(list[|list| - 1], f.depth[list[|list| - 1]])]
  }

  /** `rows` show the forest `f` depth first, with the depth of every entity. */
  ghost predicate Shows(f: Forest, roots: seq<Entity>, rows: seq<HierarchyRow>)
    requires WellFormed(f)
  {
    && DepthFirst(f, roots, EntitiesOf(rows))
    && (forall i {:trigger rows[i]} :: 0 <= i < |rows| ==>
          rows[i].entity in f.parent && rows[i].depth == f.depth[rows[i].entity])
  }

  /** `children` less those in `dragged`. */
  function Kept(children: seq<Entity>, dragged: seq<Entity>): seq<Entity> {
    if children == [] then [] else
    Kept(children[..|children| - 1], dragged)
    + if children[|children| - 1] in dragged then [] else [children[|children| - 1]]
  }

  /** The children after a drop: those kept, with the dragged ones put in at `position`. */
  function Dropped(children: seq<Entity>, dragged: seq<Entity>, position: nat): seq<Entity>
    requires position <= |Kept(children, dragged)|
  {
    Kept(children, dragged)[..position] + dragged + Kept(children, dragged)[position..]
  }

  lemma {:induction false} RowsOfListShow(f: Forest, list: seq<Entity>)
    requires WellFormed(f) && forall x :: x in list ==> x in f.parent
    ensures EntitiesOf(RowsOfList(f, list)) == list
    ensures forall i :: 0 <= i < |list| ==> RowsOfList(f, list)[i] == HierarchyRow(list[i], f.depth[list[i]])
  {
    hide WellFormed;
    if list != [] {
      var a := list[..|list| - 1];
      ForestKeys(f);
      RowsOfListShow(f, a);
      assert EntitiesOf(RowsOfList(f, list)) == EntitiesOf(RowsOfList(f, a)) + [list[|list| - 1]];
    }
  }

  lemma {:induction false} RowsOfListConcat(f: Forest, a: seq<Entity>, b: seq<Entity>)
    requires WellFormed(f) && (forall x :: x in a ==> x in f.parent) && (forall x :: x in b ==> x in f.parent)
    ensures RowsOfList(f, a + b) == RowsOfList(f, a) + RowsOfList(f, b)
  {
    if b == [] {
      assert a + b == a;
    } else {
      RowsOfListConcat(f, a, b[..|b| - 1]);
      assert (a + b)[..|a + b| - 1] == a + b[..|b| - 1];
    }
  }

  lemma SceneForest<L(!new), M(!new)>(scene: Scene<L, M>)
    requires scene.Structure()
    ensures WellFormed(scene.forest) && scene.forest.parent.Keys == scene.forest.kids.Keys == scene.forest.depth.Keys
    ensures scene.hierarchy.Keys == scene.forest.parent.Keys
  {
    hide WellFormed;
    Links.LinkedKeys(scene.hierarchy, scene.forest);
    ForestKeys(scene.forest);
  }

  lemma PreorderRows(f: Forest, e: Entity)
    requires WellFormed(f) && e in f.parent && e in f.depth
    ensures (forall x :: x in Preorder(f, e) ==> x in f.parent) && (forall x :: x in PreorderFrom(f, e, 0) ==> x in f.parent)
    ensures RowsOfList(f, Preorder(f, e)) == [HierarchyRow(e, f.depth[e])] + RowsOfList(f, PreorderFrom(f, e, 0))
  {
    hide WellFormed;
    hide PreorderFrom;
    hide Under;
    PreorderMembers(f, e);
    assert forall x :: x in PreorderFrom(f, e, 0) ==> x in Preorder(f, e);
    RowsOfListConcat(f, [e], PreorderFrom(f, e, 0));
    assert RowsOfList(f, []) == [];
    assert [e][..0] == [];
  }

  lemma PreorderRowsNext(f: Forest, e: Entity, i: nat)
    requires WellFormed(f) && e in f.parent && e in f.depth && i < |f.kids[e]|
    requires forall x :: x in PreorderFrom(f, e, i) ==> x in f.parent
    ensures f.kids[e][i] in f.parent && f.kids[e][i] in f.depth && f.depth[f.kids[e][i]] == f.depth[e] + 1
    ensures f.depth[f.kids[e][i]] < |f.parent|
    ensures (forall x :: x in PreorderFrom(f, e, i + 1) ==> x in f.parent)
    ensures (forall x :: x in Preorder(f, f.kids[e][i]) ==> x in f.parent)
    ensures RowsOfList(f, PreorderFrom(f, e, i)) ==
            RowsOfList(f, Preorder(f, f.kids[e][i])) + RowsOfList(f, PreorderFrom(f, e, i + 1))
  {
    hide Under;
    hide Preorder;
    hide RowsOfList;
    KidAt(f, e, i);
    DepthBound(f, f.kids[e][i]);
    var a, b := Preorder(f, f.kids[e][i]), PreorderFrom(f, e, i + 1);
    assert PreorderFrom(f, e, i) == a + b;
    RowsOfListConcat(f, a, b);
  }

  lemma PreorderRowsEnd(f: Forest, e: Entity)
    requires WellFormed(f) && e in f.parent && e in f.kids
    ensures PreorderFrom(f, e, |f.kids[e]|) == [] && RowsOfList(f, []) == []
  {
  }

  /** `rows` are those of the trees of `roots`. */
  ghost predicate ListedRows(f: Forest, roots: seq<Entity>, rows: seq<HierarchyRow>)
    requires WellFormed(f)
  {
    && (forall x :: x in roots ==> x in f.parent)
    && (forall x :: x in Listing(f, roots) ==> x in f.parent)
    && rows == RowsOfList(f, Listing(f, roots))
  }

  lemma ListingRowsNone(f: Forest, roots: seq<Entity>)
    requires WellFormed(f)
    ensures ListedRows(f, roots[..0], [])
  {
  }

  lemma RootDepth(f: Forest, roots: seq<Entity>, i: nat)
    requires WellFormed(f) && RootsOf(f, roots) && i < |roots|
    ensures roots[i] in f.parent && roots[i] in f.depth && f.depth[roots[i]] == 0
  {
    assert roots[i] in roots;
    ChainOfChild(f, roots[i]);
  }

  lemma ListingRowsNext(f: Forest, roots: seq<Entity>, i: nat, rows: seq<HierarchyRow>)
    requires WellFormed(f) && i < |roots| && roots[i] in f.parent && ListedRows(f, roots[..i], rows)
    requires forall x :: x in Preorder(f, roots[i]) ==> x in f.parent
    ensures ListedRows(f, roots[..i + 1], rows + RowsOfList(f, Preorder(f, roots[i])))
  {
    hide WellFormed;
    hide Preorder;
    hide RowsOfList;
    var rs := roots[..i + 1];
    assert rs[..|rs| - 1] == roots[..i];
    assert Listing(f, rs) == Listing(f, roots[..i]) + Preorder(f, roots[i]);
    RowsOfListConcat(f, Listing(f, roots[..i]), Preorder(f, roots[i]));
  }

  lemma ListingShows(f: Forest, roots: seq<Entity>, rows: seq<HierarchyRow>)
    requires WellFormed(f) && RootsOf(f, roots) && ListedRows(f, roots, rows)
    ensures Shows(f, roots, rows)
  {
    hide WellFormed;
    hide DepthFirst;
    hide Listing;
    ForestKeys(f);
    ListingIsDepthFirst(f, roots);
    RowsOfListShow(f, Listing(f, roots));
    assert forall i :: 0 <= i < |rows| ==> EntitiesOf(rows)[i] in Listing(f, roots);
  }

  // ----- What the rows say of the forest -----

  lemma RowListed(f: Forest, roots: seq<Entity>, rows: seq<HierarchyRow>, i: nat)
    requires WellFormed(f) && Shows(f, roots, rows) && i < |rows|
    ensures rows[i].entity in f.parent && rows[i].entity in f.depth && rows[i].depth == f.depth[rows[i].entity]
    ensures rows[i].entity.Valid()
  {
    hide DepthFirst;
    ForestKeys(f);
  }

  lemma NotListed(f: Forest, roots: seq<Entity>, rows: seq<HierarchyRow>, e: Entity)
    requires WellFormed(f) && Shows(f, roots, rows)
    requires forall i :: 0 <= i < |rows| ==> rows[i].entity != e
    ensures e !in f.parent
  {
    hide WellFormed;
    hide DepthFirst;
    if e in f.parent {
      var m := RowOf(f, roots, EntitiesOf(rows), e);
    }
  }

  lemma SubtreeRows(f: Forest, roots: seq<Entity>, rows: seq<HierarchyRow>, r: nat, i: nat)
    requires WellFormed(f) && Shows(f, roots, rows) && r < |rows| && i < |rows|
    requires rows[i].entity in f.parent
    ensures Under(f, rows[i].entity, rows[r].entity) <==>
            i == r || (r < i && forall k :: r < k <= i ==> rows[k].depth > rows[r].depth)
  {
    hide WellFormed;
    hide DepthFirst;
    hide Under;
    ForestKeys(f);
    var list := EntitiesOf(rows);
    assert forall k :: 0 <= k < |rows| ==> list[k] == rows[k].entity && list[k] in f.parent && f.depth[list[k]] == rows[k].depth;
    SubtreeIsRun(f, roots, list, r, i);
  }

  lemma OutsideRun(f: Forest, roots: seq<Entity>, rows: seq<HierarchyRow>, r: nat, end: nat, e: Entity)
    requires WellFormed(f) && Shows(f, roots, rows) && r < end <= |rows| && rows[r].entity != e
    requires forall k :: r < k < end ==> rows[k].entity != e
    requires end < |rows| ==> rows[end].depth <= rows[r].depth
    ensures !(e in f.parent && Under(f, e, rows[r].entity))
  {
    hide WellFormed;
    hide DepthFirst;
    hide Under;
    if e in f.parent {
      var m := RowOf(f, roots, EntitiesOf(rows), e);
      assert rows[m].entity == e;
      SubtreeRows(f, roots, rows, r, m);
    }
  }

  lemma ParentRow(f: Forest, roots: seq<Entity>, rows: seq<HierarchyRow>, j: nat, i: nat)
    requires WellFormed(f) && Shows(f, roots, rows) && j < i < |rows|
    requires rows[j].depth + 1 == rows[i].depth
    requires forall k :: j < k < i ==> rows[k].depth + 1 != rows[i].depth
    ensures rows[i].entity in f.parent && f.parent[rows[i].entity] == rows[j].entity
  {
    hide WellFormed;
    hide DepthFirst;
    ForestKeys(f);
    var list := EntitiesOf(rows);
    assert forall k :: 0 <= k < |rows| ==> list[k] == rows[k].entity && list[k] in f.parent && f.depth[list[k]] == rows[k].depth;
    NearestAbove(f, roots, list, j, i);
  }

  lemma RootRow(f: Forest, roots: seq<Entity>, rows: seq<HierarchyRow>, i: nat)
    requires WellFormed(f) && Shows(f, roots, rows) && i < |rows|
    requires forall k :: 0 <= k < i ==> rows[k].depth + 1 != rows[i].depth
    ensures rows[i].entity in f.parent && f.parent[rows[i].entity] == NONE
  {
    hide WellFormed;
    hide DepthFirst;
    ForestKeys(f);
    var e := rows[i].entity;
    if f.parent[e] != NONE {
      var j := ParentBefore(f, roots, EntitiesOf(rows), i);
      ChainOfChild(f, e);
      RowListed(f, roots, rows, j);
    }
  }

  /** `count` siblings of row `row` lie between it and row `previous`. */
  ghost predicate SiblingsOf(f: Forest, roots: seq<Entity>, rows: seq<HierarchyRow>, row: nat, previous: nat, count: nat)
    requires WellFormed(f) && previous <= row < |rows|
  {
    var x, y, d := rows[previous].entity, rows[row].entity, rows[row].depth;
    && x in f.parent && x in f.depth && d <= f.depth[x]
    && y in f.parent && y in f.depth && d == f.depth[y]
    && SiblingsBack(f, roots, y, d) == count + SiblingsBack(f, roots, x, d)
  }

  lemma SiblingStep(f: Forest, roots: seq<Entity>, rows: seq<HierarchyRow>, row: nat, previous: nat, count: nat)
    requires WellFormed(f) && Shows(f, roots, rows) && 0 < previous <= row < |rows|
    requires rows[previous - 1].depth >= rows[row].depth && SiblingsOf(f, roots, rows, row, previous, count)
    ensures SiblingsOf(f, roots, rows, row, previous - 1, count + if rows[previous - 1].depth == rows[row].depth then 1 else 0)
  {
    hide WellFormed;
    hide SiblingsBack;
    hide Follows;
    ForestKeys(f);
    var list := EntitiesOf(rows);
    assert FollowsAt(f, roots, list, previous - 1);
    RowListed(f, roots, rows, previous - 1);
    SiblingBack(f, roots, rows[previous - 1].entity, rows[previous].entity, rows[row].depth);
  }

  lemma SiblingsDone(f: Forest, roots: seq<Entity>, rows: seq<HierarchyRow>, row: nat, previous: nat, count: nat)
    requires WellFormed(f) && Shows(f, roots, rows) && previous <= row < |rows|
    requires previous > 0 ==> rows[previous - 1].depth < rows[row].depth
    requires SiblingsOf(f, roots, rows, row, previous, count)
    ensures rows[row].entity in f.parent && count == SiblingIndex(f, roots, rows[row].entity)
  {
    hide WellFormed;
    hide DepthFirst;
    hide SiblingIndex;
    ForestKeys(f);
    SiblingFirst(f, roots, EntitiesOf(rows), previous, rows[row].depth);
  }

  // ----- Drops -----

  ghost predicate DropOk(f: Forest, e: Entity, parent: Entity)
    requires WellFormed(f)
  {
    e in f.parent && !(parent in f.parent && Under(f, parent, e))
  }

  ghost predicate AllDropOk(f: Forest, dragged: seq<Entity>, parent: Entity)
    requires WellFormed(f)
  {
    forall i :: 0 <= i < |dragged| ==> DropOk(f, dragged[i], parent)
  }

  ghost predicate IsChild(f: Forest, e: Entity) {
    e in f.parent && f.parent[e] != NONE
  }

  ghost predicate SomeChild(f: Forest, dragged: seq<Entity>) {
    exists i :: 0 <= i < |dragged| && IsChild(f, dragged[i])
  }

  lemma NothingDragged(f: Forest)
    ensures !SomeChild(f, [])
  {
  }

  lemma ParentsValid(f: Forest)
    requires WellFormed(f)
    ensures forall x :: x in f.parent ==> x.Valid()
    ensures NONE !in f.parent
    ensures forall x :: x in f.parent && f.parent[x] != NONE ==> f.parent[x] in f.parent
    ensures f.parent.Keys == f.kids.Keys
  {
  }

  lemma ChildDepth(f: Forest, e: Entity)
    requires WellFormed(f) && e in f.parent && e in f.depth
    ensures f.depth[e] > 0 <==> IsChild(f, e)
  {
    ChainOfChild(f, e);
  }

  /** What dropping at a gap means: `dragged` at the gap, taken out of wherever else it stood. */
  function DropAt(children: seq<Entity>, dragged: seq<Entity>, gap: nat): seq<Entity> {
    var g := if gap < |children| then gap else |children|;
    Kept(children[..g], dragged) + dragged + Kept(children[g..], dragged)
  }

  lemma {:induction false} KeptConcat(a: seq<Entity>, b: seq<Entity>, dragged: seq<Entity>)
    ensures Kept(a + b, dragged) == Kept(a, dragged) + Kept(b, dragged)
  {
    if b == [] {
      assert a + b == a;
    } else {
      assert (a + b)[..|a + b| - 1] == a + b[..|b| - 1];
      KeptConcat(a, b[..|b| - 1], dragged);
    }
  }

  lemma KeptNext(children: seq<Entity>, dragged: seq<Entity>, i: nat)
    requires i < |children|
    ensures Kept(children[..i + 1], dragged) ==
            Kept(children[..i], dragged) + if children[i] in dragged then [] else [children[i]]
  {
    assert children[..i + 1][..i] == children[..i];
  }

  lemma DroppedAtGap(children: seq<Entity>, dragged: seq<Entity>, gap: nat, position: nat)
    requires position == |Kept(children[..if |children| < gap then |children| else gap], dragged)|
    ensures position <= |Kept(children, dragged)|
    ensures Dropped(children, dragged, position) == DropAt(children, dragged, gap)
  {
    hide Kept;
    var g := if gap < |children| then gap else |children|;
    KeptConcat(children[..g], children[g..], dragged);
    assert children == children[..g] + children[g..];
  }

  /** Keeping all but one entity of a list without repetition. */
  lemma {:induction false} KeptOne(s: seq<Entity>, e: Entity)
    requires Distinct(s)
    ensures Kept(s, [e]) == Without(s, e)
  {
    hide Distinct;
    hide Without;
    if s == [] {
      AbsentStays(s, e);
    } else {
      var t, last := s[..|s| - 1], s[|s| - 1];
      assert s == t + [last];
      DistinctInit(t, last);
      KeptOne(t, e);
      WithoutAppend(t, last, e);
      if e !in t {
        AbsentStays(t, e);
      }
    }
  }

  lemma DistinctInit(t: seq<Entity>, last: Entity)
    requires Distinct(t + [last])
    ensures Distinct(t) && last !in t
  {
    var s := t + [last];
    assert s[|t|] == last;
    forall i, j | 0 <= i < j < |t| ensures t[i] != t[j] {
      assert s[i] == t[i] && s[j] == t[j];
    }
    forall i | 0 <= i < |t| ensures t[i] != last {
      assert s[i] == t[i];
    }
  }

  lemma AbsentStays(s: seq<Entity>, e: Entity)
    requires e !in s
    ensures Without(s, e) == s
  {
  }

  lemma WithoutAppend(t: seq<Entity>, last: Entity, e: Entity)
    ensures Without(t + [last], e) ==
            if e in t then Without(t, e) + [last] else if e == last then t else t + [last]
  {
    hide IndexOf;
    var s := t + [last];
    if e in t {
      IndexOfAppend(t, last, e);
      var k := IndexOf(t, e);
      assert s[..k] == t[..k] && s[k + 1..] == t[k + 1..] + [last];
    } else if e == last {
      var k := IndexOf(s, e);
      assert s[..|t|] == t;
      assert k == |t| && s[k + 1..] == [];
    }
  }

  lemma {:induction false} IndexOfAppend(t: seq<Entity>, last: Entity, e: Entity)
    requires e in t
    ensures IndexOf(t + [last], e) == IndexOf(t, e)
  {
    if t[0] != e {
      IndexOfAppend(t[1..], last, e);
      assert (t + [last])[1..] == t[1..] + [last];
    }
  }

  lemma WithoutOne(s: seq<Entity>, i: nat)
    requires Distinct(s) && i < |s|
    ensures Kept(s, [s[i]]) == s[..i] + s[i + 1..] == Without(s, s[i])
  {
    hide Kept;
    hide IndexOf;
    hide Distinct;
    KeptOne(s, s[i]);
    IndexOfDistinct(s, i);
  }

  lemma WithoutNone(s: seq<Entity>, e: Entity)
    requires Distinct(s) && e !in s
    ensures Kept(s, [e]) == s
  {
    KeptOne(s, e);
  }

  /** The two sides of a gap, less the moved child. */
  lemma DistinctCut(s: seq<Entity>, gap: nat, i: nat)
    requires Distinct(s) && gap <= |s| && i < |s|
    ensures Distinct(s[..gap]) && Distinct(s[gap..])
    ensures if i < gap then s[..gap][i] == s[i] && s[i] !in s[gap..] else s[gap..][i - gap] == s[i] && s[i] !in s[..gap]
  {
  }

  lemma GapSides(s: seq<Entity>, i: nat, gap: nat, position: nat)
    requires Distinct(s) && i < |s| && gap <= |s| && position == if i < gap then gap - 1 else gap
    ensures var w := s[..i] + s[i + 1..];
            Kept(s[..gap], [s[i]]) == w[..position] && Kept(s[gap..], [s[i]]) == w[position..]
  {
    hide Kept;
    hide Distinct;
    DistinctCut(s, gap, i);
    var w := s[..i] + s[i + 1..];
    var a, b := s[..gap], s[gap..];
    if i < gap {
      WithoutOne(a, i);
      WithoutNone(b, s[i]);
      assert a[..i] + a[i + 1..] == w[..position];
      assert b == w[position..];
    } else {
      WithoutOne(b, i - gap);
      WithoutNone(a, s[i]);
      assert b[..i - gap] + b[i - gap + 1..] == w[position..];
      assert a == w[..position];
    }
  }

  /** Moving one of the children to a gap. */
  lemma DropOneAt(s: seq<Entity>, i: nat, gap: nat, position: nat)
    requires Distinct(s) && i < |s| && position == if i < gap then gap - 1 else gap
    ensures |Without(s, s[i])| == |s| - 1
    ensures Insert(Without(s, s[i]), AtMost(position, |s| - 1), s[i]) == DropAt(s, [s[i]], gap)
    ensures DropAt(s, [s[i]], gap) == s <==> AtMost(position, |s| - 1) == i
  {
    hide Kept;
    hide Without;
    var g := AtMost(gap, |s|);
    var p := AtMost(position, |s| - 1);
    assert p == if i < g then g - 1 else g;
    WithoutOne(s, i);
    GapSides(s, i, g, p);
    InsertBack(s, i, p);
  }

  function AtMost(n: nat, bound: nat): nat {
    if n < bound then n else bound
  }

  /** The index a single drop computes differs from the old one exactly when the children change, unless the
      last child is dropped past the gap behind it. */
  lemma DropOneTells(s: seq<Entity>, i: nat, gap: nat, position: nat)
    requires Distinct(s) && i < |s| && position == if i < gap then gap - 1 else gap
    ensures position != i <==> DropAt(s, [s[i]], gap) != s || gap > |s|
    ensures (position != i <==> DropAt(s, [s[i]], gap) != s) <==> gap <= |s| || i < |s| - 1
  {
    hide DropAt;
    DropOneAt(s, i, gap, position);
  }

  /** Dropping the second of two children two gaps behind itself: the index differs and the children do not. */
  lemma DropPastTheEnd()
    ensures var a, b := Entity(1, 0), Entity(2, 0);
            var current, gap := 1, 3;
            var position := if current < gap then gap - 1 else gap;
            position != current && DropAt([a, b], [b], gap) == [a, b]
  {
    var a, b := Entity(1, 0), Entity(2, 0);
    assert [a, b] == [a] + [b];
    KeptConcat([a], [b], [b]);
    assert [a][..0] == [] && [b][..0] == [];
    assert [a, b][..2] == [a, b] && [a, b][2..] == [];
  }

  /** An element taken out comes back to the same list exactly at its own place. */
  lemma InsertBack(s: seq<Entity>, i: nat, position: nat)
    requires Distinct(s) && i < |s| && position < |s|
    ensures Insert(s[..i] + s[i + 1..], position, s[i]) == s <==> position == i
  {
    var w := s[..i] + s[i + 1..];
    assert w[..i] == s[..i] && w[i..] == s[i + 1..];
    assert Insert(w, position, s[i])[position] == s[i];
  }

  lemma DropOneResult(f: Forest, roots: seq<Entity>, dragged: Entity, gap: nat, position: nat)
    requires WellFormed(f) && dragged in f.parent && f.parent[dragged] != NONE
    requires f.parent[dragged] in f.parent && f.parent[dragged] in f.kids
    requires position == if SiblingIndex(f, roots, dragged) < gap then gap - 1 else gap
    ensures var s := f.kids[f.parent[dragged]];
            && s != [] && |Without(s, dragged)| == |s| - 1
            && Insert(Without(s, dragged), AtMost(position, |s| - 1), dragged) == DropAt(s, [dragged], gap)
            && (position != SiblingIndex(f, roots, dragged) <==> DropAt(s, [dragged], gap) != s || gap > |s|)
            && ((position != SiblingIndex(f, roots, dragged) <==> DropAt(s, [dragged], gap) != s) <==>
                gap <= |s| || s[|s| - 1] != dragged)
  {
    hide DropAt;
    hide Insert;
    hide Without;
    KidsOf(f, f.parent[dragged]);
    DropOneAt(f.kids[f.parent[dragged]], SiblingIndex(f, roots, dragged), gap, position);
    DropOneTells(f.kids[f.parent[dragged]], SiblingIndex(f, roots, dragged), gap, position);
  }

  // ----- Collecting children -----

  ghost predicate ChildrenSoFar(f: Forest, rows: seq<HierarchyRow>, r: nat, j: nat, children: seq<Entity>)
    requires WellFormed(f) && r <= j < |rows|
  {
    var p := rows[r].entity;
    && p in f.parent
    && |children| <= |f.kids[p]| && children == f.kids[p][..|children|]
    && Collected(f, EntitiesOf(rows), r, j, |children|)
  }

  lemma ChildrenStart(f: Forest, roots: seq<Entity>, rows: seq<HierarchyRow>, r: nat)
    requires WellFormed(f) && Shows(f, roots, rows) && r < |rows|
    ensures ChildrenSoFar(f, rows, r, r, [])
  {
    hide DepthFirst;
    RowListed(f, roots, rows, r);
  }

  lemma ChildrenStep(f: Forest, roots: seq<Entity>, rows: seq<HierarchyRow>, r: nat, j: nat, children: seq<Entity>)
    requires WellFormed(f) && Shows(f, roots, rows) && r <= j < |rows| - 1
    requires ChildrenSoFar(f, rows, r, j, children) && rows[j + 1].depth >= rows[r].depth + 1
    ensures ChildrenSoFar(f, rows, r, j + 1,
                          if rows[j + 1].depth == rows[r].depth + 1 then children + [rows[j + 1].entity] else children)
  {
    hide WellFormed;
    hide DepthFirst;
    hide Collected;
    ForestKeys(f);
    CollectStep(f, roots, EntitiesOf(rows), r, j, |children|);
  }

  lemma ChildrenDone(f: Forest, roots: seq<Entity>, rows: seq<HierarchyRow>, r: nat, j: nat, children: seq<Entity>)
    requires WellFormed(f) && Shows(f, roots, rows) && r <= j < |rows|
    requires ChildrenSoFar(f, rows, r, j, children)
    requires j + 1 < |rows| ==> rows[j + 1].depth < rows[r].depth + 1
    ensures rows[r].entity in f.parent && rows[r].entity in f.kids && children == f.kids[rows[r].entity]
  {
    hide WellFormed;
    hide DepthFirst;
    hide Collected;
    ForestKeys(f);
    CollectEnd(f, roots, EntitiesOf(rows), r, j, |children|);
  }

  // ----- Selections -----

  /** `x` is selected or lies below a selected entity. */
  ghost predicate SelectedOrBelow(f: Forest, x: Entity, selection: seq<Entity>)
    requires WellFormed(f) && x in f.parent
    decreases f.depth[x]
  {
    x in selection || (f.parent[x] != NONE && SelectedOrBelow(f, f.parent[x], selection))
  }

  ghost predicate Topmost(f: Forest, x: Entity, selection: seq<Entity>)
    requires WellFormed(f) && x in f.parent
  {
    x in selection && !(f.parent[x] != NONE && SelectedOrBelow(f, f.parent[x], selection))
  }

  /** The topmost selected entities of a list, in its order. */
  ghost function TopmostOf(f: Forest, list: seq<Entity>, selection: seq<Entity>): seq<Entity>
    requires WellFormed(f) && forall i :: 0 <= i < |list| ==> list[i] in f.parent
  {
    if list == [] then [] else
    TopmostOf(f, list[..|list| - 1], selection)
    + if Topmost(f, list[|list| - 1], selection) then [list[|list| - 1]] else []
  }

  lemma {:induction false} SelectedMeans(f: Forest, x: Entity, selection: seq<Entity>)
    requires WellFormed(f) && x in f.parent
    ensures SelectedOrBelow(f, x, selection) <==> exists a :: a in selection && Under(f, x, a)
    decreases f.depth[x]
  {
    if f.parent[x] != NONE {
      SelectedMeans(f, f.parent[x], selection);
    }
  }

  /** A topmost entity is a selected one with no other selected entity above it. */
  lemma TopmostMeans(f: Forest, x: Entity, selection: seq<Entity>)
    requires WellFormed(f) && x in f.parent
    ensures Topmost(f, x, selection) <==>
            x in selection && forall a :: a in selection && Under(f, x, a) ==> a == x
  {
    if f.parent[x] != NONE {
      SelectedMeans(f, f.parent[x], selection);
      ParentNotUnder(f, x);
    }
  }

  lemma {:induction false} TopmostMembers(f: Forest, list: seq<Entity>, selection: seq<Entity>)
    requires WellFormed(f) && forall i :: 0 <= i < |list| ==> list[i] in f.parent
    ensures forall x :: x in TopmostOf(f, list, selection) <==> x in list && Topmost(f, x, selection)
  {
    hide WellFormed;
    hide Topmost;
    if list != [] {
      TopmostMembers(f, list[..|list| - 1], selection);
      assert list == list[..|list| - 1] + [list[|list| - 1]];
    }
  }

  /** `at` are the places in the list, in order, of the selected entities with no other selected entity above, and
      `out` are those entities. */
  ghost predicate TopmostAt(f: Forest, list: seq<Entity>, selection: seq<Entity>, out: seq<Entity>, at: seq<nat>)
    requires WellFormed(f) && forall i :: 0 <= i < |list| ==> list[i] in f.parent
  {
    && |at| == |out|
    && (forall j, k :: 0 <= j < k < |at| ==> at[j] < at[k])
    && (forall k :: 0 <= k < |at| ==> at[k] < |list| && out[k] == list[at[k]])
    && (forall i: nat :: i in at <==> i < |list| && NoneAbove(f, list[i], selection))
  }

  ghost predicate NoneAbove(f: Forest, x: Entity, selection: seq<Entity>)
    requires WellFormed(f) && x in f.parent
  {
    x in selection && forall a :: a in selection && Under(f, x, a) ==> a == x
  }

  /** The topmost entities of a list come in the order of the list. */
  lemma {:induction false} TopmostInOrder(f: Forest, list: seq<Entity>, selection: seq<Entity>) returns (at: seq<nat>)
    requires WellFormed(f) && forall i :: 0 <= i < |list| ==> list[i] in f.parent
    ensures TopmostAt(f, list, selection, TopmostOf(f, list, selection), at)
  {
    hide WellFormed;
    hide Topmost;
    hide NoneAbove;
    if list == [] {
      at := [];
    } else {
      hide TopmostAt;
      var front, last := list[..|list| - 1], list[|list| - 1];
      at := TopmostInOrder(f, front, selection);
      assert list == front + [last];
      TopmostOne(f, front, last, selection, TopmostOf(f, front, selection), at);
      if Topmost(f, last, selection) {
        at := at + [|front|];
      } else {
        assert TopmostOf(f, list, selection) == TopmostOf(f, front, selection);
      }
    }
  }

  lemma TopmostOne(f: Forest, front: seq<Entity>, x: Entity, selection: seq<Entity>, out: seq<Entity>, at: seq<nat>)
    requires WellFormed(f) && (forall i :: 0 <= i < |front| ==> front[i] in f.parent) && x in f.parent
    requires TopmostAt(f, front, selection, out, at)
    ensures if Topmost(f, x, selection) then TopmostAt(f, front + [x], selection, out + [x], at + [|front|])
            else TopmostAt(f, front + [x], selection, out, at)
  {
    hide WellFormed;
    hide Topmost;
    hide NoneAbove;
    TopmostIs(f, x, selection);
  }

  lemma TopmostIs(f: Forest, x: Entity, selection: seq<Entity>)
    requires WellFormed(f) && x in f.parent
    ensures Topmost(f, x, selection) <==> NoneAbove(f, x, selection)
  {
    hide WellFormed;
    hide Topmost;
    TopmostMeans(f, x, selection);
  }

  /** Every selected entity lies below one topmost selected entity. */
  lemma {:induction false} TopmostCovers(f: Forest, x: Entity, selection: seq<Entity>) returns (top: Entity)
    requires WellFormed(f) && x in f.parent && SelectedOrBelow(f, x, selection)
    ensures top in f.parent && Topmost(f, top, selection) && Under(f, x, top)
    decreases f.depth[x]
  {
    if Topmost(f, x, selection) {
      top := x;
    } else {
      top := TopmostCovers(f, f.parent[x], selection);
    }
  }

  /** Entry `d` of the path says whether the ancestor at depth `d` is selected or below a selected one. */
  ghost predicate PathShows(f: Forest, x: Entity, selection: seq<Entity>, path: seq<bool>)
    requires WellFormed(f)
  {
    && x in f.parent && |path| == f.depth[x] + 1
    && forall d {:trigger path[d]} :: 0 <= d <= f.depth[x] ==>
         Chain(f, x)[d] in f.parent && path[d] == SelectedOrBelow(f, Chain(f, x)[d], selection)
  }

  lemma AllListed(f: Forest, roots: seq<Entity>, rows: seq<HierarchyRow>)
    requires WellFormed(f) && Shows(f, roots, rows)
    ensures forall i :: 0 <= i < |rows| ==> rows[i].entity in f.parent && EntitiesOf(rows)[i] == rows[i].entity
  {
    hide DepthFirst;
  }

  lemma FirstRow(f: Forest, roots: seq<Entity>, rows: seq<HierarchyRow>)
    requires WellFormed(f) && Shows(f, roots, rows) && rows != []
    ensures rows[0].depth == 0
  {
    hide DepthFirst;
    FirstIsRoot(f, roots, EntitiesOf(rows));
  }

  lemma PathLength(f: Forest, roots: seq<Entity>, rows: seq<HierarchyRow>, row: nat, selection: seq<Entity>, path: seq<bool>)
    requires WellFormed(f) && Shows(f, roots, rows) && 0 < row < |rows|
    requires PathShows(f, rows[row - 1].entity, selection, path)
    ensures rows[row].depth <= |path|
  {
    hide WellFormed;
    hide DepthFirst;
    ForestKeys(f);
    RowListed(f, roots, rows, row);
    RowListed(f, roots, rows, row - 1);
    StepChain(f, roots, EntitiesOf(rows), row - 1);
  }

  /** Overwriting one entry of the path carries it from one row to the next. */
  lemma PathStep(f: Forest, roots: seq<Entity>, rows: seq<HierarchyRow>, row: nat, selection: seq<Entity>,
                 path: seq<bool>, next: seq<bool>)
    requires WellFormed(f) && Shows(f, roots, rows) && row < |rows| && rows[row].entity in f.parent
    requires row > 0 ==> PathShows(f, rows[row - 1].entity, selection, path)
    requires var d := rows[row].depth;
             && d <= |path| && |next| == d + 1 && next[..d] == path[..d]
             && next[d] == (rows[row].entity in selection || (d > 0 && path[d - 1]))
    ensures PathShows(f, rows[row].entity, selection, next)
    ensures var d := rows[row].depth;
            Topmost(f, rows[row].entity, selection) <==> rows[row].entity in selection && !(d > 0 && path[d - 1])
  {
    hide DepthFirst;
    hide WellFormed;
    hide PathShows;
    hide Topmost;
    hide SelectedOrBelow;
    RowListed(f, roots, rows, row);
    if row == 0 {
      FirstRow(f, roots, rows);
      PathRoot(f, rows[row].entity, selection, next);
    } else {
      RowListed(f, roots, rows, row - 1);
      StepChain(f, roots, EntitiesOf(rows), row - 1);
      PathBelow(f, rows[row - 1].entity, rows[row].entity, selection, path, next);
    }
  }

  lemma PathRoot(f: Forest, x: Entity, selection: seq<Entity>, next: seq<bool>)
    requires WellFormed(f) && x in f.parent && f.depth[x] == 0
    requires |next| == 1 && next[0] == (x in selection)
    ensures PathShows(f, x, selection, next)
    ensures Topmost(f, x, selection) <==> x in selection
  {
    ChainOfChild(f, x);
  }

  lemma PathBelow(f: Forest, w: Entity, x: Entity, selection: seq<Entity>, path: seq<bool>, next: seq<bool>)
    requires WellFormed(f) && w in f.parent && x in f.parent && x in f.depth && w in f.depth && f.depth[x] <= f.depth[w] + 1
    requires Chain(f, x)[..f.depth[x]] == Chain(f, w)[..f.depth[x]]
    requires PathShows(f, w, selection, path)
    requires var d := f.depth[x];
             d <= |path| && |next| == d + 1 && next[..d] == path[..d] && next[d] == (x in selection || (d > 0 && path[d - 1]))
    ensures PathShows(f, x, selection, next)
    ensures var d := f.depth[x]; Topmost(f, x, selection) <==> x in selection && !(d > 0 && path[d - 1])
  {
    hide *;
    var d := f.depth[x];
    ForestKeys(f);
    ChainOfChild(f, x);
    SelectedUnfold(f, x, selection);
    PathUpper(f, w, x, selection, path);
    if d > 0 {
      assert Chain(f, x)[..d][d - 1] == f.parent[x];
    }
    forall e | 0 <= e <= d
      ensures Chain(f, x)[e] in f.parent && next[e] == SelectedOrBelow(f, Chain(f, x)[e], selection)
    {
      if e < d {
        assert next[..d][e] == path[..d][e];
      } else {
        assert Chain(f, x)[d] == x;
      }
    }
    PathMade(f, x, selection, next);
  }

  lemma PathMade(f: Forest, x: Entity, selection: seq<Entity>, path: seq<bool>)
    requires WellFormed(f) && x in f.parent && x in f.depth && |path| == f.depth[x] + 1
    requires forall e :: 0 <= e <= f.depth[x] ==>
               Chain(f, x)[e] in f.parent && path[e] == SelectedOrBelow(f, Chain(f, x)[e], selection)
    ensures PathShows(f, x, selection, path)
  {
    hide WellFormed;
    hide Chain;
    hide SelectedOrBelow;
  }

  lemma PathUpper(f: Forest, w: Entity, x: Entity, selection: seq<Entity>, path: seq<bool>)
    requires WellFormed(f) && w in f.parent && x in f.parent && x in f.depth && w in f.depth && f.depth[x] <= f.depth[w] + 1
    requires Chain(f, x)[..f.depth[x]] == Chain(f, w)[..f.depth[x]]
    requires PathShows(f, w, selection, path)
    ensures forall e :: 0 <= e < f.depth[x] ==>
              Chain(f, x)[e] in f.parent && path[e] == SelectedOrBelow(f, Chain(f, x)[e], selection)
  {
    hide WellFormed;
    hide Chain;
    hide SelectedOrBelow;
    forall e | 0 <= e < f.depth[x]
      ensures Chain(f, x)[e] in f.parent && path[e] == SelectedOrBelow(f, Chain(f, x)[e], selection)
    {
      PathEntry(f, w, x, e);
      ChainEntries(f, w, e);
    }
  }

  lemma SelectedUnfold(f: Forest, x: Entity, selection: seq<Entity>)
    requires WellFormed(f) && x in f.parent
    ensures f.parent[x] != NONE ==> f.parent[x] in f.parent
    ensures SelectedOrBelow(f, x, selection) <==>
            x in selection || (f.parent[x] != NONE && SelectedOrBelow(f, f.parent[x], selection))
    ensures Topmost(f, x, selection) <==>
            x in selection && !(f.parent[x] != NONE && SelectedOrBelow(f, f.parent[x], selection))
  {
  }

  lemma PathEntry(f: Forest, w: Entity, x: Entity, e: nat)
    requires WellFormed(f) && w in f.parent && x in f.parent && x in f.depth && w in f.depth && f.depth[x] <= f.depth[w] + 1
    requires Chain(f, x)[..f.depth[x]] == Chain(f, w)[..f.depth[x]] && e < f.depth[x]
    ensures Chain(f, x)[e] == Chain(f, w)[e]
  {
    hide WellFormed;
    assert Chain(f, x)[..f.depth[x]][e] == Chain(f, w)[..f.depth[x]][e];
  }

  class EditorSnapshot {
    var hierarchy: seq<HierarchyRow>

    constructor ()
      ensures hierarchy == []
    {
      hierarchy := [];
    }

    // ----- Flattening -----

    /** Appends the rows of `entity` and of everything below it. */
    method AppendSubtree<L(!new), M(!new)>(scene: Scene<L, M>, entity: Entity, depth: nat)
      requires scene.Structure() && entity in scene.forest.parent && entity in scene.forest.depth
      requires depth == scene.forest.depth[entity]
      modifies this
      ensures forall x :: x in Preorder(scene.forest, entity) ==> x in scene.forest.parent
      ensures hierarchy == old(hierarchy) + RowsOfList(scene.forest, Preorder(scene.forest, entity))
      decreases |scene.forest.parent| - scene.forest.depth[entity]
    {
      hide Scene.Structure;
      hide WellFormed;
      hide Under;
      hide Preorder;
      hide PreorderFrom;
      hide RowsOfList;
      ghost var f := scene.forest;
      SceneForest(scene);
      PreorderRows(f, entity);
      ghost var target := hierarchy + RowsOfList(f, Preorder(f, entity));
      hierarchy := hierarchy + [HierarchyRow(entity, depth)];
      var children := scene.GetChildren(entity);
      var i := 0;
      while i < |children|
        invariant i <= |children| == |f.kids[entity]|
        invariant forall x :: x in PreorderFrom(f, entity, i) ==> x in f.parent
        invariant hierarchy + RowsOfList(f, PreorderFrom(f, entity, i)) == target
      {
        PreorderRowsNext(f, entity, i);
        AppendSubtree(scene, children[i], depth + 1);
        i := i + 1;
      }
      PreorderRowsEnd(f, entity);
    }

    /** Rebuilds the rows from the scene. */
    method BuildSnapshot<L(!new), M(!new)>(scene: Scene<L, M>) returns (ghost roots: seq<Entity>)
      requires scene.Structure()
      modifies this
      ensures WellFormed(scene.forest) && RootsOf(scene.forest, roots)
      ensures Shows(scene.forest, roots, hierarchy)
    {
      hide Scene.Structure;
      hide WellFormed;
      hide Preorder;
      hide RowsOfList;
      hide ListedRows;
      hide Shows;
      ghost var f := scene.forest;
      SceneForest(scene);
      hierarchy := [];
      var list := scene.GetRoots();
      roots := list;
      ListingRowsNone(f, roots);
      var i := 0;
      while i < |list|
        invariant i <= |list|
        invariant ListedRows(f, roots[..i], hierarchy)
      {
        RootDepth(f, roots, i);
        ghost var rows := hierarchy;
        AppendSubtree(scene, list[i], 0);
        ListingRowsNext(f, roots, i, rows);
        i := i + 1;
      }
      assert roots[..i] == roots;
      ListingShows(f, roots, hierarchy);
    }

    // ----- Queries over the rows -----

    method FindRow(ghost f: Forest, ghost roots: seq<Entity>, entity: Entity) returns (found: bool, row: nat)
      requires WellFormed(f) && Shows(f, roots, hierarchy)
      ensures found <==> entity in f.parent
      ensures found ==> row < |hierarchy| && hierarchy[row].entity == entity
    {
      hide WellFormed;
      hide Shows;
      row := 0;
      while row < |hierarchy|
        invariant row <= |hierarchy|
        invariant forall k :: 0 <= k < row ==> hierarchy[k].entity != entity
      {
        if hierarchy[row].entity == entity {
          RowListed(f, roots, hierarchy, row);
          return true, row;
        }
        row := row + 1;
      }
      found := false;
      NotListed(f, roots, hierarchy, entity);
    }

    /** Whether `entity` is `root` or below it, read off the depths. */
    method IsInSubtree(ghost f: Forest, ghost roots: seq<Entity>, entity: Entity, root: Entity) returns (inside: bool)
      requires WellFormed(f) && Shows(f, roots, hierarchy)
      ensures inside <==> root.Valid() && root in f.parent && entity in f.parent && Under(f, entity, root)
    {
      hide WellFormed;
      hide Shows;
      hide Under;
      if !root.Valid() {
        return false;
      }
      var found, rootIndex := FindRow(f, roots, root);
      if !found {
        return false;
      }
      RowListed(f, roots, hierarchy, rootIndex);
      if entity == root {
        UnderSelf(f, entity);
        return true;
      }
      var i := rootIndex + 1;
      while i < |hierarchy| && hierarchy[i].depth > hierarchy[rootIndex].depth
        invariant rootIndex < i <= |hierarchy|
        invariant forall k :: rootIndex < k < i ==>
                    hierarchy[k].depth > hierarchy[rootIndex].depth && hierarchy[k].entity != entity
      {
        if hierarchy[i].entity == entity {
          RowListed(f, roots, hierarchy, i);
          SubtreeRows(f, roots, hierarchy, rootIndex, i);
          return true;
        }
        i := i + 1;
      }
      inside := false;
      OutsideRun(f, roots, hierarchy, rootIndex, i, entity);
    }

    /** The parent of the entity at `row`: the nearest row above it that is one level up. */
    method GetParentOfRow(ghost f: Forest, ghost roots: seq<Entity>, row: nat) returns (parent: Entity)
      requires WellFormed(f) && Shows(f, roots, hierarchy) && row < |hierarchy|
      ensures hierarchy[row].entity in f.parent && parent == f.parent[hierarchy[row].entity]
    {
      hide WellFormed;
      hide Shows;
      RowListed(f, roots, hierarchy, row);
      var previous := row;
      while previous > 0
        invariant 0 <= previous <= row
        invariant forall k :: previous <= k < row ==> hierarchy[k].depth + 1 != hierarchy[row].depth
      {
        if hierarchy[previous - 1].depth + 1 == hierarchy[row].depth {
          ParentRow(f, roots, hierarchy, previous - 1, row);
          return hierarchy[previous - 1].entity;
        }
        previous := previous - 1;
      }
      parent := NONE;
      RootRow(f, roots, hierarchy, row);
    }

    /** How many siblings come before the entity at `row`. */
    method GetSiblingIndexOfRow(ghost f: Forest, ghost roots: seq<Entity>, row: nat) returns (siblingsBefore: nat)
      requires WellFormed(f) && Shows(f, roots, hierarchy) && row < |hierarchy|
      ensures hierarchy[row].entity in f.parent && siblingsBefore == SiblingIndex(f, roots, hierarchy[row].entity)
    {
      hide WellFormed;
      hide Shows;
      hide SiblingIndex;
      RowListed(f, roots, hierarchy, row);
      var depth := hierarchy[row].depth;
      siblingsBefore := 0;
      var previous := row;
      while previous > 0 && hierarchy[previous - 1].depth >= depth
        invariant previous <= row < |hierarchy| && hierarchy[previous].depth >= depth
        invariant SiblingsOf(f, roots, hierarchy, row, previous, siblingsBefore)
      {
        SiblingStep(f, roots, hierarchy, row, previous, siblingsBefore);
        if hierarchy[previous - 1].depth == depth {
          siblingsBefore := siblingsBefore + 1;
        }
        previous := previous - 1;
      }
      SiblingsDone(f, roots, hierarchy, row, previous, siblingsBefore);
    }

    // ----- Drops -----

    /** Where a drop of one entity at a gap between the children of `parent` puts it. */
    method ResolveDropOne(ghost f: Forest, ghost roots: seq<Entity>, dragged: Entity, parent: Entity, gap: nat)
      returns (ok: bool, position: nat)
      requires WellFormed(f) && Shows(f, roots, hierarchy)
      ensures ok ==> DropOk(f, dragged, parent)
      ensures DropOk(f, dragged, parent) && f.parent[dragged] != parent ==> ok && position == gap
      ensures DropOk(f, dragged, parent) && f.parent[dragged] == parent == NONE ==> !ok
      ensures DropOk(f, dragged, parent) && f.parent[dragged] == parent != NONE ==>
                && parent in f.kids && f.kids[parent] != []
                && var s := f.kids[parent];
                |Without(s, dragged)| == |s| - 1
                && Insert(Without(s, dragged), AtMost(position, |s| - 1), dragged) == DropAt(s, [dragged], gap)
                && (ok <==> DropAt(s, [dragged], gap) != s || gap > |s|)
                && ((ok <==> DropAt(s, [dragged], gap) != s) <==> gap <= |s| || s[|s| - 1] != dragged)
    {
      hide WellFormed;
      hide Shows;
      hide Under;
      hide DropAt;
      hide Insert;
      hide Without;
      position := 0;
      var found, draggedRow := FindRow(f, roots, dragged);
      if !found {
        return false, 0;
      }
      ParentsValid(f);
      if parent.Valid() {
        var inside := IsInSubtree(f, roots, parent, dragged);
        if inside {
          return false, 0;
        }
      }
      var currentParent := GetParentOfRow(f, roots, draggedRow);
      if currentParent != parent {
        return true, gap;
      }
      if !parent.Valid() {
        return false, 0;
      }
      var current := GetSiblingIndexOfRow(f, roots, draggedRow);
      position := if current < gap then gap - 1 else gap;
      ok := position != current;
      DropOneResult(f, roots, dragged, gap, position);
    }

    /** Whether every dragged entity may go below `parent`, and whether one of them has a parent. */
    method CheckDragged(ghost f: Forest, ghost roots: seq<Entity>, dragged: seq<Entity>, parent: Entity)
      returns (allowed: bool, anyChild: bool)
      requires WellFormed(f) && Shows(f, roots, hierarchy)
      ensures allowed <==> AllDropOk(f, dragged, parent)
      ensures allowed ==> (anyChild <==> SomeChild(f, dragged))
    {
      hide WellFormed;
      hide Shows;
      hide Under;
      anyChild := false;
      var i := 0;
      while i < |dragged|
        invariant i <= |dragged|
        invariant forall k :: 0 <= k < i ==> DropOk(f, dragged[k], parent)
        invariant anyChild <==> exists k :: 0 <= k < i && IsChild(f, dragged[k])
      {
        var found, row := FindRow(f, roots, dragged[i]);
        if !found {
          return false, anyChild;
        }
        var inside := IsInSubtree(f, roots, parent, dragged[i]);
        ParentsValid(f);
        if inside {
          assert !DropOk(f, dragged[i], parent);
          return false, anyChild;
        }
        RowListed(f, roots, hierarchy, row);
        ChildDepth(f, dragged[i]);
        if hierarchy[row].depth > 0 {
          anyChild := true;
        }
        i := i + 1;
      }
      allowed := true;
    }

    /** The children of the entity at `parentRow`: the rows one level deeper in the run after it. */
    method CollectChildren(ghost f: Forest, ghost roots: seq<Entity>, parentRow: nat) returns (children: seq<Entity>)
      requires WellFormed(f) && Shows(f, roots, hierarchy) && parentRow < |hierarchy|
      ensures hierarchy[parentRow].entity in f.parent && hierarchy[parentRow].entity in f.kids
      ensures children == f.kids[hierarchy[parentRow].entity]
    {
      hide WellFormed;
      hide Shows;
      hide ChildrenSoFar;
      RowListed(f, roots, hierarchy, parentRow);
      var childDepth := hierarchy[parentRow].depth + 1;
      children := [];
      ChildrenStart(f, roots, hierarchy, parentRow);
      var row := parentRow + 1;
      while row < |hierarchy| && hierarchy[row].depth >= childDepth
        invariant parentRow < row <= |hierarchy|
        invariant ChildrenSoFar(f, hierarchy, parentRow, row - 1, children)
      {
        ChildrenStep(f, roots, hierarchy, parentRow, row - 1, children);
        if hierarchy[row].depth == childDepth {
          children := children + [hierarchy[row].entity];
        }
        row := row + 1;
      }
      ChildrenDone(f, roots, hierarchy, parentRow, row - 1, children);
    }

    /** Where a drop of several entities at a gap between the children of `parent` puts them, and
        whether that changes anything. */
    method ResolveDrop(ghost f: Forest, ghost roots: seq<Entity>, dragged: seq<Entity>, parent: Entity, gap: nat)
      returns (ok: bool, position: nat)
      requires WellFormed(f) && Shows(f, roots, hierarchy)
      ensures !parent.Valid() ==> (ok <==> AllDropOk(f, dragged, parent) && SomeChild(f, dragged)) && position == 0
      ensures parent.Valid() && ok ==> dragged != [] && AllDropOk(f, dragged, parent) && parent in f.parent
      ensures parent.Valid() && dragged != [] && AllDropOk(f, dragged, parent) && parent in f.parent ==>
                parent in f.kids && position <= |Kept(f.kids[parent], dragged)|
                && Dropped(f.kids[parent], dragged, position) == DropAt(f.kids[parent], dragged, gap)
                && (ok <==> DropAt(f.kids[parent], dragged, gap) != f.kids[parent])
    {
      hide WellFormed;
      hide Shows;
      hide Under;
      hide AllDropOk;
      hide SomeChild;
      hide DropAt;
      position := 0;
      if dragged == [] {
        NothingDragged(f);
        return false, 0;
      }
      var allowed, anyChild := CheckDragged(f, roots, dragged, parent);
      if !allowed {
        return false, 0;
      }
      if !parent.Valid() {
        return anyChild, 0;
      }
      var parentListed, parentRow := FindRow(f, roots, parent);
      if !parentListed {
        return false, 0;
      }
      var children := CollectChildren(f, roots, parentRow);
      var remaining: seq<Entity> := [];
      var index := 0;
      while index < |children|
        invariant index <= |children|
        invariant remaining == Kept(children[..index], dragged)
        invariant position == |Kept(children[..if index < gap then index else gap], dragged)|
      {
        KeptNext(children, dragged, index);
        var isDragged := children[index] in dragged;
        if index < gap && !isDragged {
          position := position + 1;
        }
        if !isDragged {
          remaining := remaining + [children[index]];
        }
        index := index + 1;
      }
      assert children[..index] == children;
      DroppedAtGap(children, dragged, gap, position);
      remaining := remaining[..position] + dragged + remaining[position..];
      ok := remaining != children;
    }

    // ----- Selections -----

    /** The selected entities that have no selected entity above them, in the order of the rows. */
    method CollectTopmost(ghost f: Forest, ghost roots: seq<Entity>, selection: seq<Entity>) returns (out: seq<Entity>)
      requires WellFormed(f) && Shows(f, roots, hierarchy)
      ensures forall i :: 0 <= i < |hierarchy| ==> hierarchy[i].entity in f.parent
      ensures out == TopmostOf(f, EntitiesOf(hierarchy), selection)
      ensures exists at :: TopmostAt(f, EntitiesOf(hierarchy), selection, out, at)
    {
      hide WellFormed;
      hide Shows;
      hide SelectedOrBelow;
      hide PathShows;
      hide EntitiesOf;
      hide TopmostAt;
      ghost var list := EntitiesOf(hierarchy);
      out := [];
      var selectedPath: seq<bool> := [];
      var row := 0;
      AllListed(f, roots, hierarchy);
      while row < |hierarchy|
        invariant row <= |hierarchy|
        invariant out == TopmostOf(f, list[..row], selection)
        invariant row > 0 ==> PathShows(f, list[row - 1], selection, selectedPath)
      {
        var depth := hierarchy[row].depth;
        if row > 0 {
          PathLength(f, roots, hierarchy, row, selection, selectedPath);
        } else {
          FirstRow(f, roots, hierarchy);
        }
        ghost var path := selectedPath;
        selectedPath := if |selectedPath| <= depth then selectedPath + [false] else selectedPath[..depth + 1];
        var selected := hierarchy[row].entity in selection;
        var selectedAncestor := depth > 0 && selectedPath[depth - 1];
        selectedPath := selectedPath[depth := selected || selectedAncestor];
        if selected && !selectedAncestor {
          out := out + [hierarchy[row].entity];
        }
        PathStep(f, roots, hierarchy, row, selection, path, selectedPath);
        assert list[..row + 1][..row] == list[..row];
        row := row + 1;
      }
      assert list[..row] == list;
      ghost var at := TopmostInOrder(f, list, selection);
    }
  }
}
