/** The ordered forest that the link fields of a scene stand for: every entity's parent
    (NONE for a root), its children in order, and its depth, which witnesses that the
    parent relation has no cycle. */
module Forests {
  import opened Entities
  import opened Sequences

  datatype Forest = Forest(
    parent: map<Entity, Entity>,
    kids: map<Entity, seq<Entity>>,
    depth: map<Entity, nat>)

  const EMPTY := Forest(map[], map[], map[])

  ghost predicate ParentsOk(f: Forest)
    requires f.parent.Keys == f.kids.Keys == f.depth.Keys
  {
    forall x {:trigger f.parent[x]} :: x in f.parent ==>
      if f.parent[x] == NONE then f.depth[x] == 0
      else f.parent[x] in f.parent && f.depth[x] == f.depth[f.parent[x]] + 1 && x in f.kids[f.parent[x]]
  }

  ghost predicate KidsOk(f: Forest)
    requires f.parent.Keys == f.kids.Keys == f.depth.Keys
  {
    && (forall p, i {:trigger f.kids[p][i]} :: p in f.kids && 0 <= i < |f.kids[p]| ==>
          f.kids[p][i] in f.parent && f.parent[f.kids[p][i]] == p)
    && (forall p {:trigger Distinct(f.kids[p])} :: p in f.kids ==> Distinct(f.kids[p]))
  }

  ghost predicate WellFormed(f: Forest) {
    && f.parent.Keys == f.kids.Keys == f.depth.Keys
    && (forall x :: x in f.parent ==> x.Valid())
    && ParentsOk(f)
    && KidsOk(f)
  }

  lemma ForestKeys(f: Forest)
    requires WellFormed(f)
    ensures f.parent.Keys == f.kids.Keys == f.depth.Keys
    ensures forall x :: x in f.parent ==> x.Valid()
    ensures forall x :: x in f.parent && f.parent[x] != NONE ==> f.parent[x] in f.parent
  {
  }

  lemma KidAt(f: Forest, p: Entity, i: nat)
    requires WellFormed(f) && p in f.parent && i < |f.kids[p]|
    ensures f.kids[p][i] in f.parent && f.parent[f.kids[p][i]] == p
    ensures f.kids[p][i] != NONE && f.kids[p][i].Valid() && f.kids[p][i] != p
    ensures IndexOf(f.kids[p], f.kids[p][i]) == i
  {
    assert Distinct(f.kids[p]);
    IndexOfDistinct(f.kids[p], i);
  }

  /** The lists of children and the parents say the same. */
  lemma KidsOf(f: Forest, p: Entity)
    requires WellFormed(f) && p in f.parent
    ensures p in f.kids && Distinct(f.kids[p])
    ensures forall x :: x in f.kids[p] <==> x in f.parent && f.parent[x] == p
  {
    assert Distinct(f.kids[p]);
    forall x | x in f.kids[p] ensures x in f.parent && f.parent[x] == p {
      var i :| 0 <= i < |f.kids[p]| && f.kids[p][i] == x;
      KidAt(f, p, i);
    }
  }

  // ----- Ancestors -----

  /** `x` is `root` or one of its descendants. */
  ghost predicate Under(f: Forest, x: Entity, root: Entity)
    requires WellFormed(f) && x in f.parent
    decreases f.depth[x]
  {
    x == root || (f.parent[x] != NONE && Under(f, f.parent[x], root))
  }

  /** The path from the root of `x`'s tree down to `x`. */
  ghost function Chain(f: Forest, x: Entity): (c: seq<Entity>)
    requires WellFormed(f) && x in f.parent
    ensures |c| == f.depth[x] + 1 && c[f.depth[x]] == x
    decreases f.depth[x]
  {
    if f.parent[x] == NONE then [x] else Chain(f, f.parent[x]) + [x]
  }

  lemma {:induction false} UnderDepth(f: Forest, x: Entity, root: Entity)
    requires WellFormed(f) && x in f.parent && Under(f, x, root)
    ensures root in f.parent
    ensures f.depth[root] <= f.depth[x]
    ensures f.depth[root] == f.depth[x] ==> x == root
    decreases f.depth[x]
  {
    if x != root {
      UnderDepth(f, f.parent[x], root);
    }
  }

  lemma {:induction false} UnderTransitive(f: Forest, x: Entity, y: Entity, z: Entity)
    requires WellFormed(f) && x in f.parent && y in f.parent
    requires Under(f, x, y) && Under(f, y, z)
    ensures Under(f, x, z)
    decreases f.depth[x]
  {
    if x != y {
      UnderTransitive(f, f.parent[x], y, z);
    }
  }

  /** Two ancestors of one entity lie on one chain. */
  lemma {:induction false} UnderLinear(f: Forest, x: Entity, y: Entity, z: Entity)
    requires WellFormed(f) && x in f.parent && y in f.parent && z in f.parent
    requires Under(f, x, y) && Under(f, x, z)
    ensures Under(f, y, z) || Under(f, z, y)
    decreases f.depth[x]
  {
    if x != y && x != z {
      UnderLinear(f, f.parent[x], y, z);
    }
  }

  lemma {:induction false} ChainMembers(f: Forest, x: Entity)
    requires WellFormed(f) && x in f.parent
    ensures forall a :: a in Chain(f, x) <==> Under(f, x, a)
    ensures forall i :: 0 <= i <= f.depth[x] ==> Chain(f, x)[i] in f.depth && f.depth[Chain(f, x)[i]] == i
    decreases f.depth[x]
  {
    if f.parent[x] != NONE {
      ChainMembers(f, f.parent[x]);
    }
  }

  lemma UnderSelf(f: Forest, x: Entity)
    requires WellFormed(f) && x in f.parent
    ensures Under(f, x, x)
  {
  }

  lemma DepthBound(f: Forest, x: Entity)
    requires WellFormed(f) && x in f.parent
    ensures f.depth[x] < |f.parent|
  {
    ChainMembers(f, x);
    DistinctBound(Chain(f, x), f.parent.Keys);
  }

  // ----- Preorder -----

  /** `x` and its descendants, each entity before its children, children in order. */
  ghost function Preorder(f: Forest, x: Entity): seq<Entity>
    requires WellFormed(f) && x in f.parent
    decreases |f.parent| - f.depth[x], 1, 0
  {
    [x] + PreorderFrom(f, x, 0)
  }

  /** The preorder of the children of `p` from the one at `i` on. */
  ghost function PreorderFrom(f: Forest, p: Entity, i: nat): seq<Entity>
    requires WellFormed(f) && p in f.parent && i <= |f.kids[p]|
    decreases |f.parent| - f.depth[p], 0, |f.kids[p]| - i
  {
    if i == |f.kids[p]| then [] else
    DepthBound(f, f.kids[p][i]);
    Preorder(f, f.kids[p][i]) + PreorderFrom(f, p, i + 1)
  }

  /** What the preorder of `root` holds after the subtree of `x`. */
  ghost function Rest(f: Forest, root: Entity, x: Entity): seq<Entity>
    requires WellFormed(f) && x in f.parent && Under(f, x, root)
    decreases f.depth[x]
  {
    if x == root then [] else
    PreorderFrom(f, f.parent[x], IndexOf(f.kids[f.parent[x]], x) + 1) + Rest(f, root, f.parent[x])
  }

  /** `y` lies below one of the children of `p` from the one at `i` on. */
  ghost predicate UnderSome(f: Forest, y: Entity, p: Entity, i: nat)
    requires WellFormed(f) && p in f.parent && y in f.parent
  {
    exists j :: i <= j < |f.kids[p]| && Under(f, y, f.kids[p][j])
  }

  lemma {:induction false} PreorderMembers(f: Forest, x: Entity)
    requires WellFormed(f) && x in f.parent
    ensures forall y :: y in Preorder(f, x) <==> y in f.parent && Under(f, y, x)
    decreases |f.parent| - f.depth[x], 1, 0
  {
    PreorderFromMembers(f, x, 0);
    forall y | y in f.parent && Under(f, y, x) && y != x ensures y in PreorderFrom(f, x, 0) {
      var k := TopBelow(f, y, x);
      var i := IndexOf(f.kids[x], k);
    }
    forall y | y in PreorderFrom(f, x, 0) ensures y in f.parent && Under(f, y, x) {
      var i :| 0 <= i < |f.kids[x]| && Under(f, y, f.kids[x][i]);
      assert Under(f, f.kids[x][i], x);
      UnderTransitive(f, y, f.kids[x][i], x);
    }
  }

  lemma {:induction false} PreorderFromMembers(f: Forest, p: Entity, i: nat)
    requires WellFormed(f) && p in f.parent && i <= |f.kids[p]|
    ensures forall y :: y in PreorderFrom(f, p, i) <==> y in f.parent && UnderSome(f, y, p, i)
    decreases |f.parent| - f.depth[p], 0, |f.kids[p]| - i
  {
    if i < |f.kids[p]| {
      DepthBound(f, f.kids[p][i]);
      PreorderMembers(f, f.kids[p][i]);
      PreorderFromMembers(f, p, i + 1);
      forall y | y in f.parent ensures UnderSome(f, y, p, i) <==> Under(f, y, f.kids[p][i]) || UnderSome(f, y, p, i + 1) {
      }
    }
  }

  /** The child of `x` that lies on the way from `x` to its proper descendant `y`. */
  lemma {:induction false} TopBelow(f: Forest, y: Entity, x: Entity) returns (k: Entity)
    requires WellFormed(f) && x in f.parent && y in f.parent && Under(f, y, x) && y != x
    ensures k in f.parent && f.parent[k] == x && k in f.kids[x] && Under(f, y, k)
    decreases f.depth[y]
  {
    if f.parent[y] == x {
      k := y;
    } else {
      k := TopBelow(f, f.parent[y], x);
    }
  }

  /** The preorder names every entity of the subtree once. */
  lemma {:induction false} PreorderDistinct(f: Forest, x: Entity)
    requires WellFormed(f) && x in f.parent
    ensures Distinct(Preorder(f, x))
    decreases |f.parent| - f.depth[x], 1, 0
  {
    PreorderFromDistinct(f, x, 0);
    PreorderFromMembers(f, x, 0);
    if x in PreorderFrom(f, x, 0) {
      var j :| 0 <= j < |f.kids[x]| && Under(f, x, f.kids[x][j]);
      UnderDepth(f, x, f.kids[x][j]);
      assert false;
    }
  }

  lemma {:induction false} PreorderFromDistinct(f: Forest, p: Entity, i: nat)
    requires WellFormed(f) && p in f.parent && i <= |f.kids[p]|
    ensures Distinct(PreorderFrom(f, p, i))
    decreases |f.parent| - f.depth[p], 0, |f.kids[p]| - i
  {
    if i < |f.kids[p]| {
      var k := f.kids[p][i];
      DepthBound(f, k);
      PreorderDistinct(f, k);
      PreorderFromDistinct(f, p, i + 1);
      PreorderApart(f, p, i);
      DistinctConcat(Preorder(f, k), PreorderFrom(f, p, i + 1));
    }
  }

  /** The subtrees of two children share no entity. */
  lemma PreorderApart(f: Forest, p: Entity, i: nat)
    requires WellFormed(f) && p in f.parent && i < |f.kids[p]|
    ensures forall y :: y in Preorder(f, f.kids[p][i]) ==> y !in PreorderFrom(f, p, i + 1)
  {
    var k := f.kids[p][i];
    PreorderMembers(f, k);
    PreorderFromMembers(f, p, i + 1);
    assert Distinct(f.kids[p]);
    forall y | y in Preorder(f, k) && y in PreorderFrom(f, p, i + 1) ensures false {
      var j :| i + 1 <= j < |f.kids[p]| && Under(f, y, f.kids[p][j]);
      SiblingsApart(f, y, k, f.kids[p][j]);
    }
  }

  lemma SiblingsApart(f: Forest, y: Entity, a: Entity, b: Entity)
    requires WellFormed(f) && y in f.parent && a in f.parent && b in f.parent
    requires f.depth[a] == f.depth[b] && Under(f, y, a) && Under(f, y, b)
    ensures a == b
  {
    UnderLinear(f, y, a, b);
    if Under(f, a, b) {
      UnderDepth(f, a, b);
    } else {
      UnderDepth(f, b, a);
    }
  }

  /** One step of the walk down: below `x` the walk goes on at its first child, if it has any. */
  lemma PreorderDown(f: Forest, root: Entity, x: Entity)
    requires WellFormed(f) && x in f.parent && Under(f, x, root)
    ensures Preorder(f, x) + Rest(f, root, x) == [x] + (PreorderFrom(f, x, 0) + Rest(f, root, x))
    ensures if f.kids[x] == [] then PreorderFrom(f, x, 0) + Rest(f, root, x) == Rest(f, root, x)
            else f.kids[x][0] in f.parent && Under(f, f.kids[x][0], root)
                 && PreorderFrom(f, x, 0) + Rest(f, root, x) == Preorder(f, f.kids[x][0]) + Rest(f, root, f.kids[x][0])
  {
    ConcatAssociative([x], PreorderFrom(f, x, 0), Rest(f, root, x));
    if f.kids[x] != [] {
      RestOfSibling(f, root, x, 0);
    }
  }

  /** One step of the walk sideways: what is left after `x` starts at its next sibling. */
  lemma PreorderNext(f: Forest, root: Entity, x: Entity)
    requires WellFormed(f) && x in f.parent && Under(f, x, root) && x != root
    ensures f.parent[x] != NONE && Under(f, f.parent[x], root)
    ensures var s := f.kids[f.parent[x]]; var i := IndexOf(s, x);
            if i + 1 < |s| then
              && s[i + 1] in f.parent && Under(f, s[i + 1], root) && s[i + 1] != root
              && Rest(f, root, x) == Preorder(f, s[i + 1]) + Rest(f, root, s[i + 1])
            else Rest(f, root, x) == Rest(f, root, f.parent[x])
  {
    hide *;
    RestStep(f, root, x);
    var p := f.parent[x];
    var i := IndexOf(f.kids[p], x);
    if i + 1 < |f.kids[p]| {
      RestOfSibling(f, root, p, i + 1);
      KidIsBelow(f, root, p, i + 1);
    } else {
      PreorderEnds(f, p, i + 1, Rest(f, root, p));
    }
  }

  lemma KidIsBelow(f: Forest, root: Entity, p: Entity, i: nat)
    requires WellFormed(f) && p in f.parent && Under(f, p, root) && p in f.kids && i < |f.kids[p]|
    ensures f.kids[p][i] != root
  {
    hide Under;
    UnderDepth(f, p, root);
    KidAt(f, p, i);
    assert f.parent[f.kids[p][i]] == p;
  }

  lemma RestStep(f: Forest, root: Entity, x: Entity)
    requires WellFormed(f) && x in f.parent && Under(f, x, root) && x != root
    ensures var p := f.parent[x];
            && p in f.parent && p in f.kids && p != NONE && Under(f, p, root) && x in f.kids[p]
            && Rest(f, root, x) == PreorderFrom(f, p, IndexOf(f.kids[p], x) + 1) + Rest(f, root, p)
  {
    hide *;
    UnderStep(f, root, x);
    RestUnfold(f, root, f.parent[x], IndexOf(f.kids[f.parent[x]], x));
  }

  lemma UnderStep(f: Forest, root: Entity, x: Entity)
    requires WellFormed(f) && x in f.parent && Under(f, x, root) && x != root
    ensures var p := f.parent[x]; p in f.parent && p in f.kids && p != NONE && Under(f, p, root) && x in f.kids[p]
  {
  }

  lemma PreorderEnds(f: Forest, p: Entity, i: nat, rest: seq<Entity>)
    requires WellFormed(f) && p in f.parent && p in f.kids && i == |f.kids[p]|
    ensures PreorderFrom(f, p, i) + rest == rest
  {
  }

  lemma KidUnder(f: Forest, root: Entity, p: Entity, i: nat)
    requires WellFormed(f) && p in f.parent && Under(f, p, root) && i < |f.kids[p]|
    ensures f.kids[p][i] in f.parent && f.kids[p][i] != root && Under(f, f.kids[p][i], root)
  {
    KidAt(f, p, i);
    if f.kids[p][i] == root {
      UnderDepth(f, p, root);
      assert false;
    }
  }

  lemma RestOfSibling(f: Forest, root: Entity, p: Entity, i: nat)
    requires WellFormed(f) && p in f.parent && Under(f, p, root) && i < |f.kids[p]|
    ensures f.kids[p][i] in f.parent && Under(f, f.kids[p][i], root)
    ensures Preorder(f, f.kids[p][i]) + Rest(f, root, f.kids[p][i]) == PreorderFrom(f, p, i) + Rest(f, root, p)
  {
    hide WellFormed;
    hide Rest;
    hide Preorder;
    hide IndexOf;
    ForestKeys(f);
    var k := f.kids[p][i];
    KidAt(f, p, i);
    KidUnder(f, root, p, i);
    var a, b, c := Preorder(f, k), PreorderFrom(f, p, i + 1), Rest(f, root, p);
    ConcatAssociative(a, b, c);
    RestUnfold(f, root, p, i);
    assert PreorderFrom(f, p, i) == a + b;
  }

  lemma RestUnfold(f: Forest, root: Entity, p: Entity, i: nat)
    requires WellFormed(f) && p in f.parent && Under(f, p, root) && i < |f.kids[p]|
    requires f.kids[p][i] != root && Under(f, f.kids[p][i], root)
    ensures Rest(f, root, f.kids[p][i]) == PreorderFrom(f, p, i + 1) + Rest(f, root, p)
  {
    hide PreorderFrom;
    hide Under;
    hide WellFormed;
    hide IndexOf;
    ForestKeys(f);
    KidAt(f, p, i);
  }

  // ----- Edits -----

  /** `c` made a root, its subtree kept below it. */
  ghost function Detach(f: Forest, c: Entity): Forest
    requires WellFormed(f) && c in f.parent
  {
    if f.parent[c] == NONE then f else
    Forest(
      f.parent[c := NONE],
      f.kids[f.parent[c] := Without(f.kids[f.parent[c]], c)],
      map x | x in f.depth :: if Under(f, x, c) then DepthBelow(f, x, c) else f.depth[x])
  }

  ghost function DepthBelow(f: Forest, x: Entity, c: Entity): (n: nat)
    requires WellFormed(f) && x in f.parent && Under(f, x, c)
    ensures c in f.parent && f.depth[x] == f.depth[c] + n
  {
    UnderDepth(f, x, c);
    f.depth[x] - f.depth[c]
  }

  /** The root `c` made the child of `p` at `position`. */
  ghost function Attach(f: Forest, c: Entity, p: Entity, position: nat): Forest
    requires WellFormed(f) && c in f.parent && p in f.parent && position <= |f.kids[p]|
  {
    Forest(
      f.parent[c := p],
      f.kids[p := Insert(f.kids[p], position, c)],
      map x | x in f.depth :: if Under(f, x, c) then f.depth[x] + f.depth[p] + 1 else f.depth[x])
  }

  lemma DetachWellFormed(f: Forest, c: Entity)
    requires WellFormed(f) && c in f.parent
    ensures WellFormed(Detach(f, c)) && Detach(f, c).parent.Keys == f.parent.Keys
    ensures f.parent[c] == NONE ==> Detach(f, c) == f
  {
    var p := f.parent[c];
    if p != NONE {
      assert Distinct(f.kids[p]);
      WithoutDistinct(f.kids[p], c);
      DetachParents(f, c);
      var g := Detach(f, c);
      forall q, i | q in g.kids && 0 <= i < |g.kids[q]|
        ensures g.kids[q][i] in g.parent && g.parent[g.kids[q][i]] == q
      {
        assert g.kids[q][i] in f.kids[q];
        assert Distinct(f.kids[q]);
      }
      forall q | q in g.kids ensures Distinct(g.kids[q]) {
        assert Distinct(f.kids[q]);
      }
    }
  }

  lemma DetachRoot(f: Forest, c: Entity)
    requires WellFormed(f) && c in f.parent
    ensures Detach(f, c).parent == f.parent[c := NONE] && Detach(f, c).kids.Keys == f.kids.Keys
  {
  }

  lemma DetachParents(f: Forest, c: Entity)
    requires WellFormed(f) && c in f.parent && f.parent[c] != NONE
    ensures ParentsOk(Detach(f, c))
  {
    var g := Detach(f, c);
    assert Distinct(f.kids[f.parent[c]]);
    WithoutDistinct(f.kids[f.parent[c]], c);
    forall x | x in g.parent
      ensures if g.parent[x] == NONE then g.depth[x] == 0
              else g.parent[x] in g.parent && g.depth[x] == g.depth[g.parent[x]] + 1 && x in g.kids[g.parent[x]]
    {
      assert x in f.parent && f.parent[x] == f.parent[x];
    }
  }

  lemma AttachWellFormed(f: Forest, c: Entity, p: Entity, position: nat)
    requires WellFormed(f) && c in f.parent && p in f.parent && position <= |f.kids[p]|
    requires f.parent[c] == NONE && !Under(f, p, c)
    ensures WellFormed(Attach(f, c, p, position)) && Attach(f, c, p, position).parent.Keys == f.parent.Keys
  {
    var g := Attach(f, c, p, position);
    KidsOf(f, p);
    InsertDistinct(f.kids[p], position, c);
    forall x | x in g.parent
      ensures if g.parent[x] == NONE then g.depth[x] == 0
              else g.parent[x] in g.parent && g.depth[x] == g.depth[g.parent[x]] + 1 && x in g.kids[g.parent[x]]
    {
      assert x in f.parent && f.parent[x] == f.parent[x];
    }
    forall q, i | q in g.kids && 0 <= i < |g.kids[q]|
      ensures g.kids[q][i] in g.parent && g.parent[g.kids[q][i]] == q
    {
      var k := g.kids[q][i];
      assert k in f.kids[q] || k == c;
    }
    forall q | q in g.kids ensures Distinct(g.kids[q]) {
      assert Distinct(f.kids[q]);
    }
  }

  /** Detaching `c` keeps exactly the ancestor facts that do not cross the cut. */
  lemma {:induction false} DetachUnder(f: Forest, c: Entity, x: Entity, r: Entity)
    requires WellFormed(f) && c in f.parent && x in f.parent && r in f.parent
    requires WellFormed(Detach(f, c))
    ensures Under(Detach(f, c), x, r) <==> Under(f, x, r) && (Under(f, x, c) ==> Under(f, r, c))
    decreases f.depth[x]
  {
    var g := Detach(f, c);
    if x == r {
    } else if x == c {
      if Under(f, c, r) && Under(f, r, c) {
        UnderDepth(f, c, r);
        UnderDepth(f, r, c);
        assert false;
      }
    } else if f.parent[x] != NONE {
      DetachUnder(f, c, f.parent[x], r);
    }
  }

  /** When `c` may be put among the children of `p` at `position`, counted without `c`. */
  ghost predicate CanMove(f: Forest, c: Entity, p: Entity, position: nat)
    requires WellFormed(f)
  {
    c in f.parent && p in f.parent && !Under(f, p, c) && position <= |Without(f.kids[p], c)|
  }

  ghost function Move(f: Forest, c: Entity, p: Entity, position: nat): Forest
    requires WellFormed(f) && CanMove(f, c, p, position)
  {
    DetachWellFormed(f, c);
    DetachKids(f, c, p);
    Attach(Detach(f, c), c, p, position)
  }

  lemma ParentNotUnder(f: Forest, c: Entity)
    requires WellFormed(f) && c in f.parent
    ensures f.parent[c] != NONE ==> f.parent[c] in f.parent && !Under(f, f.parent[c], c)
  {
    if f.parent[c] != NONE && Under(f, f.parent[c], c) {
      UnderDepth(f, f.parent[c], c);
    }
  }

  lemma DetachKids(f: Forest, c: Entity, p: Entity)
    requires WellFormed(f) && c in f.parent && p in f.parent
    ensures p in Detach(f, c).kids && p in Detach(f, c).parent
    ensures Detach(f, c).kids[p] == Without(f.kids[p], c)
  {
    KidsOf(f, p);
  }

  /** A move puts `c` in the list of `p` at `position`, takes it out of its old list, and
      touches nobody else's list and nobody else's parent. */
  lemma MoveResult(f: Forest, c: Entity, p: Entity, position: nat)
    requires WellFormed(f) && CanMove(f, c, p, position)
    ensures WellFormed(Move(f, c, p, position))
    ensures Move(f, c, p, position).parent == f.parent[c := p]
    ensures Move(f, c, p, position).kids.Keys == f.kids.Keys
    ensures forall q :: q in f.kids ==>
              Move(f, c, p, position).kids[q] ==
              if q == p then Insert(Without(f.kids[p], c), position, c) else Without(f.kids[q], c)
  {
    hide WellFormed;
    hide Move;
    hide Attach;
    hide Detach;
    hide Under;
    hide Insert;
    hide Without;
    MoveReady(f, c, p, position);
    DetachLists(f, c);
    AttachWellFormed(Detach(f, c), c, p, position);
    AttachShape(Detach(f, c), c, p, position);
    ForestKeys(f);
    Reattached(f, Detach(f, c), Move(f, c, p, position), c, p, position);
  }

  /** The lists after cutting `c` off and putting it below `p`. */
  lemma Reattached(f: Forest, d: Forest, m: Forest, c: Entity, p: Entity, position: nat)
    requires p in f.kids && c in f.parent && d.kids.Keys == f.kids.Keys && position <= |d.kids[p]|
    requires d.parent == f.parent[c := NONE] && m.parent == d.parent[c := p]
    requires forall q :: q in f.kids ==> d.kids[q] == Without(f.kids[q], c)
    requires m.kids == d.kids[p := Insert(d.kids[p], position, c)]
    ensures m.parent == f.parent[c := p] && m.kids.Keys == f.kids.Keys
    ensures forall q :: q in f.kids ==>
              m.kids[q] == if q == p then Insert(Without(f.kids[p], c), position, c) else Without(f.kids[q], c)
  {
    hide Insert;
    hide Without;
  }

  lemma DetachLists(f: Forest, c: Entity)
    requires WellFormed(f) && c in f.parent
    ensures Detach(f, c).parent == f.parent[c := NONE] && Detach(f, c).kids.Keys == f.kids.Keys
    ensures forall q :: q in f.kids ==> Detach(f, c).kids[q] == Without(f.kids[q], c)
  {
    hide WellFormed;
    hide Under;
    hide Detach;
    hide Without;
    ForestKeys(f);
    DetachRoot(f, c);
    forall q | q in f.kids ensures Detach(f, c).kids[q] == Without(f.kids[q], c) {
      DetachKids(f, c, q);
    }
  }

  lemma AttachShape(f: Forest, c: Entity, p: Entity, position: nat)
    requires WellFormed(f) && c in f.parent && p in f.parent && position <= |f.kids[p]|
    ensures Attach(f, c, p, position).parent == f.parent[c := p]
    ensures Attach(f, c, p, position).kids == f.kids[p := Insert(f.kids[p], position, c)]
  {
  }

  /** Where a move stands once the child is cut off. */
  lemma MoveReady(f: Forest, c: Entity, p: Entity, position: nat)
    requires WellFormed(f) && CanMove(f, c, p, position)
    ensures var d := Detach(f, c);
            && WellFormed(d) && p in d.parent && p in d.kids && !Under(d, p, c)
            && d.kids[p] == Without(f.kids[p], c) && position <= |d.kids[p]|
            && Attach(d, c, p, position) == Move(f, c, p, position)
    ensures f.parent[c] == NONE ==> Detach(f, c) == f
  {
    DetachWellFormed(f, c);
    DetachUnder(f, c, p, c);
    DetachKids(f, c, p);
  }

  // ----- Adding a root -----

  ghost function AddRoot(f: Forest, e: Entity): Forest {
    Forest(f.parent[e := NONE], f.kids[e := []], f.depth[e := 0])
  }

  lemma AddRootKeys(f: Forest, e: Entity)
    ensures AddRoot(f, e).parent.Keys == f.parent.Keys + {e}
  {
  }

  lemma AddRootWellFormed(f: Forest, e: Entity)
    requires WellFormed(f) && e.Valid() && e !in f.parent
    ensures WellFormed(AddRoot(f, e))
  {
    ForestKeys(f);
    var g := AddRoot(f, e);
    forall x | x in g.parent
      ensures if g.parent[x] == NONE then g.depth[x] == 0
              else g.parent[x] in g.parent && g.depth[x] == g.depth[g.parent[x]] + 1 && x in g.kids[g.parent[x]]
    {
      assert x != e ==> f.parent[x] == g.parent[x];
    }
    forall p, i | p in g.kids && 0 <= i < |g.kids[p]|
      ensures g.kids[p][i] in g.parent && g.parent[g.kids[p][i]] == p
    {
      KidAt(f, p, i);
    }
    forall p | p in g.kids ensures Distinct(g.kids[p]) {
      if p != e {
        KidsOf(f, p);
      }
    }
  }

  // ----- Removing a subtree -----

  /** The forest without the subtree of `c`. */
  ghost function Prune(f: Forest, c: Entity): Forest
    requires WellFormed(f) && c in f.parent
  {
    DetachWellFormed(f, c);
    DetachLists(f, c);
    var d := Detach(f, c);
    Forest(
      map x | x in d.parent && !Under(d, x, c) :: d.parent[x],
      map x | x in d.parent && !Under(d, x, c) :: d.kids[x],
      map x | x in d.parent && !Under(d, x, c) :: d.depth[x])
  }

  /** Removing a root's tree leaves a forest. */
  lemma PruneWellFormed(f: Forest, c: Entity)
    requires WellFormed(f) && c in f.parent
    ensures WellFormed(Prune(f, c))
  {
    DetachWellFormed(f, c);
    var d, g := Detach(f, c), Prune(f, c);
    assert d.parent[c] == NONE by { DetachRoot(f, c); }
    forall x | x in g.parent
      ensures if g.parent[x] == NONE then g.depth[x] == 0
              else g.parent[x] in g.parent && g.depth[x] == g.depth[g.parent[x]] + 1 && x in g.kids[g.parent[x]]
    {
      assert d.parent[x] == g.parent[x];
    }
    forall p, i | p in g.kids && 0 <= i < |g.kids[p]|
      ensures g.kids[p][i] in g.parent && g.parent[g.kids[p][i]] == p
    {
      KidAt(d, p, i);
    }
    forall p | p in g.kids ensures Distinct(g.kids[p]) {
      KidsOf(d, p);
    }
  }

  /** What is left after removing the subtree of `c`: everybody else, with their own parents
      and their own children but for `c`. */
  lemma PruneResult(f: Forest, c: Entity)
    requires WellFormed(f) && c in f.parent
    ensures WellFormed(Prune(f, c))
    ensures forall x :: x in Prune(f, c).parent <==> x in f.parent && !Under(f, x, c)
    ensures forall x :: x in Prune(f, c).parent ==>
              Prune(f, c).parent[x] == f.parent[x] && Prune(f, c).kids[x] == Without(f.kids[x], c)
  {
    PruneWellFormed(f, c);
    DetachWellFormed(f, c);
    DetachLists(f, c);
    forall x | x in f.parent ensures Under(Detach(f, c), x, c) <==> Under(f, x, c) {
      DetachUnder(f, c, x, c);
    }
  }

  /** Every entity lies in the tree of one root. */
  lemma {:induction false} RootOf(f: Forest, x: Entity) returns (r: Entity)
    requires WellFormed(f) && x in f.parent
    ensures r in f.parent && f.parent[r] == NONE && Under(f, x, r)
    decreases f.depth[x]
  {
    if f.parent[x] == NONE {
      r := x;
    } else {
      r := RootOf(f, f.parent[x]);
    }
  }
}
