/** Cached world transforms, and when they agree with the forest. */
module Worlds {
  import opened Entities
  import opened Sequences
  import opened Forests
  import opened GeometryModule
  import opened Wrappers

  type Transforms<L, M> = map<Entity, Transform<L, M>>

  /** The world that `x`'s parent offers its children. */
  function ParentWorld<L, M>(g: Geometry<L, M>, t: Transforms<L, M>, parent: Entity): World<L, M>
    requires parent == NONE || parent in t
  {
    if parent == NONE then Origin(g) else t[parent].world
  }

  /** The cached world of `x` is its parent's world composed with its own local values. */
  ghost predicate WorldOk<L, M>(g: Geometry<L, M>, f: Forest, t: Transforms<L, M>, x: Entity)
    requires WellFormed(f) && f.parent.Keys == t.Keys && x in f.parent
  {
    t[x].world == Compose(g, ParentWorld(g, t, f.parent[x]), t[x].local)
  }

  ghost predicate WorldsOk<L, M>(g: Geometry<L, M>, f: Forest, t: Transforms<L, M>)
    requires WellFormed(f) && f.parent.Keys == t.Keys
  {
    forall x {:trigger WorldOk(g, f, t, x)} :: x in f.parent ==> WorldOk(g, f, t, x)
  }

  /** What the cache of `x` holds, below its parent `p` or below nobody. */
  ghost predicate PlacedBelow<L, M>(g: Geometry<L, M>, t: Transforms<L, M>, x: Entity, p: Entity)
    requires x in t && (p == NONE || p in t)
  {
    var world, local := t[x].world, t[x].local;
    if p == NONE then
      && world.matrix == g.multiply(g.one, g.matrixOf(local))
      && world.values == g.place(g.combine(g.initial, local), world.matrix)
    else
      && world.matrix == g.multiply(t[p].world.matrix, g.matrixOf(local))
      && world.values == g.place(g.combine(t[p].world.values, local), world.matrix)
  }

  /** A cache agrees exactly if matrix and values are those its parent's give. */
  lemma WorldOkMeans<L, M>(g: Geometry<L, M>, f: Forest, t: Transforms<L, M>, x: Entity)
    requires WellFormed(f) && f.parent.Keys == t.Keys && x in f.parent
    ensures WorldOk(g, f, t, x) <==> PlacedBelow(g, t, x, f.parent[x])
  {
  }

  ghost function Locals<L, M>(t: Transforms<L, M>): map<Entity, L> {
    map x | x in t :: t[x].local
  }

  /** The local values along the path from the root of `x`'s tree down to `x`. */
  ghost function PathLocals<L, M>(f: Forest, t: Transforms<L, M>, x: Entity): (path: seq<L>)
    requires WellFormed(f) && f.parent.Keys == t.Keys && x in f.parent
    ensures |path| == f.depth[x] + 1
    decreases f.depth[x]
  {
    if f.parent[x] == NONE then [t[x].local] else PathLocals(f, t, f.parent[x]) + [t[x].local]
  }

  /** While every cache agrees with the parent's, each cached world is what all the local values from the root
      down add up to. */
  lemma {:induction false} WorldIsFold<L, M>(g: Geometry<L, M>, f: Forest, t: Transforms<L, M>, x: Entity)
    requires WellFormed(f) && f.parent.Keys == t.Keys && x in f.parent
    requires WorldsOk(g, f, t)
    ensures t[x].world.matrix == PathMatrix(g, PathLocals(f, t, x))
    ensures t[x].world.values == PathValues(g, PathLocals(f, t, x))
    decreases f.depth[x]
  {
    assert WorldOk(g, f, t, x);
    WorldOkMeans(g, f, t, x);
    var path := PathLocals(f, t, x);
    if f.parent[x] == NONE {
      assert path[..0] == [];
    } else {
      WorldIsFold(g, f, t, f.parent[x]);
      assert path[..|path| - 1] == PathLocals(f, t, f.parent[x]);
    }
  }

  /** The product of the local matrices along the path from a root down to `x`, taken from the bottom up. */
  ghost function Product<L, M>(g: Geometry<L, M>, path: seq<L>, below: M): M {
    if path == [] then below
    else Product(g, path[..|path| - 1], g.multiply(g.matrixOf(path[|path| - 1]), below))
  }

  /** In exact arithmetic, multiplying upwards from `x` and downwards from the root agree. */
  lemma {:induction false} ProductIsFold<L, M(!new)>(g: Geometry<L, M>, path: seq<L>, below: M)
    requires Exact(g)
    ensures Product(g, path, below) == g.multiply(PathMatrix(g, path), below)
  {
    if path != [] {
      ProductIsFold(g, path[..|path| - 1], g.multiply(g.matrixOf(path[|path| - 1]), below));
    }
  }

  // ----- Refreshing the caches along a walk -----

  /** In the subtree of `root`, every cache agrees but perhaps those still to be visited. */
  ghost predicate FreshBut<L, M>(g: Geometry<L, M>, f: Forest, t: Transforms<L, M>, root: Entity, todo: seq<Entity>)
    requires WellFormed(f) && f.parent.Keys == t.Keys
  {
    forall x {:trigger WorldOk(g, f, t, x)} :: x in f.parent && Under(f, x, root) && x !in todo ==> WorldOk(g, f, t, x)
  }

  /** `t` differs from `t0` at most in the cached worlds below `root`. */
  ghost predicate SameOutside<L, M>(f: Forest, t0: Transforms<L, M>, t: Transforms<L, M>, root: Entity)
    requires WellFormed(f)
  {
    && t0.Keys == t.Keys == f.parent.Keys
    && (forall x :: x in t ==> t[x].local == t0[x].local)
    && (forall x :: x in t && !Under(f, x, root) ==> t[x] == t0[x])
  }

  /** A refreshed subtree: what its caches hold. */
  lemma FreshMeans<L, M>(g: Geometry<L, M>, f: Forest, t: Transforms<L, M>, root: Entity)
    requires WellFormed(f) && f.parent.Keys == t.Keys && FreshBut(g, f, t, root, [])
    ensures forall x :: x in t && Under(f, x, root) ==>
              (f.parent[x] == NONE || f.parent[x] in t) && PlacedBelow(g, t, x, f.parent[x])
  {
    hide WorldOk;
    hide PlacedBelow;
    forall x | x in t && Under(f, x, root) ensures PlacedBelow(g, t, x, f.parent[x]) {
      WorldOkMeans(g, f, t, x);
    }
  }

  lemma AllFreshMeans<L, M>(g: Geometry<L, M>, f: Forest, t: Transforms<L, M>)
    requires WellFormed(f) && f.parent.Keys == t.Keys && WorldsOk(g, f, t)
    ensures forall x :: x in t ==> (f.parent[x] == NONE || f.parent[x] in t) && PlacedBelow(g, t, x, f.parent[x])
  {
    hide WorldOk;
    hide PlacedBelow;
    forall x | x in t ensures PlacedBelow(g, t, x, f.parent[x]) {
      WorldOkMeans(g, f, t, x);
    }
  }

  lemma VisitFreshens<L, M>(g: Geometry<L, M>, f: Forest, t: Transforms<L, M>, root: Entity, x: Entity, todo: seq<Entity>)
    requires WellFormed(f) && f.parent.Keys == t.Keys && x in f.parent
    requires FreshBut(g, f, t, root, [x] + todo)
    requires forall k :: k in f.kids[x] ==> k in todo
    ensures var world := Compose(g, ParentWorld(g, t, f.parent[x]), t[x].local);
            FreshBut(g, f, t[x := t[x].(world := world)], root, todo)
  {
    var t' := t[x := t[x].(world := Compose(g, ParentWorld(g, t, f.parent[x]), t[x].local))];
    forall y | y in f.parent && Under(f, y, root) && y !in todo ensures WorldOk(g, f, t', y) {
      if y != x {
        assert WorldOk(g, f, t, y);
        assert f.parent[y] != x;
      }
    }
  }

  /** The children of `x` come after `x` in the preorder. */
  lemma KidsAfter(f: Forest, x: Entity)
    requires WellFormed(f) && x in f.parent
    ensures forall k :: k in f.kids[x] ==> k in PreorderFrom(f, x, 0)
  {
    PreorderFromMembers(f, x, 0);
    forall k | k in f.kids[x] ensures k in PreorderFrom(f, x, 0) {
      var i :| 0 <= i < |f.kids[x]| && f.kids[x][i] == k;
      assert f.parent[f.kids[x][i]] == x;
      assert Under(f, k, f.kids[x][i]);
    }
  }

  /** Where a walk over the subtree of `root` stands: `visited` is done, `todo` is left, and
      the caches agree wherever the walk has been. */
  ghost predicate WalkAt<L, M>(g: Geometry<L, M>, f: Forest, t0: Transforms<L, M>, t: Transforms<L, M>,
                               root: Entity, visited: seq<Entity>, todo: seq<Entity>)
    requires WellFormed(f) && root in f.parent
  {
    && SameOutside(f, t0, t, root)
    && Preorder(f, root) == visited + todo
    && FreshBut(g, f, t, root, todo)
  }

  lemma WalkStarts<L, M>(g: Geometry<L, M>, f: Forest, t: Transforms<L, M>, root: Entity)
    requires WellFormed(f) && f.parent.Keys == t.Keys && root in f.parent
    ensures Under(f, root, root)
    ensures WalkAt(g, f, t, t, root, [], Preorder(f, root) + Rest(f, root, root))
  {
    hide Preorder;
    hide WellFormed;
    hide WorldOk;
    PreorderMembers(f, root);
    UnderSelf(f, root);
    assert Rest(f, root, root) == [];
    assert Preorder(f, root) + Rest(f, root, root) == Preorder(f, root);
  }

  lemma WalkEnds<L, M>(g: Geometry<L, M>, f: Forest, t0: Transforms<L, M>, t: Transforms<L, M>, root: Entity, visited: seq<Entity>)
    requires WellFormed(f) && root in f.parent && Under(f, root, root)
    requires WalkAt(g, f, t0, t, root, visited, Rest(f, root, root))
    ensures visited == Preorder(f, root) && SameOutside(f, t0, t, root) && FreshBut(g, f, t, root, [])
  {
    assert visited + [] == visited;
  }

  /** A walk that is at `x` has not visited everything. */
  lemma WalkLeft<L, M>(g: Geometry<L, M>, f: Forest, t0: Transforms<L, M>, t: Transforms<L, M>,
                       root: Entity, visited: seq<Entity>, x: Entity)
    requires WellFormed(f) && root in f.parent && x in f.parent && Under(f, x, root)
    requires WalkAt(g, f, t0, t, root, visited, Preorder(f, x) + Rest(f, root, x))
    ensures |visited| < |Preorder(f, root)|
  {
    hide WellFormed;
    hide Under;
    hide SameOutside;
    hide FreshBut;
    hide Rest;
    hide PreorderFrom;
  }

  lemma WalkVisits<L, M>(g: Geometry<L, M>, f: Forest, t0: Transforms<L, M>, t: Transforms<L, M>,
                         root: Entity, visited: seq<Entity>, x: Entity)
    requires WellFormed(f) && root in f.parent && x in f.parent && Under(f, x, root)
    requires WalkAt(g, f, t0, t, root, visited, Preorder(f, x) + Rest(f, root, x))
    ensures var world := Compose(g, ParentWorld(g, t, f.parent[x]), t[x].local);
            WalkAt(g, f, t0, t[x := t[x].(world := world)], root, visited + [x],
                   PreorderFrom(f, x, 0) + Rest(f, root, x))
  {
    hide WellFormed;
    hide Under;
    hide SameOutside;
    hide Preorder;
    hide PreorderFrom;
    hide Rest;
    hide FreshBut;
    VisitSequence(f, root, visited, x);
    PreorderDown(f, root, x);
    KidsAfter(f, x);
    ForestKeys(f);
    SameOutsideKeys(f, t0, t, root);
    var todo := PreorderFrom(f, x, 0) + Rest(f, root, x);
    assert forall k :: k in f.kids[x] ==> k in todo;
    VisitStaysInside(f, t0, t, root, x, Compose(g, ParentWorld(g, t, f.parent[x]), t[x].local));
    VisitFreshens(g, f, t, root, x, todo);
  }

  lemma SameOutsideKeys<L, M>(f: Forest, t0: Transforms<L, M>, t: Transforms<L, M>, root: Entity)
    requires WellFormed(f) && SameOutside(f, t0, t, root)
    ensures t0.Keys == t.Keys == f.parent.Keys
  {
  }

  lemma VisitStaysInside<L, M>(f: Forest, t0: Transforms<L, M>, t: Transforms<L, M>, root: Entity, x: Entity, world: World<L, M>)
    requires WellFormed(f) && x in f.parent && Under(f, x, root) && SameOutside(f, t0, t, root)
    ensures SameOutside(f, t0, t[x := t[x].(world := world)], root)
  {
  }

  lemma VisitSequence(f: Forest, root: Entity, visited: seq<Entity>, x: Entity)
    requires WellFormed(f) && root in f.parent && x in f.parent && Under(f, x, root)
    requires Preorder(f, root) == visited + (Preorder(f, x) + Rest(f, root, x))
    ensures Preorder(f, root) == (visited + [x]) + (PreorderFrom(f, x, 0) + Rest(f, root, x))
  {
    PreorderDown(f, root, x);
    ConcatAssociative(visited, [x], PreorderFrom(f, x, 0) + Rest(f, root, x));
  }

  /** A refreshed subtree in a scene whose other caches agreed leaves every cache agreeing. */
  lemma FreshEverywhere<L, M>(g: Geometry<L, M>, f: Forest, t0: Transforms<L, M>, t: Transforms<L, M>, root: Entity)
    requires WellFormed(f) && SameOutside(f, t0, t, root) && FreshBut(g, f, t, root, [])
    requires forall x {:trigger WorldOk(g, f, t0, x)} :: x in f.parent && !Under(f, x, root) ==> WorldOk(g, f, t0, x)
    ensures WorldsOk(g, f, t)
  {
    forall x | x in f.parent ensures WorldOk(g, f, t, x) {
      if !Under(f, x, root) {
        assert WorldOk(g, f, t0, x);
      }
    }
  }

  /** The forest and the local values leave no choice for the worlds. */
  lemma WorldsDetermined<L, M>(g: Geometry<L, M>, f: Forest, t0: Transforms<L, M>, t1: Transforms<L, M>)
    requires WellFormed(f) && f.parent.Keys == t0.Keys == t1.Keys && Locals(t0) == Locals(t1)
    requires WorldsOk(g, f, t0) && WorldsOk(g, f, t1)
    ensures t0 == t1
  {
    forall x | x in t0 ensures t0[x] == t1[x] {
      assert Locals(t0)[x] == Locals(t1)[x];
      WorldIsFold(g, f, t0, x);
      WorldIsFold(g, f, t1, x);
      PathsAgree(f, t0, t1, x);
    }
  }

  lemma {:induction false} PathsAgree<L, M>(f: Forest, t0: Transforms<L, M>, t1: Transforms<L, M>, x: Entity)
    requires WellFormed(f) && f.parent.Keys == t0.Keys == t1.Keys && Locals(t0) == Locals(t1) && x in f.parent
    ensures PathLocals(f, t0, x) == PathLocals(f, t1, x)
    decreases f.depth[x]
  {
    assert Locals(t0)[x] == Locals(t1)[x];
    if f.parent[x] != NONE {
      PathsAgree(f, t0, t1, f.parent[x]);
    }
  }

  /** A scene whose caches agreed, whose forest changed in the parent of `c` only, and whose
      subtree of `c` was refreshed has caches that agree. */
  lemma MovedWorlds<L, M>(g: Geometry<L, M>, f0: Forest, f: Forest, t0: Transforms<L, M>, t: Transforms<L, M>, c: Entity)
    requires WellFormed(f0) && WellFormed(f) && f0.parent.Keys == f.parent.Keys == t0.Keys && c in f.parent
    requires forall x :: x in f.parent && x != c ==> f.parent[x] == f0.parent[x]
    requires WorldsOk(g, f0, t0)
    requires SameOutside(f, t0, t, c) && FreshBut(g, f, t, c, [])
    ensures WorldsOk(g, f, t)
  {
    forall x | x in f.parent && !Under(f, x, c) ensures WorldOk(g, f, t0, x) {
      assert WorldOk(g, f0, t0, x);
    }
    FreshEverywhere(g, f, t0, t, c);
  }

  lemma SameOutsideLocals<L, M>(f: Forest, t0: Transforms<L, M>, t: Transforms<L, M>, root: Entity)
    requires WellFormed(f) && SameOutside(f, t0, t, root)
    ensures Locals(t) == Locals(t0)
  {
  }

  lemma SameParentsWorlds<L, M>(g: Geometry<L, M>, f0: Forest, f: Forest, t: Transforms<L, M>)
    requires WellFormed(f0) && WellFormed(f) && f0.parent == f.parent && f.parent.Keys == t.Keys
    requires WorldsOk(g, f0, t)
    ensures WorldsOk(g, f, t)
  {
    forall x | x in f.parent ensures WorldOk(g, f, t, x) {
      assert WorldOk(g, f0, t, x);
    }
  }

  // ----- The other edits -----

  lemma AddRootWorlds<L, M>(g: Geometry<L, M>, f: Forest, t: Transforms<L, M>, e: Entity)
    requires WellFormed(f) && e.Valid() && e !in f.parent && f.parent.Keys == t.Keys && WellFormed(AddRoot(f, e))
    requires WorldsOk(g, f, t) && Compose(g, Origin(g), g.initial) == Origin(g)
    ensures WorldsOk(g, AddRoot(f, e), t[e := Transform(g.initial, Origin(g))])
  {
    var f', t' := AddRoot(f, e), t[e := Transform(g.initial, Origin(g))];
    forall x | x in f'.parent ensures WorldOk(g, f', t', x) {
      if x != e {
        assert WorldOk(g, f, t, x);
      }
    }
  }

  /** Dropping a subtree leaves the other caches agreeing. */
  lemma PruneWorlds<L, M>(g: Geometry<L, M>, f: Forest, t: Transforms<L, M>, c: Entity, gone: set<Entity>)
    requires WellFormed(f) && c in f.parent && WellFormed(Detach(f, c)) && WellFormed(Prune(f, c))
    requires Detach(f, c).parent.Keys == t.Keys && (t - gone).Keys == Prune(f, c).parent.Keys
    requires WorldsOk(g, Detach(f, c), t)
    ensures WorldsOk(g, Prune(f, c), t - gone)
  {
    hide Under;
    hide Detach;
    var d, f' := Detach(f, c), Prune(f, c);
    forall x | x in f'.parent ensures WorldOk(g, f', t - gone, x) {
      assert WorldOk(g, d, t, x);
    }
  }

  /** Cutting off and dropping the subtree of `c` leaves every other transform as it was. */
  lemma PruneOthers<L, M>(f: Forest, t0: Transforms<L, M>, t: Transforms<L, M>, c: Entity)
    requires WellFormed(f) && c in f.parent && WellFormed(Detach(f, c)) && f.parent.Keys == t0.Keys
    requires t == t0 || SameOutside(Detach(f, c), t0, t, c)
    ensures forall x :: x in Prune(f, c).parent ==> x in t0 && x in t && t[x] == t0[x]
  {
    DetachWellFormed(f, c);
  }

  /** New local values for `x`, its subtree refreshed. */
  lemma LocalSetWorlds<L, M>(g: Geometry<L, M>, f: Forest, t0: Transforms<L, M>, t1: Transforms<L, M>, t: Transforms<L, M>,
                             x: Entity, values: L)
    requires WellFormed(f) && f.parent.Keys == t0.Keys && x in f.parent && WorldsOk(g, f, t0)
    requires t1 == t0[x := t0[x].(local := values)]
    requires SameOutside(f, t1, t, x) && FreshBut(g, f, t, x, [])
    ensures WorldsOk(g, f, t)
  {
    hide FreshBut;
    hide SameOutside;
    hide WorldsOk;
    LocalSetOutside(g, f, t0, x, values);
    FreshEverywhere(g, f, t1, t, x);
  }

  lemma LocalSetOutside<L, M>(g: Geometry<L, M>, f: Forest, t: Transforms<L, M>, x: Entity, values: L)
    requires WellFormed(f) && f.parent.Keys == t.Keys && x in f.parent && WorldsOk(g, f, t)
    ensures var t1 := t[x := t[x].(local := values)];
            forall y {:trigger WorldOk(g, f, t1, y)} :: y in f.parent && !Under(f, y, x) ==> WorldOk(g, f, t1, y)
  {
    hide WorldOk;
    hide WellFormed;
    var t1 := t[x := t[x].(local := values)];
    forall y | y in f.parent && !Under(f, y, x) ensures WorldOk(g, f, t1, y) {
      assert WorldOk(g, f, t, y);
      LocalSetElsewhere(g, f, t, x, values, y);
    }
  }

  lemma LocalSetElsewhere<L, M>(g: Geometry<L, M>, f: Forest, t: Transforms<L, M>, x: Entity, values: L, y: Entity)
    requires WellFormed(f) && f.parent.Keys == t.Keys && x in f.parent && y in f.parent && y != x && WorldOk(g, f, t, y)
    ensures WorldOk(g, f, t[x := t[x].(local := values)], y)
  {
  }

  lemma LocalSet<L, M>(f: Forest, t0: Transforms<L, M>, t: Transforms<L, M>, x: Entity, values: L)
    requires WellFormed(f) && x in t0 && SameOutside(f, t0[x := t0[x].(local := values)], t, x)
    ensures Locals(t) == Locals(t0)[x := values]
  {
    hide Under;
    hide WellFormed;
  }

  lemma LocalSetOthers<L, M>(f: Forest, t0: Transforms<L, M>, t: Transforms<L, M>, x: Entity, values: L)
    requires WellFormed(f) && x in f.parent && x in t0 && SameOutside(f, t0[x := t0[x].(local := values)], t, x)
    ensures forall y :: y in t && !Under(f, y, x) ==> y in t0 && t[y] == t0[y]
  {
  }

  /** One step up of the product. */
  lemma PathStep<L, M>(g: Geometry<L, M>, f: Forest, t: Transforms<L, M>, x: Entity, below: M)
    requires WellFormed(f) && f.parent.Keys == t.Keys && x in f.parent
    ensures Product(g, PathLocals(f, t, x), below) ==
            Product(g, if f.parent[x] == NONE then [] else PathLocals(f, t, f.parent[x]),
                    g.multiply(g.matrixOf(t[x].local), below))
  {
    var path := PathLocals(f, t, x);
    assert path[..|path| - 1] == if f.parent[x] == NONE then [] else PathLocals(f, t, f.parent[x]);
  }

  lemma FreshRootsNone<L, M>(g: Geometry<L, M>, f: Forest, t: Transforms<L, M>, roots: seq<Entity>)
    requires WellFormed(f) && f.parent.Keys == t.Keys
    ensures FreshRoots(g, f, t, roots, 0)
  {
  }

  /** The trees of the first `n` of `roots` are refreshed. */
  ghost predicate FreshRoots<L, M>(g: Geometry<L, M>, f: Forest, t: Transforms<L, M>, roots: seq<Entity>, n: nat)
    requires WellFormed(f) && f.parent.Keys == t.Keys && n <= |roots|
  {
    forall i :: 0 <= i < n ==> FreshBut(g, f, t, roots[i], [])
  }

  lemma FreshRootsStep<L, M>(g: Geometry<L, M>, f: Forest, t0: Transforms<L, M>, t: Transforms<L, M>, roots: seq<Entity>, n: nat)
    requires WellFormed(f) && f.parent.Keys == t0.Keys && n < |roots|
    requires FreshRoots(g, f, t0, roots, n)
    requires SameOutside(f, t0, t, roots[n]) && FreshBut(g, f, t, roots[n], [])
    ensures FreshRoots(g, f, t, roots, n + 1)
  {
    forall i | 0 <= i < n ensures FreshBut(g, f, t, roots[i], []) {
      forall x | x in f.parent && Under(f, x, roots[i]) ensures WorldOk(g, f, t, x) {
        if Under(f, x, roots[n]) {
          assert WorldOk(g, f, t, x);
        } else {
          assert FreshBut(g, f, t0, roots[i], []);
          assert WorldOk(g, f, t0, x);
        }
      }
    }
  }

  lemma FreshRootsAll<L, M>(g: Geometry<L, M>, f: Forest, t: Transforms<L, M>, roots: seq<Entity>)
    requires WellFormed(f) && f.parent.Keys == t.Keys
    requires forall x :: x in f.parent && f.parent[x] == NONE ==> x in roots
    requires FreshRoots(g, f, t, roots, |roots|)
    ensures WorldsOk(g, f, t)
  {
    forall x | x in f.parent ensures WorldOk(g, f, t, x) {
      var r := RootOf(f, x);
      var i :| 0 <= i < |roots| && roots[i] == r;
      assert FreshBut(g, f, t, roots[i], []);
    }
  }

  // ----- Keeping the world while moving -----

  /** A move that gives `c` the relocated local values keeps every world matrix of the scene, in exact arithmetic. */
  lemma {:induction false} RelocationKeepsMatrices<L, M(!new)>(
      g: Geometry<L, M>, f0: Forest, f: Forest, t0: Transforms<L, M>, t: Transforms<L, M>, c: Entity, x: Entity)
    requires WellFormed(f0) && WellFormed(f) && f0.parent.Keys == f.parent.Keys == t0.Keys == t.Keys
    requires c in f.parent && x in f.parent
    requires forall y :: y in f.parent && y != c ==> f.parent[y] == f0.parent[y] && t[y].local == t0[y].local
    requires WorldsOk(g, f0, t0) && WorldsOk(g, f, t)
    requires var above := if f.parent[c] == NONE then g.one else t0[f.parent[c]].world.matrix;
             g.multiply(above, g.matrixOf(t[c].local)) == t0[c].world.matrix
    ensures t[x].world.matrix == t0[x].world.matrix
    decreases f.depth[x]
  {
    assert WorldOk(g, f, t, x);
    assert WorldOk(g, f0, t0, x);
    if f.parent[x] != NONE {
      RelocationKeepsMatrices(g, f0, f, t0, t, c, f.parent[x]);
    }
  }

  /** The product of the local matrices above `x`. */
  ghost function ProductAbove<L, M>(g: Geometry<L, M>, f: Forest, t: Transforms<L, M>, x: Entity): M
    requires WellFormed(f) && f.parent.Keys == t.Keys
  {
    if x !in f.parent || f.parent[x] == NONE then g.one else Product(g, PathLocals(f, t, f.parent[x]), g.one)
  }

  /** The parent's cached world matrix is the product above, in exact arithmetic. */
  lemma AboveIsCached<L, M(!new)>(g: Geometry<L, M>, f: Forest, t: Transforms<L, M>, x: Entity)
    requires Exact(g) && WellFormed(f) && f.parent.Keys == t.Keys && x in f.parent && WorldsOk(g, f, t)
    ensures f.parent[x] != NONE ==> f.parent[x] in t && ProductAbove(g, f, t, x) == t[f.parent[x]].world.matrix
    ensures f.parent[x] == NONE ==> ProductAbove(g, f, t, x) == g.one
  {
    hide Product;
    hide PathLocals;
    if f.parent[x] != NONE {
      CachedIsProduct(g, f, t, f.parent[x]);
    }
  }

  /** Local values relocated under what is above `x` put its world matrix where it was asked to be, in exact arithmetic. */
  lemma RelocatedWorld<L, M(!new)>(g: Geometry<L, M>, f: Forest, t0: Transforms<L, M>, t: Transforms<L, M>, x: Entity, world: M)
    requires Exact(g) && RelocatesExactly(g)
    requires WellFormed(f) && f.parent.Keys == t0.Keys == t.Keys && x in f.parent
    requires WorldsOk(g, f, t0) && WorldsOk(g, f, t)
    requires var local := g.relocate(ProductAbove(g, f, t0, x), world); local.Some? && Locals(t)[x] == local.value
    requires f.parent[x] != NONE ==> t[f.parent[x]] == t0[f.parent[x]]
    ensures t[x].world.matrix == world
  {
    hide Product;
    hide PathLocals;
    hide ProductAbove;
    AboveIsCached(g, f, t0, x);
    WorldOkMeans(g, f, t, x);
  }

  /** The local values that keep the world of `c` where it is under `p`, if there are any. */
  ghost function Relocation<L, M>(g: Geometry<L, M>, f: Forest, t: Transforms<L, M>, c: Entity, p: Entity): Option<L>
    requires WellFormed(f) && f.parent.Keys == t.Keys
  {
    if c in f.parent && (p == NONE || p in f.parent) then
      g.relocate(if p == NONE then g.one else Product(g, PathLocals(f, t, p), g.one), Product(g, PathLocals(f, t, c), g.one))
    else None
  }

  lemma RelocationMeans<L, M(!new)>(g: Geometry<L, M>, f: Forest, t: Transforms<L, M>, c: Entity, p: Entity)
    requires RelocatesExactly(g) && WellFormed(f) && f.parent.Keys == t.Keys && Relocation(g, f, t, c, p).Some?
    ensures c in f.parent && (p == NONE || p in f.parent)
    ensures var above := if p == NONE then g.one else Product(g, PathLocals(f, t, p), g.one);
            g.multiply(above, g.matrixOf(Relocation(g, f, t, c, p).value)) == Product(g, PathLocals(f, t, c), g.one)
  {
    hide Product;
    hide PathLocals;
    hide WellFormed;
  }

  lemma LocalsMean<L, M>(t: Transforms<L, M>)
    ensures Locals(t).Keys == t.Keys && forall y :: y in t ==> Locals(t)[y] == t[y].local
  {
  }

  /** Reparenting `c` under `p`, or making it a root, with its relocated local values moves
      nothing in the world: every world matrix of the scene stays what it was, in exact arithmetic. */
  lemma ReparentKeepsWorlds<L, M(!new)>(g: Geometry<L, M>, f0: Forest, f: Forest, t0: Transforms<L, M>, t: Transforms<L, M>,
                                        c: Entity, p: Entity)
    requires Exact(g) && RelocatesExactly(g)
    requires WellFormed(f0) && WellFormed(f) && f0.parent.Keys == f.parent.Keys == t0.Keys == t.Keys
    requires c in f.parent && (p == NONE || p in f.parent) && f.parent == f0.parent[c := p]
    requires Relocation(g, f0, t0, c, p).Some?
    requires Locals(t) == Locals(t0)[c := Relocation(g, f0, t0, c, p).value]
    requires WorldsOk(g, f0, t0) && WorldsOk(g, f, t)
    ensures forall x :: x in t ==> t[x].world.matrix == t0[x].world.matrix
  {
    hide *;
    LocalsMean(t);
    LocalsMean(t0);
    RelocationMeans(g, f0, t0, c, p);
    CachedIsProduct(g, f0, t0, c);
    if p != NONE {
      CachedIsProduct(g, f0, t0, p);
    }
    assert Locals(t)[c] == t[c].local;
    forall x | x in t ensures t[x].world.matrix == t0[x].world.matrix {
      RelocationKeepsMatrices(g, f0, f, t0, t, c, x);
    }
  }

  /** The cached world matrix is the product that climbing from `x` to its root yields, in exact arithmetic. */
  lemma CachedIsProduct<L, M(!new)>(g: Geometry<L, M>, f: Forest, t: Transforms<L, M>, x: Entity)
    requires Exact(g) && WellFormed(f) && f.parent.Keys == t.Keys && x in f.parent && WorldsOk(g, f, t)
    ensures t[x].world.matrix == Product(g, PathLocals(f, t, x), g.one)
  {
    WorldIsFold(g, f, t, x);
    ProductIsFold(g, PathLocals(f, t, x), g.one);
  }
}
