/** The editor's commands on the hierarchy, applied to the live scene. */
module HierarchyCommands {
  import opened Entities
  import opened Sequences
  import opened Forests
  import opened GeometryModule
  import opened Wrappers
  import opened Worlds
  import opened Scenes
  import opened EditorSnapshots
  import Links

  // ----- Lists with some children held back -----

  lemma {:induction false} KeptTwice(s: seq<Entity>, a: seq<Entity>, b: seq<Entity>)
    ensures Kept(Kept(s, a), b) == Kept(s, a + b)
  {
    if s != [] {
      var t, last := s[..|s| - 1], s[|s| - 1];
      KeptTwice(t, a, b);
      assert last in a + b <==> last in a || last in b;
      var head := Kept(t, a);
      if last in a {
        assert Kept(s, a) == head;
      } else {
        var k := head + [last];
        assert Kept(s, a) == k && k[..|k| - 1] == head;
      }
    }
  }

  lemma {:induction false} KeptSame(s: seq<Entity>, a: seq<Entity>, b: seq<Entity>)
    requires forall x :: x in s ==> (x in a <==> x in b)
    ensures Kept(s, a) == Kept(s, b)
  {
    if s != [] {
      KeptSame(s[..|s| - 1], a, b);
    }
  }

  lemma {:induction false} KeptNothing(s: seq<Entity>)
    ensures Kept(s, []) == s
  {
    if s != [] {
      KeptNothing(s[..|s| - 1]);
    }
  }

  lemma {:induction false} KeptMembers(s: seq<Entity>, d: seq<Entity>)
    ensures forall x :: x in Kept(s, d) <==> x in s && x !in d
    ensures Distinct(s) ==> Distinct(Kept(s, d))
  {
    if s != [] {
      var t, last := s[..|s| - 1], s[|s| - 1];
      KeptMembers(t, d);
      assert s == t + [last];
    }
  }

  /** Taking one more out. */
  lemma KeptWithout(s: seq<Entity>, d: seq<Entity>, c: Entity)
    requires Distinct(s)
    ensures Without(Kept(s, d), c) == Kept(s, d + [c])
    ensures Kept(Without(s, c), d) == Kept(s, [c] + d)
  {
    hide Kept;
    KeptMembers(s, d);
    KeptOne(Kept(s, d), c);
    KeptTwice(s, d, [c]);
    KeptOne(s, c);
    KeptTwice(s, [c], d);
  }

  /** Cutting a list before and after `position` cuts what is kept of it. */
  lemma KeptCut(s: seq<Entity>, d: seq<Entity>, position: nat)
    requires position <= |s|
    ensures Kept(s, d) == Kept(s[..position], d) + Kept(s[position..], d)
  {
    KeptConcat(s[..position], s[position..], d);
    assert s == s[..position] + s[position..];
  }

  /** A cut just behind a kept entity is a cut just behind it in what is kept. */
  lemma KeptUpTo(s: seq<Entity>, d: seq<Entity>, a: seq<Entity>, b: seq<Entity>)
    requires Distinct(s) && Kept(s, d) == a + b && a != []
    ensures a[|a| - 1] in s
    ensures Kept(s[..IndexOf(s, a[|a| - 1]) + 1], d) == a
    ensures Kept(s[IndexOf(s, a[|a| - 1]) + 1..], d) == b
  {
    hide Kept;
    hide IndexOf;
    var last := a[|a| - 1];
    KeptMembers(s, d);
    assert (a + b)[|a| - 1] == last;
    var i := IndexOf(s, last);
    KeptCut(s, d, i + 1);
    KeptNext(s, d, i);
    SamePrefix(Kept(s[..i], d), Kept(s[i + 1..], d), a, b);
  }

  lemma SamePrefix(head: seq<Entity>, tail: seq<Entity>, a: seq<Entity>, b: seq<Entity>)
    requires a != [] && Distinct(a + b) && head + [a[|a| - 1]] + tail == a + b
    ensures head + [a[|a| - 1]] == a && tail == b
  {
    var s := a + b;
    assert s[|a| - 1] == a[|a| - 1] == s[|head|];
    assert head + [a[|a| - 1]] == s[..|a|] && tail == s[|a|..];
  }

  /** Where an entity goes that is put right behind `anchor`. */
  function AfterAnchor(s: seq<Entity>, anchor: Entity): (position: nat)
    ensures position <= |s|
  {
    if !anchor.Valid() then 0 else if anchor in s then IndexOf(s, anchor) + 1 else |s|
  }

  /** Putting `child` right behind the last of `a`, with the children still to come held back. */
  lemma SpliceStep(current: seq<Entity>, child: Entity, rest: seq<Entity>, a: seq<Entity>, b: seq<Entity>, anchor: Entity)
    requires Distinct(current) && child !in rest
    requires Kept(current, [child] + rest) == a + b
    requires if a == [] then !anchor.Valid() else anchor == a[|a| - 1] && anchor.Valid()
    ensures var w := Without(current, child);
            Kept(Insert(w, AfterAnchor(w, anchor), child), rest) == a + [child] + b
  {
    hide Kept;
    hide IndexOf;
    hide Without;
    var w := Without(current, child);
    WithoutDistinct(current, child);
    KeptWithout(current, rest, child);
    var position := AfterAnchor(w, anchor);
    if a != [] {
      KeptUpTo(w, rest, a, b);
    } else {
      KeptNothingLeft(w, rest);
      assert a + b == b;
    }
    KeptInsert(w, position, child, rest);
  }

  lemma KeptNothingLeft(w: seq<Entity>, d: seq<Entity>)
    ensures Kept(w[..0], d) == [] && Kept(w[0..], d) == Kept(w, d)
  {
    assert w[0..] == w;
  }

  lemma KeptInsert(w: seq<Entity>, position: nat, child: Entity, d: seq<Entity>)
    requires position <= |w| && child !in d
    ensures Kept(Insert(w, position, child), d) == Kept(w[..position], d) + [child] + Kept(w[position..], d)
  {
    KeptConcat(w[..position] + [child], w[position..], d);
    KeptConcat(w[..position], [child], d);
    assert Kept([child], d) == [child] by {
      assert [child][..0] == [];
    }
  }

  // ----- What a run of moves does to the forest -----

  ghost predicate Subsequence(a: seq<Entity>, s: seq<Entity>)
    decreases |s|
  {
    if a == [] then true else
    s != [] && (Subsequence(a, s[..|s| - 1]) || (a[|a| - 1] == s[|s| - 1] && Subsequence(a[..|a| - 1], s[..|s| - 1])))
  }

  lemma SubsequenceNext(a: seq<Entity>, s: seq<Entity>, i: nat)
    requires i < |s| && Subsequence(a, s[..i])
    ensures Subsequence(a, s[..i + 1]) && Subsequence(a + [s[i]], s[..i + 1])
  {
    var t, b := s[..i + 1], a + [s[i]];
    assert t[..|t| - 1] == s[..i] && t[|t| - 1] == s[i];
    assert b[..|b| - 1] == a && b[|b| - 1] == t[|t| - 1];
  }

  lemma {:induction false} SubsequenceMembers(a: seq<Entity>, s: seq<Entity>)
    requires Subsequence(a, s)
    ensures forall x :: x in a ==> x in s
    decreases |s|
  {
    if a != [] {
      if Subsequence(a, s[..|s| - 1]) {
        SubsequenceMembers(a, s[..|s| - 1]);
      } else {
        SubsequenceMembers(a[..|a| - 1], s[..|s| - 1]);
        assert a == a[..|a| - 1] + [a[|a| - 1]];
      }
    }
  }

  /** The `accepted` entities became children of `target` (roots, if that is NONE); nobody else's
      parent changed, and the other lists lost them and nothing else. */
  ghost predicate Moved(f0: Forest, f: Forest, accepted: seq<Entity>, target: Entity) {
    && f.parent.Keys == f0.parent.Keys && f.kids.Keys == f0.kids.Keys
    && (forall x {:trigger f.parent[x]} :: x in f.parent && x in f0.parent ==>
          f.parent[x] == if x in accepted then target else f0.parent[x])
    && (forall q {:trigger f.kids[q]} :: q in f.kids && q in f0.kids && q != target ==>
          f.kids[q] == Kept(f0.kids[q], accepted))
  }

  lemma NothingMoved(f: Forest, target: Entity)
    ensures Moved(f, f, [], target)
  {
    forall q | q in f.kids ensures f.kids[q] == Kept(f.kids[q], []) {
      KeptNothing(f.kids[q]);
    }
  }

  lemma OneMoreMoved(f0: Forest, f1: Forest, f: Forest, accepted: seq<Entity>, c: Entity, target: Entity)
    requires WellFormed(f0) && Moved(f0, f1, accepted, target)
    requires f.parent == f1.parent[c := target] && c in f1.parent && f.kids.Keys == f1.kids.Keys
    requires forall q :: q in f1.kids && q != target ==> f.kids[q] == Without(f1.kids[q], c)
    ensures Moved(f0, f, accepted + [c], target)
  {
    hide Kept;
    hide Without;
    hide WellFormed;
    hide IndexOf;
    forall q | q in f.kids && q in f0.kids && q != target ensures f.kids[q] == Kept(f0.kids[q], accepted + [c]) {
      OneMoreList(f0, f1, accepted, c, target, q);
    }
  }

  lemma OneMoreList(f0: Forest, f1: Forest, accepted: seq<Entity>, c: Entity, target: Entity, q: Entity)
    requires WellFormed(f0) && Moved(f0, f1, accepted, target) && q in f0.kids && q in f1.kids && q != target
    ensures Without(f1.kids[q], c) == Kept(f0.kids[q], accepted + [c])
  {
    hide Kept;
    hide Without;
    hide WellFormed;
    ForestKeys(f0);
    KidsOf(f0, q);
    KeptWithout(f0.kids[q], accepted, c);
  }

  /** Moving only entities that are not above `x` leaves the path of `x` alone. */
  lemma {:induction false} PathUntouched(f0: Forest, f: Forest, x: Entity, d: seq<Entity>)
    requires WellFormed(f0) && WellFormed(f) && f0.parent.Keys == f.parent.Keys && x in f0.parent
    requires forall y :: y in f0.parent && y !in d ==> f.parent[y] == f0.parent[y]
    requires !SelectedOrBelow(f0, x, d)
    ensures !SelectedOrBelow(f, x, d)
    decreases f0.depth[x]
  {
    if f0.parent[x] != NONE {
      PathUntouched(f0, f, f0.parent[x], d);
    }
  }

  lemma MovedPath(f0: Forest, f: Forest, accepted: seq<Entity>, target: Entity, x: Entity, d: seq<Entity>)
    requires WellFormed(f0) && WellFormed(f) && Moved(f0, f, accepted, target) && x in f0.parent
    requires Subsequence(accepted, d) && !SelectedOrBelow(f0, x, d)
    ensures x in f.parent && !SelectedOrBelow(f, x, d)
  {
    hide SelectedOrBelow;
    hide WellFormed;
    hide Subsequence;
    SubsequenceMembers(accepted, d);
    PathUntouched(f0, f, x, d);
  }

  lemma NotBelow(f: Forest, x: Entity, d: seq<Entity>, c: Entity)
    requires WellFormed(f) && x in f.parent && c in d && !SelectedOrBelow(f, x, d)
    ensures !Under(f, x, c)
  {
    SelectedMeans(f, x, d);
  }

  // ----- Worlds -----

  ghost predicate SameMatrices<L, M>(t0: Transforms<L, M>, t: Transforms<L, M>) {
    t0.Keys == t.Keys && forall x :: x in t ==> t[x].world.matrix == t0[x].world.matrix
  }

  ghost predicate ExactGeometry<L, M(!new)>(g: Geometry<L, M>) {
    Exact(g) && RelocatesExactly(g)
  }

  ghost predicate AlwaysRelocates<L, M(!new)>(g: Geometry<L, M>) {
    forall parent, world :: g.relocate(parent, world).Some?
  }

  /** A world-preserving move keeps every world matrix. */
  lemma MoveKeepsMatrices<L, M(!new)>(g: Geometry<L, M>, f0: Forest, f: Forest, t0: Transforms<L, M>, t: Transforms<L, M>,
                                      c: Entity, p: Entity)
    requires ExactGeometry(g)
    requires WellFormed(f0) && WellFormed(f) && f0.parent.Keys == f.parent.Keys == t0.Keys == t.Keys
    requires c in f.parent && (p == NONE || p in f.parent) && f.parent == f0.parent[c := p]
    requires if f0.parent[c] == p then Locals(t) == Locals(t0) else
               Relocation(g, f0, t0, c, p).Some? && Locals(t) == Locals(t0)[c := Relocation(g, f0, t0, c, p).value]
    requires WorldsOk(g, f0, t0) && WorldsOk(g, f, t)
    ensures SameMatrices(t0, t)
  {
    hide WellFormed;
    hide WorldsOk;
    hide Locals;
    hide Relocation;
    if f0.parent[c] == p {
      assert f.parent == f0.parent;
      SameParentsWorlds(g, f0, f, t0);
      WorldsDetermined(g, f, t0, t);
    } else {
      ReparentKeepsWorlds(g, f0, f, t0, t, c, p);
    }
  }

  lemma MatricesChain<L, M>(t0: Transforms<L, M>, t1: Transforms<L, M>, t2: Transforms<L, M>)
    requires SameMatrices(t0, t1) && SameMatrices(t1, t2)
    ensures SameMatrices(t0, t2)
  {
  }

  // ----- The commands -----

  /** What the scene links say, in terms of the forest. */
  lemma SceneParent<L(!new), M(!new)>(scene: Scene<L, M>, x: Entity)
    requires scene.Structure() && x in scene.forest.parent
    ensures scene.GetParent(x) == scene.forest.parent[x]
    ensures scene.GetParent(x).Valid() <==> scene.forest.parent[x] != NONE
    ensures scene.forest.parent[x] != NONE ==> scene.forest.parent[x] in scene.forest.parent
  {
    hide WellFormed;
    Links.LinkedKeys(scene.hierarchy, scene.forest);
    ForestKeys(scene.forest);
    Links.ReadLinks(scene.hierarchy, scene.forest, x);
  }

  lemma ClimbStep(f: Forest, x: Entity, d: seq<Entity>)
    requires WellFormed(f) && x in f.parent
    ensures f.parent[x] != NONE ==> f.parent[x] in f.parent && f.parent[x] in f.depth && x in f.depth
                                    && f.depth[f.parent[x]] < f.depth[x]
    ensures SelectedOrBelow(f, x, d) <==> x in d || (f.parent[x] != NONE && SelectedOrBelow(f, f.parent[x], d))
  {
  }

  /** What must hold for the command to touch the scene at all. */
  ghost predicate Applicable(f: Forest, children: seq<Entity>, parent: Entity)
    requires WellFormed(f)
  {
    AllDropOk(f, children, parent) && (parent.Valid() ==> parent in f.parent)
  }

  /** `f` is `f0` after the first `i` of `children` were put behind `head`, one behind the other, those in
      `accepted` for good; `previous` is the last one put there. */
  ghost predicate Splicing(f0: Forest, f: Forest, children: seq<Entity>, i: nat, accepted: seq<Entity>, parent: Entity,
                           head: seq<Entity>, tail: seq<Entity>, previous: Entity)
    requires WellFormed(f0) && WellFormed(f) && i <= |children|
  {
    && parent in f.parent && parent in f.kids && !SelectedOrBelow(f, parent, children)
    && (forall k :: 0 <= k < |children| ==> children[k] in f.parent)
    && Moved(f0, f, accepted, parent)
    && Subsequence(accepted, children[..i])
    && (if head + accepted == [] then !previous.Valid()
        else previous == (head + accepted)[|head + accepted| - 1] && previous.Valid())
    && (Distinct(children) ==> Kept(f.kids[parent], children[i..]) == (head + accepted) + tail)
  }

  lemma SpliceStarts(f: Forest, children: seq<Entity>, parent: Entity, p: nat, previous: Entity)
    requires WellFormed(f) && parent in f.parent && parent in f.kids && !SelectedOrBelow(f, parent, children)
    requires forall k :: 0 <= k < |children| ==> children[k] in f.parent
    requires p <= |Kept(f.kids[parent], children)|
    requires if p == 0 then previous == NONE else previous == Kept(f.kids[parent], children)[p - 1]
    ensures Splicing(f, f, children, 0, [], parent, Kept(f.kids[parent], children)[..p],
                     Kept(f.kids[parent], children)[p..], previous)
  {
    hide WellFormed;
    hide SelectedOrBelow;
    hide Kept;
    hide Moved;
    ForestKeys(f);
    NothingMoved(f, parent);
    KidsOf(f, parent);
    KeptMembers(f.kids[parent], children);
    var kept := Kept(f.kids[parent], children);
    assert children[0..] == children;
    assert kept[..p] + [] == kept[..p] && kept == kept[..p] + kept[p..];
    assert p > 0 ==> kept[p - 1] in kept;
  }

  lemma SpliceAccepts(f0: Forest, f1: Forest, f: Forest, children: seq<Entity>, i: nat, accepted: seq<Entity>,
                      parent: Entity, head: seq<Entity>, tail: seq<Entity>, previous: Entity, position: nat)
    requires WellFormed(f0) && WellFormed(f1) && WellFormed(f) && i < |children|
    requires Splicing(f0, f1, children, i, accepted, parent, head, tail, previous)
    requires CanMove(f1, children[i], parent, position) && f == Move(f1, children[i], parent, position)
    requires position == AfterAnchor(Without(f1.kids[parent], children[i]), previous)
    requires !SelectedOrBelow(f0, parent, children) && parent in f0.parent
    ensures Splicing(f0, f, children, i + 1, accepted + [children[i]], parent, head, tail, children[i])
  {
    hide WellFormed;
    hide SelectedOrBelow;
    hide Kept;
    hide Moved;
    hide Move;
    hide CanMove;
    hide Under;
    hide Subsequence;
    hide Without;
    hide Insert;
    hide AfterAnchor;
    hide Distinct;
    var c := children[i];
    ForestKeys(f1);
    ForestKeys(f);
    MoveResult(f1, c, parent, position);
    OneMoreMoved(f0, f1, f, accepted, c, parent);
    SubsequenceNext(accepted, children, i);
    WholeSubsequence(accepted + [c], children, i + 1);
    MovedPath(f0, f, accepted + [c], parent, parent, children);
    ConcatAssociative(head, accepted, [c]);
    if Distinct(children) {
      SpliceNext(f1, children, i, parent, head + accepted, tail, previous, position);
    }
  }

  lemma SpliceNext(f: Forest, children: seq<Entity>, i: nat, parent: Entity,
                   before: seq<Entity>, tail: seq<Entity>, previous: Entity, position: nat)
    requires WellFormed(f) && i < |children| && Distinct(children) && parent in f.parent && parent in f.kids
    requires if before == [] then !previous.Valid() else previous == before[|before| - 1] && previous.Valid()
    requires Kept(f.kids[parent], children[i..]) == before + tail
    requires position == AfterAnchor(Without(f.kids[parent], children[i]), previous)
    ensures Kept(Insert(Without(f.kids[parent], children[i]), position, children[i]), children[i + 1..]) ==
            (before + [children[i]]) + tail
  {
    hide WellFormed;
    hide Kept;
    hide Without;
    hide Insert;
    hide AfterAnchor;
    KidsOf(f, parent);
    var c, rest := children[i], children[i + 1..];
    assert children[i..] == [c] + rest;
    assert c !in rest;
    SpliceStep(f.kids[parent], c, rest, before, tail, previous);
  }

  lemma {:induction false} WholeSubsequence(a: seq<Entity>, s: seq<Entity>, i: nat)
    requires i <= |s| && Subsequence(a, s[..i])
    ensures Subsequence(a, s)
    decreases |s| - i
  {
    if i < |s| {
      SubsequenceNext(a, s, i);
      WholeSubsequence(a, s, i + 1);
    } else {
      assert s[..i] == s;
    }
  }

  lemma SpliceRefuses(f0: Forest, f: Forest, children: seq<Entity>, i: nat, accepted: seq<Entity>,
                      parent: Entity, head: seq<Entity>, tail: seq<Entity>, previous: Entity)
    requires WellFormed(f0) && WellFormed(f) && i < |children|
    requires Splicing(f0, f, children, i, accepted, parent, head, tail, previous)
    requires children[i] in f.parent && f.parent[children[i]] != parent
    ensures Splicing(f0, f, children, i + 1, accepted, parent, head, tail, previous)
  {
    hide WellFormed;
    hide SelectedOrBelow;
    hide Kept;
    hide Moved;
    hide Subsequence;
    SubsequenceNext(accepted, children, i);
    KidsOf(f, parent);
    assert children[i..] == [children[i]] + children[i + 1..];
    KeptSame(f.kids[parent], children[i..], children[i + 1..]);
  }

  lemma SpliceEnds(f0: Forest, f: Forest, children: seq<Entity>, accepted: seq<Entity>,
                   parent: Entity, head: seq<Entity>, tail: seq<Entity>, previous: Entity)
    requires WellFormed(f0) && WellFormed(f) && Splicing(f0, f, children, |children|, accepted, parent, head, tail, previous)
    ensures parent in f.kids && Moved(f0, f, accepted, parent) && Subsequence(accepted, children)
    ensures Distinct(children) ==> f.kids[parent] == head + accepted + tail
  {
    hide WellFormed;
    hide SelectedOrBelow;
    hide Moved;
    hide Subsequence;
    hide Kept;
    KeptNothing(f.kids[parent]);
    assert children[|children|..] == [] && children[..|children|] == children;
  }

  /** The next child can be moved right behind `previous`. */
  lemma SpliceMoves(f0: Forest, f: Forest, children: seq<Entity>, i: nat, accepted: seq<Entity>,
                    parent: Entity, head: seq<Entity>, tail: seq<Entity>, previous: Entity)
    requires WellFormed(f0) && WellFormed(f) && i < |children|
    requires Splicing(f0, f, children, i, accepted, parent, head, tail, previous)
    ensures CanMove(f, children[i], parent, AfterAnchor(Without(f.kids[parent], children[i]), previous))
  {
    hide WellFormed;
    hide SelectedOrBelow;
    hide Kept;
    hide Moved;
    hide Subsequence;
    hide Without;
    hide Under;
    hide AfterAnchor;
    NotBelow(f, parent, children, children[i]);
  }

  lemma SpliceParents(f0: Forest, f: Forest, children: seq<Entity>, i: nat, accepted: seq<Entity>,
                      parent: Entity, head: seq<Entity>, tail: seq<Entity>, previous: Entity)
    requires WellFormed(f0) && WellFormed(f) && i <= |children|
    requires Splicing(f0, f, children, i, accepted, parent, head, tail, previous)
    ensures parent in f.parent && parent in f.kids && parent.Valid() && parent != NONE
    ensures forall k :: 0 <= k < |children| ==> children[k] in f.parent
  {
    ForestKeys(f);
  }

  lemma ApplicableMeans(f: Forest, children: seq<Entity>, parent: Entity)
    requires WellFormed(f) && Applicable(f, children, parent) && parent.Valid()
    ensures parent in f.parent && parent in f.kids && !SelectedOrBelow(f, parent, children)
    ensures forall k :: 0 <= k < |children| ==> children[k] in f.parent
  {
    assert forall k :: 0 <= k < |children| ==> DropOk(f, children[k], parent);
    SelectedMeans(f, parent, children);
  }

  lemma SameMatricesStart<L, M>(t: Transforms<L, M>)
    ensures SameMatrices(t, t)
  {
  }

  lemma RelocatesAlways<L, M(!new)>(g: Geometry<L, M>, f: Forest, t: Transforms<L, M>, c: Entity, p: Entity)
    requires WellFormed(f) && f.parent.Keys == t.Keys && c in f.parent && (p == NONE || p in f.parent)
    ensures AlwaysRelocates(g) ==> Relocation(g, f, t, c, p).Some?
  {
  }

  lemma SceneWorlds<L(!new), M(!new)>(scene: Scene<L, M>)
    requires scene.Structure() && scene.Fresh()
    ensures WellFormed(scene.forest) && scene.forest.parent.Keys == scene.transforms.Keys
    ensures WorldsOk(scene.g, scene.forest, scene.transforms)
  {
    hide WellFormed;
    hide WorldsOk;
    Links.LinkedKeys(scene.hierarchy, scene.forest);
  }

  lemma MovedMatrices<L, M(!new)>(g: Geometry<L, M>, f0: Forest, f: Forest, t0: Transforms<L, M>, t: Transforms<L, M>,
                                  c: Entity, p: Entity, position: nat)
    requires WellFormed(f0) && WellFormed(f) && f0.parent.Keys == f.parent.Keys == t0.Keys == t.Keys
    requires CanMove(f0, c, p, position) && f == Move(f0, c, p, position)
    requires c in f0.parent && (p == NONE || p in f0.parent)
    requires if f0.parent[c] == p then Locals(t) == Locals(t0) else
               Relocation(g, f0, t0, c, p).Some? && Locals(t) == Locals(t0)[c := Relocation(g, f0, t0, c, p).value]
    requires WorldsOk(g, f0, t0) && WorldsOk(g, f, t)
    ensures ExactGeometry(g) ==> SameMatrices(t0, t)
  {
    hide WellFormed;
    hide WorldsOk;
    hide Locals;
    hide Relocation;
    hide Move;
    hide ExactGeometry;
    hide CanMove;
    if ExactGeometry(g) {
      MoveResult(f0, c, p, position);
      MoveKeepsMatrices(g, f0, f, t0, t, c, p);
    }
  }

  /** `f` is `f0` after the `accepted` ones of the first `i` of `children` were made roots. */
  ghost predicate Uprooting(f0: Forest, f: Forest, children: seq<Entity>, i: nat, accepted: seq<Entity>)
    requires i <= |children|
  {
    Moved(f0, f, accepted, NONE) && Subsequence(accepted, children[..i])
    && (forall k :: 0 <= k < |children| ==> children[k] in f.parent)
  }

  ghost predicate RootsBefore(f: Forest, children: seq<Entity>, i: nat)
    requires i <= |children|
  {
    forall k :: 0 <= k < i ==> children[k] in f.parent && f.parent[children[k]] == NONE
  }

  lemma UprootSkips(f0: Forest, f: Forest, children: seq<Entity>, i: nat, accepted: seq<Entity>)
    requires i < |children| && Uprooting(f0, f, children, i, accepted)
    ensures Uprooting(f0, f, children, i + 1, accepted)
  {
    hide Moved;
    hide Subsequence;
    SubsequenceNext(accepted, children, i);
  }

  lemma UprootAccepts(f0: Forest, f1: Forest, f: Forest, children: seq<Entity>, i: nat, accepted: seq<Entity>)
    requires WellFormed(f0) && WellFormed(f1) && i < |children| && Uprooting(f0, f1, children, i, accepted)
    requires children[i] in f1.parent && f == Detach(f1, children[i])
    ensures Uprooting(f0, f, children, i + 1, accepted + [children[i]])
    ensures f.parent == f1.parent[children[i] := NONE]
    ensures RootsBefore(f1, children, i) ==> RootsBefore(f, children, i + 1)
  {
    hide WellFormed;
    hide Moved;
    hide Subsequence;
    hide Detach;
    hide Without;
    DetachLists(f1, children[i]);
    OneMoreMoved(f0, f1, f, accepted, children[i], NONE);
    SubsequenceNext(accepted, children, i);
  }

  lemma UprootedMatrices<L, M(!new)>(g: Geometry<L, M>, f0: Forest, f: Forest, t0: Transforms<L, M>, t: Transforms<L, M>, c: Entity)
    requires WellFormed(f0) && WellFormed(f) && f0.parent.Keys == f.parent.Keys == t0.Keys == t.Keys
    requires c in f0.parent && f0.parent[c] != NONE && f.parent == f0.parent[c := NONE]
    requires Relocation(g, f0, t0, c, NONE).Some?
    requires Locals(t) == Locals(t0)[c := Relocation(g, f0, t0, c, NONE).value]
    requires WorldsOk(g, f0, t0) && WorldsOk(g, f, t)
    ensures ExactGeometry(g) ==> SameMatrices(t0, t)
  {
    hide WellFormed;
    hide WorldsOk;
    hide Locals;
    hide Relocation;
    hide ExactGeometry;
    if ExactGeometry(g) {
      MoveKeepsMatrices(g, f0, f, t0, t, c, NONE);
    }
  }

  lemma UprootStarts(f: Forest, children: seq<Entity>)
    requires forall k :: 0 <= k < |children| ==> children[k] in f.parent
    ensures Uprooting(f, f, children, 0, [])
  {
    NothingMoved(f, NONE);
  }

  lemma UprootParents(f0: Forest, f: Forest, children: seq<Entity>, i: nat, accepted: seq<Entity>)
    requires i < |children| && Uprooting(f0, f, children, i, accepted)
    ensures children[i] in f.parent
  {
  }

  lemma RootsBeforeNone(f: Forest, children: seq<Entity>)
    ensures RootsBefore(f, children, 0)
  {
  }

  lemma RootsBeforeNext(f: Forest, children: seq<Entity>, i: nat)
    requires i < |children|
    ensures RootsBefore(f, children, i) && children[i] in f.parent && f.parent[children[i]] == NONE ==>
              RootsBefore(f, children, i + 1)
  {
  }

  lemma UprootEnds(f0: Forest, f: Forest, children: seq<Entity>, accepted: seq<Entity>)
    requires Uprooting(f0, f, children, |children|, accepted)
    ensures Moved(f0, f, accepted, NONE) && Subsequence(accepted, children)
  {
    assert children[..|children|] == children;
  }

  lemma NothingTaken(children: seq<Entity>)
    ensures Subsequence([], children)
  {
  }

  lemma WhenApplicable(f: Forest, children: seq<Entity>, parent: Entity)
    requires WellFormed(f)
    ensures Applicable(f, children, parent) <==>
            && (forall k :: 0 <= k < |children| ==> children[k] in f.parent)
            && (parent.Valid() ==> parent in f.parent && !SelectedOrBelow(f, parent, children))
  {
    hide WellFormed;
    hide Under;
    hide SelectedOrBelow;
    ParentsValid(f);
    if parent in f.parent {
      SelectedMeans(f, parent, children);
      assert forall k :: 0 <= k < |children| ==> children[k] in children;
    }
    if AllDropOk(f, children, parent) {
      assert forall k :: 0 <= k < |children| ==> DropOk(f, children[k], parent);
    }
  }

  class ReparentEntityCommand {
    const children: seq<Entity>
    const parent: Entity
    const position: nat

    constructor (children: seq<Entity>, parent: Entity, position: nat)
      ensures this.children == children && this.parent == parent && this.position == position
    {
      this.children, this.parent, this.position := children, parent, position;
    }

    predicate IsMoved(entity: Entity) {
      entity in children
    }

    /** Climbs from `entity` looking for a moved one. */
    method IsInMovedSubtree<L(!new), M(!new)>(scene: Scene<L, M>, entity: Entity) returns (inside: bool)
      requires scene.Structure() && entity in scene.hierarchy
      ensures WellFormed(scene.forest) && entity in scene.forest.parent
      ensures inside <==> SelectedOrBelow(scene.forest, entity, children)
    {
      hide Scene.Structure;
      hide WellFormed;
      hide SelectedOrBelow;
      SceneForest(scene);
      ghost var f := scene.forest;
      ForestKeys(f);
      var ancestor := entity;
      while ancestor.Valid()
        invariant ancestor.Valid() ==> ancestor in f.parent && ancestor in f.depth
        invariant SelectedOrBelow(f, entity, children) <==>
                  ancestor.Valid() && SelectedOrBelow(f, ancestor, children)
        decreases if ancestor.Valid() then f.depth[ancestor] + 1 else 0
      {
        ClimbStep(f, ancestor, children);
        if IsMoved(ancestor) {
          return true;
        }
        SceneParent(scene, ancestor);
        ancestor := scene.GetParent(ancestor);
      }
      inside := false;
    }

    /** The child that is to come right before the moved ones: the last of the first `position` unmoved children. */
    method GetInsertAnchor<L(!new), M(!new)>(scene: Scene<L, M>) returns (anchor: Entity)
      requires scene.Structure() && parent in scene.forest.kids
      ensures var kept := Kept(scene.forest.kids[parent], children);
              var p := if position < |kept| then position else |kept|;
              if p == 0 then anchor == NONE else anchor == kept[p - 1]
    {
      hide Scene.Structure;
      hide WellFormed;
      hide Kept;
      anchor := NONE;
      var kept := 0;
      var siblings := scene.GetChildren(parent);
      KeptCut(siblings, children, 0);
      KeptNothingLeft(siblings, children);
      var i := 0;
      while i < |siblings|
        invariant i <= |siblings|
        invariant kept == |Kept(siblings[..i], children)| <= position
        invariant anchor == if kept == 0 then NONE else Kept(siblings[..i], children)[kept - 1]
      {
        if kept == position {
          break;
        }
        KeptNext(siblings, children, i);
        if !IsMoved(siblings[i]) {
          anchor := siblings[i];
          kept := kept + 1;
        }
        i := i + 1;
      }
      KeptCut(siblings, children, i);
      KeptLength(siblings[i..], children);
    }

    /** The position right behind `anchor`, counted as if `child` were not there. */
    method GetPositionAfter<L(!new), M(!new)>(scene: Scene<L, M>, child: Entity, anchor: Entity) returns (place: nat)
      requires scene.Structure() && parent in scene.forest.kids
      ensures place == AfterAnchor(Without(scene.forest.kids[parent], child), anchor)
    {
      hide Scene.Structure;
      hide WellFormed;
      hide Kept;
      hide Without;
      if !anchor.Valid() {
        return 0;
      }
      var siblings := scene.GetChildren(parent);
      SceneForest(scene);
      KidsOf(scene.forest, parent);
      KeptOne(siblings, child);
      KeptNothingLeft(siblings, [child]);
      place := 0;
      var i := 0;
      while i < |siblings|
        invariant i <= |siblings|
        invariant place == |Kept(siblings[..i], [child])|
        invariant anchor !in Kept(siblings[..i], [child])
      {
        KeptNext(siblings, [child], i);
        if siblings[i] != child {
          place := place + 1;
          if siblings[i] == anchor {
            FoundAt(siblings, [child], i);
            break;
          }
        }
        i := i + 1;
      }
      assert i == |siblings| ==> siblings[..i] == siblings;
    }

    /** Makes every child that has a parent a root. */
    method MakeRoots<L(!new), M(!new)>(scene: Scene<L, M>) returns (recorded: bool, ghost accepted: seq<Entity>)
      requires scene.Structure() && scene.Fresh() && WellFormed(scene.forest)
      requires forall k :: 0 <= k < |children| ==> children[k] in scene.forest.parent
      modifies scene`hierarchy, scene`transforms, scene`forest
      ensures scene.Structure() && scene.Fresh()
      ensures recorded <==> accepted != []
      ensures Subsequence(accepted, children)
      ensures Moved(old(scene.forest), scene.forest, accepted, NONE)
      ensures AlwaysRelocates(scene.g) ==> RootsBefore(scene.forest, children, |children|)
      ensures ExactGeometry(scene.g) ==> SameMatrices(old(scene.transforms), scene.transforms)
    {
      hide Scene.Structure;
      hide Scene.Fresh;
      hide WellFormed;
      hide Uprooting;
      hide RootsBefore;
      hide Moved;
      hide Subsequence;
      hide Detach;
      hide ExactGeometry;
      hide AlwaysRelocates;
      hide SameMatrices;
      hide WorldsOk;
      hide Locals;
      hide Relocation;
      ghost var f0, t0 := scene.forest, scene.transforms;
      UprootStarts(f0, children);
      SameMatricesStart(t0);
      recorded, accepted := false, [];
      var i := 0;
      RootsBeforeNone(f0, children);
      while i < |children|
        invariant i <= |children|
        invariant scene.Structure() && scene.Fresh() && WellFormed(scene.forest)
        invariant Uprooting(f0, scene.forest, children, i, accepted)
        invariant recorded <==> accepted != []
        invariant AlwaysRelocates(scene.g) ==> RootsBefore(scene.forest, children, i)
        invariant ExactGeometry(scene.g) ==> SameMatrices(t0, scene.transforms)
      {
        var child := children[i];
        ghost var f1, t1 := scene.forest, scene.transforms;
        UprootParents(f0, f1, children, i, accepted);
        SceneForest(scene);
        SceneWorlds(scene);
        SceneParent(scene, child);
        RelocatesAlways(scene.g, f1, t1, child, NONE);
        UprootSkips(f0, f1, children, i, accepted);
        RootsBeforeNext(f1, children, i);
        if scene.GetParent(child).Valid() {
          var unparented := scene.UnparentMode(child, ReparentMode.PreserveWorld);
          SceneForest(scene);
          if unparented {
            UprootAccepts(f0, f1, scene.forest, children, i, accepted);
            SceneWorlds(scene);
            UprootedMatrices(scene.g, f1, scene.forest, t1, scene.transforms, child);
            accepted := accepted + [child];
            recorded := true;
            if ExactGeometry(scene.g) {
              MatricesChain(t0, t1, scene.transforms);
            }
          }
        }
        i := i + 1;
      }
      UprootEnds(f0, scene.forest, children, accepted);
    }

    /** Whether all the children are alive. */
    method ChildrenAlive<L(!new), M(!new)>(scene: Scene<L, M>) returns (alive: bool)
      requires scene.Structure()
      ensures alive <==> forall k :: 0 <= k < |children| ==> children[k] in scene.hierarchy
    {
      hide Scene.Structure;
      hide WellFormed;
      SceneForest(scene);
      ForestKeys(scene.forest);
      var i := 0;
      while i < |children|
        invariant i <= |children|
        invariant forall k :: 0 <= k < i ==> children[k] in scene.hierarchy
      {
        if !children[i].Valid() {
          return false;
        }
        if children[i] !in scene.hierarchy {
          return false;
        }
        i := i + 1;
      }
      alive := true;
    }

    method Apply<L(!new), M(!new)>(scene: Scene<L, M>) returns (recorded: bool, ghost accepted: seq<Entity>)
      requires scene.Structure() && scene.Fresh()
      modifies scene`hierarchy, scene`transforms, scene`forest
      ensures scene.Structure() && scene.Fresh() && WellFormed(old(scene.forest))
      ensures recorded <==> accepted != []
      ensures !Applicable(old(scene.forest), children, parent) ==>
                accepted == [] && scene.forest == old(scene.forest) && scene.transforms == old(scene.transforms)
      ensures Subsequence(accepted, children)
      ensures Moved(old(scene.forest), scene.forest, accepted, if parent.Valid() then parent else NONE)
      ensures Applicable(old(scene.forest), children, parent) && parent.Valid() && Distinct(children) ==>
                && parent in old(scene.forest).kids && parent in scene.forest.kids
                && var kept := Kept(old(scene.forest).kids[parent], children);
                   var p := if position < |kept| then position else |kept|;
                   scene.forest.kids[parent] == kept[..p] + accepted + kept[p..]
      ensures Applicable(old(scene.forest), children, parent) && AlwaysRelocates(scene.g) ==>
                if parent.Valid() then accepted == children else RootsBefore(scene.forest, children, |children|)
      ensures ExactGeometry(scene.g) ==> SameMatrices(old(scene.transforms), scene.transforms)
    {
      hide Scene.Structure;
      hide Scene.Fresh;
      hide WellFormed;
      hide RootsBefore;
      hide Moved;
      hide Kept;
      hide Subsequence;
      hide SelectedOrBelow;
      hide Applicable;
      hide ExactGeometry;
      hide AlwaysRelocates;
      hide SameMatrices;
      SceneForest(scene);
      SameMatricesStart(scene.transforms);
      NothingMoved(scene.forest, if parent.Valid() then parent else NONE);
      NothingTaken(children);
      recorded, accepted := false, [];
      var alive := ChildrenAlive(scene);
      WhenApplicable(scene.forest, children, parent);
      if !alive {
        return;
      }
      if !parent.Valid() {
        recorded, accepted := MakeRoots(scene);
        return;
      }
      if parent !in scene.hierarchy {
        return;
      }
      var inside := IsInMovedSubtree(scene, parent);
      if inside {
        return;
      }
      recorded, accepted := Splice(scene);
    }

    /** Puts the children one behind the other among those of the parent. */
    method Splice<L(!new), M(!new)>(scene: Scene<L, M>) returns (recorded: bool, ghost accepted: seq<Entity>)
      requires scene.Structure() && scene.Fresh() && WellFormed(scene.forest)
      requires Applicable(scene.forest, children, parent) && parent.Valid()
      modifies scene`hierarchy, scene`transforms, scene`forest
      ensures scene.Structure() && scene.Fresh()
      ensures recorded <==> accepted != []
      ensures Subsequence(accepted, children)
      ensures Moved(old(scene.forest), scene.forest, accepted, parent)
      ensures parent in old(scene.forest).kids && parent in scene.forest.kids
      ensures Distinct(children) ==>
                var kept := Kept(old(scene.forest).kids[parent], children);
                var p := if position < |kept| then position else |kept|;
                scene.forest.kids[parent] == kept[..p] + accepted + kept[p..]
      ensures AlwaysRelocates(scene.g) ==> accepted == children
      ensures ExactGeometry(scene.g) ==> SameMatrices(old(scene.transforms), scene.transforms)
    {
      hide Scene.Structure;
      hide Scene.Fresh;
      hide WellFormed;
      hide Kept;
      hide Splicing;
      hide Move;
      hide CanMove;
      hide Moved;
      hide Subsequence;
      hide SelectedOrBelow;
      hide AllDropOk;
      hide AfterAnchor;
      hide Without;
      hide ExactGeometry;
      hide AlwaysRelocates;
      hide SameMatrices;
      hide WorldsOk;
      hide Locals;
      hide Relocation;
      ghost var f0, t0 := scene.forest, scene.transforms;
      SceneForest(scene);
      ApplicableMeans(f0, children, parent);
      var previous := GetInsertAnchor(scene);
      ghost var kept := Kept(f0.kids[parent], children);
      ghost var p := if position < |kept| then position else |kept|;
      SpliceStarts(f0, children, parent, p, previous);
      SameMatricesStart(t0);
      recorded, accepted := false, [];
      var i := 0;
      while i < |children|
        invariant i <= |children|
        invariant scene.Structure() && scene.Fresh() && WellFormed(scene.forest)
        invariant Splicing(f0, scene.forest, children, i, accepted, parent, kept[..p], kept[p..], previous)
        invariant recorded <==> accepted != []
        invariant AlwaysRelocates(scene.g) ==> accepted == children[..i]
        invariant ExactGeometry(scene.g) ==> SameMatrices(t0, scene.transforms)
      {
        var child := children[i];
        assert children[..i + 1] == children[..i] + [child];
        ghost var f1, t1 := scene.forest, scene.transforms;
        SpliceParents(f0, f1, children, i, accepted, parent, kept[..p], kept[p..], previous);
        SceneForest(scene);
        SceneWorlds(scene);
        SceneParent(scene, child);
        SpliceMoves(f0, f1, children, i, accepted, parent, kept[..p], kept[p..], previous);
        var place := GetPositionAfter(scene, child, previous);
        var parented := scene.SetParentMode(child, parent, place, ReparentMode.PreserveWorld);
        SceneForest(scene);
        if parented {
          SpliceAccepts(f0, f1, scene.forest, children, i, accepted, parent, kept[..p], kept[p..], previous, place);
          SceneWorlds(scene);
          MovedMatrices(scene.g, f1, scene.forest, t1, scene.transforms, child, parent, place);
          previous := child;
          accepted := accepted + [child];
          recorded := true;
          if ExactGeometry(scene.g) {
            MatricesChain(t0, t1, scene.transforms);
          }
        } else {
          RelocatesAlways(scene.g, f1, t1, child, parent);
          SpliceRefuses(f0, f1, children, i, accepted, parent, kept[..p], kept[p..], previous);
        }
        i := i + 1;
      }
      SpliceEnds(f0, scene.forest, children, accepted, parent, kept[..p], kept[p..], previous);
      assert children[..i] == children;
    }
  }

  lemma {:induction false} KeptLength(s: seq<Entity>, d: seq<Entity>)
    ensures |Kept(s, d)| <= |s|
  {
    if s != [] {
      KeptLength(s[..|s| - 1], d);
    }
  }

  lemma FoundAt(s: seq<Entity>, d: seq<Entity>, i: nat)
    requires Distinct(s) && i < |s| && s[i] !in d
    ensures var w := Kept(s, d); var n := |Kept(s[..i], d)|;
            n < |w| && w[n] == s[i] && s[i] in w && IndexOf(w, s[i]) == n
  {
    hide Kept;
    KeptCut(s, d, i + 1);
    KeptNext(s, d, i);
    KeptMembers(s, d);
    IndexOfDistinct(Kept(s, d), |Kept(s[..i], d)|);
  }

  // ----- From the gesture to the scene -----

  function GapOf(children: seq<Entity>, gap: nat): (g: nat)
    ensures g <= |children| && (gap <= |children| ==> g == gap)
  {
    AtMost(gap, |children|)
  }

  /** `position` cuts what is kept of `children` where `gap` cuts `children`. */
  ghost predicate CutsAtGap(children: seq<Entity>, dragged: seq<Entity>, gap: nat, position: nat) {
    var kept := Kept(children, dragged);
    var p := if position < |kept| then position else |kept|;
    kept[..p] == Kept(children[..GapOf(children, gap)], dragged) && kept[p..] == Kept(children[GapOf(children, gap)..], dragged)
  }

  lemma FromOutside(children: seq<Entity>, e: Entity, gap: nat)
    requires Distinct(children) && e !in children
    ensures CutsAtGap(children, [e], gap, gap)
    ensures DropAt(children, [e], gap) != children
  {
    hide Kept;
    var g := GapOf(children, gap);
    WithoutNone(children, e);
    WithoutNone(children[..g], e);
    WithoutNone(children[g..], e);
    var dropped := DropAt(children, [e], gap);
    assert dropped == children[..g] + [e] + children[g..];
    assert dropped[g] == e;
  }

  /** Of two ways to cut a list by position, equal results mean equal cuts. */
  lemma SameCut(kept: seq<Entity>, dragged: seq<Entity>, p: nat, head: seq<Entity>, tail: seq<Entity>)
    requires p <= |kept| && kept == head + tail && dragged != []
    requires forall x :: x in dragged ==> x !in kept
    requires kept[..p] + dragged + kept[p..] == head + dragged + tail
    ensures kept[..p] == head && kept[p..] == tail
  {
    var s := kept[..p] + dragged + kept[p..];
    assert s[p] == dragged[0] && s[|head|] == dragged[0] && dragged[0] in dragged;
    assert forall k :: 0 <= k < |head| ==> s[k] == kept[k];
    assert forall k :: 0 <= k < p ==> s[k] == kept[k];
    assert p == |head|;
  }

  lemma DroppedCuts(children: seq<Entity>, dragged: seq<Entity>, gap: nat, position: nat)
    requires Distinct(children) && dragged != [] && position <= |Kept(children, dragged)|
    requires Dropped(children, dragged, position) == DropAt(children, dragged, gap)
    ensures CutsAtGap(children, dragged, gap, position)
  {
    hide Kept;
    KeptMembers(children, dragged);
    KeptCut(children, dragged, GapOf(children, gap));
    SameCut(Kept(children, dragged), dragged, position,
            Kept(children[..GapOf(children, gap)], dragged), Kept(children[GapOf(children, gap)..], dragged));
  }

  lemma InsertedCuts(children: seq<Entity>, e: Entity, gap: nat, position: nat)
    requires Distinct(children)
    requires Insert(Without(children, e), AtMost(position, |Without(children, e)|), e) == DropAt(children, [e], gap)
    ensures CutsAtGap(children, [e], gap, position)
  {
    hide Kept;
    hide DropAt;
    KeptOne(children, e);
    DroppedCuts(children, [e], gap, AtMost(position, |Without(children, e)|));
  }

  lemma DropNothing(children: seq<Entity>, gap: nat)
    ensures DropAt(children, [], gap) == children
  {
    hide Kept;
    var g := GapOf(children, gap);
    KeptNothing(children[..g]);
    KeptNothing(children[g..]);
    assert children == children[..g] + children[g..];
  }

  /** What a drop asks for, and whether the scene already looks like that. */
  method ResolveDraggedDrop(snapshot: EditorSnapshot, ghost f: Forest, ghost roots: seq<Entity>,
                            dragged: seq<Entity>, parent: Entity, gap: nat) returns (ok: bool, position: nat)
    requires WellFormed(f) && Shows(f, roots, snapshot.hierarchy)
    ensures parent.Valid() && Applicable(f, dragged, parent) ==>
              && parent in f.kids && (|dragged| == 1 ==> dragged[0] in f.parent)
              && (ok <==> DropAt(f.kids[parent], dragged, gap) != f.kids[parent]
                          || (|dragged| == 1 && f.parent[dragged[0]] == parent && gap > |f.kids[parent]|))
              && (ok ==> CutsAtGap(f.kids[parent], dragged, gap, position))
    ensures parent == NONE && Applicable(f, dragged, parent) && !ok ==> RootsBefore(f, dragged, |dragged|)
  {
    hide WellFormed;
    hide Shows;
    hide Kept;
    hide DropAt;
    hide Dropped;
    hide Insert;
    hide Without;
    hide CutsAtGap;
    hide Under;
    ParentsValid(f);
    if parent in f.kids {
      KidsOf(f, parent);
    }
    if |dragged| == 1 {
      assert dragged == [dragged[0]];
      if Applicable(f, dragged, parent) {
        assert DropOk(f, dragged[0], parent);
      }
      ok, position := snapshot.ResolveDropOne(f, roots, dragged[0], parent, gap);
      if parent in f.kids && dragged[0] in f.parent {
        if f.parent[dragged[0]] != parent {
          FromOutside(f.kids[parent], dragged[0], gap);
        } else if Applicable(f, dragged, parent) {
          InsertedCuts(f.kids[parent], dragged[0], gap, position);
        }
      }
      return;
    }
    ok, position := snapshot.ResolveDrop(f, roots, dragged, parent, gap);
    if parent in f.kids && dragged == [] {
      DropNothing(f.kids[parent], gap);
    } else if parent in f.kids && Applicable(f, dragged, parent) {
      DroppedCuts(f.kids[parent], dragged, gap, position);
    }
  }

  /** A drop, from the rows shown to the scene: the dragged entities end up one behind the other at the
      gap, taken out of wherever else they stood, and nothing else changes its place. */
  method DropOnHierarchy<L(!new), M(!new)>(scene: Scene<L, M>, dragged: seq<Entity>, parent: Entity, gap: nat)
    returns (ghost accepted: seq<Entity>)
    requires scene.Structure() && scene.Fresh() && Distinct(dragged)
    modifies scene`hierarchy, scene`transforms, scene`forest
    ensures scene.Structure() && scene.Fresh() && WellFormed(old(scene.forest))
    ensures Subsequence(accepted, dragged)
    ensures !Applicable(old(scene.forest), dragged, parent) ==>
              scene.forest == old(scene.forest) && scene.transforms == old(scene.transforms)
    ensures Applicable(old(scene.forest), dragged, parent) && parent.Valid() ==>
              && parent in old(scene.forest).kids && parent in scene.forest.kids
              && var s := old(scene.forest).kids[parent]; var g := GapOf(s, gap);
                 scene.forest.kids[parent] == Kept(s[..g], dragged) + accepted + Kept(s[g..], dragged)
    ensures Applicable(old(scene.forest), dragged, parent) && AlwaysRelocates(scene.g) && parent.Valid() ==> accepted == dragged
    ensures Applicable(old(scene.forest), dragged, parent) && AlwaysRelocates(scene.g) && parent == NONE ==>
              RootsBefore(scene.forest, dragged, |dragged|)
    ensures exists moved :: Subsequence(moved, dragged)
                            && Moved(old(scene.forest), scene.forest, moved, if parent.Valid() then parent else NONE)
    ensures ExactGeometry(scene.g) ==> SameMatrices(old(scene.transforms), scene.transforms)
  {
    hide Scene.Structure;
    hide Scene.Fresh;
    hide WellFormed;
    hide Shows;
    hide Kept;
    hide Moved;
    hide Subsequence;
    hide Applicable;
    hide RootsBefore;
    hide ExactGeometry;
    hide AlwaysRelocates;
    hide SameMatrices;
    hide CutsAtGap;
    hide DropAt;
    SceneForest(scene);
    SameMatricesStart(scene.transforms);
    ParentsValid(scene.forest);
    ParentApplicable(scene.forest, dragged, parent);
    WholeList(dragged);
    ghost var f0 := scene.forest;
    NothingMoved(f0, if parent.Valid() then parent else NONE);
    NothingTaken(dragged);
    var snapshot := new EditorSnapshot();
    ghost var roots := snapshot.BuildSnapshot(scene);
    var ok, position := ResolveDraggedDrop(snapshot, f0, roots, dragged, parent, gap);
    accepted := dragged;
    if ok {
      var command := new ReparentEntityCommand(dragged, parent, position);
      var recorded;
      recorded, accepted := command.Apply(scene);
      if parent in f0.kids {
        CutMeans(f0.kids[parent], dragged, gap, position, accepted);
      }
    } else if parent in f0.kids {
      DropAtMeans(f0.kids[parent], dragged, gap);
    }
  }

  lemma ParentApplicable(f: Forest, dragged: seq<Entity>, parent: Entity)
    requires WellFormed(f)
    ensures Applicable(f, dragged, parent) && parent.Valid() ==> parent in f.parent
  {
  }

  lemma {:induction false} WholeList(s: seq<Entity>)
    ensures Subsequence(s, s)
  {
    if s != [] {
      WholeList(s[..|s| - 1]);
    }
  }

  lemma CutMeans(children: seq<Entity>, dragged: seq<Entity>, gap: nat, position: nat, accepted: seq<Entity>)
    ensures var kept := Kept(children, dragged); var g := GapOf(children, gap);
            var p := if position < |kept| then position else |kept|;
            CutsAtGap(children, dragged, gap, position) ==>
              kept[..p] + accepted + kept[p..] == Kept(children[..g], dragged) + accepted + Kept(children[g..], dragged)
  {
    hide Kept;
  }

  lemma DropAtMeans(children: seq<Entity>, dragged: seq<Entity>, gap: nat)
    ensures var g := GapOf(children, gap);
            DropAt(children, dragged, gap) == Kept(children[..g], dragged) + dragged + Kept(children[g..], dragged)
  {
    hide Kept;
  }
}
