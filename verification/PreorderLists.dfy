/** Flattening a forest depth first, and what the depths alone of such a list give away. */
module PreorderLists {
  import opened Entities
  import opened Sequences
  import opened Forests

  /** The trees of the listed roots, one after the other. */
  ghost function Listing(f: Forest, roots: seq<Entity>): seq<Entity>
    requires WellFormed(f) && forall x :: x in roots ==> x in f.parent
  {
    if roots == [] then [] else
    Listing(f, roots[..|roots| - 1]) + Preorder(f, roots[|roots| - 1])
  }

  /** All the roots of `f`, in some order. */
  ghost predicate RootsOf(f: Forest, roots: seq<Entity>)
    requires WellFormed(f)
  {
    Distinct(roots) && forall x :: x in roots <==> x in f.parent && f.parent[x] == NONE
  }

  /** The place of `x` among its siblings; roots are siblings of each other. */
  ghost function SiblingIndex(f: Forest, roots: seq<Entity>, x: Entity): nat
    requires WellFormed(f) && x in f.parent
  {
    if f.parent[x] != NONE then IndexOf(f.kids[f.parent[x]], x)
    else if x in roots then IndexOf(roots, x) else 0
  }

  ghost predicate NextSibling(f: Forest, roots: seq<Entity>, x: Entity, y: Entity)
    requires WellFormed(f) && x in f.parent && y in f.parent
  {
    f.parent[x] == f.parent[y] && SiblingIndex(f, roots, y) == SiblingIndex(f, roots, x) + 1
  }

  /** `y` follows `x` in a depth-first list: its first child, or the next sibling of an entity on its chain. */
  ghost predicate Follows(f: Forest, roots: seq<Entity>, x: Entity, y: Entity)
    requires WellFormed(f) && x in f.parent && y in f.parent
  {
    if f.depth[y] > f.depth[x] then f.parent[y] == x && SiblingIndex(f, roots, y) == 0
    else
      ChainEntries(f, x, f.depth[y]);
      NextSibling(f, roots, Chain(f, x)[f.depth[y]], y)
  }

  /** A depth-first list: it starts at the first root and every entry follows the one before. */
  ghost predicate DepthFirst(f: Forest, roots: seq<Entity>, list: seq<Entity>)
    requires WellFormed(f)
  {
    && Distinct(list)
    && (forall x :: x in list <==> x in f.parent)
    && (list != [] ==> f.parent[list[0]] == NONE && SiblingIndex(f, roots, list[0]) == 0)
    && (forall i {:trigger FollowsAt(f, roots, list, i)} :: 0 <= i < |list| - 1 ==> FollowsAt(f, roots, list, i))
  }

  ghost predicate FollowsAt(f: Forest, roots: seq<Entity>, list: seq<Entity>, i: nat)
    requires WellFormed(f) && i < |list| - 1
  {
    list[i] in f.parent && list[i + 1] in f.parent && Follows(f, roots, list[i], list[i + 1])
  }

  // ----- Chains -----

  /** An ancestor sits on the chain at its own depth. */
  lemma ChainAt(f: Forest, x: Entity, a: Entity)
    requires WellFormed(f) && x in f.parent && a in f.parent
    ensures Under(f, x, a) <==> f.depth[a] <= f.depth[x] && Chain(f, x)[f.depth[a]] == a
  {
    ChainMembers(f, x);
    if Under(f, x, a) {
      var i :| 0 <= i < |Chain(f, x)| && Chain(f, x)[i] == a;
    }
    if f.depth[a] <= f.depth[x] && Chain(f, x)[f.depth[a]] == a {
      assert a in Chain(f, x);
    }
  }

  lemma ChainOfChild(f: Forest, x: Entity)
    requires WellFormed(f) && x in f.parent
    ensures f.parent[x] == NONE <==> f.depth[x] == 0
    ensures f.parent[x] != NONE ==> f.parent[x] in f.parent && f.depth[x] == f.depth[f.parent[x]] + 1
                                    && Chain(f, x)[..f.depth[x]] == Chain(f, f.parent[x])
  {
  }

  lemma ChainEntries(f: Forest, x: Entity, i: nat)
    requires WellFormed(f) && x in f.parent && i <= f.depth[x]
    ensures Chain(f, x)[i] in f.parent && f.depth[Chain(f, x)[i]] == i && Under(f, x, Chain(f, x)[i])
  {
    ChainMembers(f, x);
    assert Chain(f, x)[i] in Chain(f, x);
  }

  /** The chain of an entity on the chain is the part of the chain up to it. */
  lemma {:induction false} ChainPrefix(f: Forest, x: Entity, i: nat)
    requires WellFormed(f) && x in f.parent && i <= f.depth[x]
    ensures Chain(f, x)[i] in f.parent && Chain(f, Chain(f, x)[i]) == Chain(f, x)[..i + 1]
    decreases f.depth[x]
  {
    if i < f.depth[x] {
      ChainPrefix(f, f.parent[x], i);
    }
  }

  /** What follows shares its proper ancestors with what it follows. */
  lemma FollowsChain(f: Forest, roots: seq<Entity>, x: Entity, y: Entity)
    requires WellFormed(f) && x in f.parent && y in f.parent && Follows(f, roots, x, y)
    ensures f.depth[y] <= f.depth[x] + 1
    ensures Chain(f, y)[..f.depth[y]] == Chain(f, x)[..f.depth[y]]
  {
    ChainOfChild(f, y);
    if f.depth[y] <= f.depth[x] {
      var a := Chain(f, x)[f.depth[y]];
      ChainEntries(f, x, f.depth[y]);
      ChainPrefix(f, x, f.depth[y]);
      ChainOfChild(f, a);
      assert Chain(f, a)[..f.depth[y]] == Chain(f, x)[..f.depth[y] + 1][..f.depth[y]];
    }
  }

  // ----- The listing is depth first -----

  /** A piece of a listing: the tree of `x`, or those of some consecutive children. */
  ghost predicate Piece(f: Forest, roots: seq<Entity>, list: seq<Entity>)
    requires WellFormed(f)
  {
    && (forall x :: x in list ==> x in f.parent)
    && (forall i {:trigger FollowsAt(f, roots, list, i)} :: 0 <= i < |list| - 1 ==> FollowsAt(f, roots, list, i))
  }

  lemma PieceConcat(f: Forest, roots: seq<Entity>, a: seq<Entity>, b: seq<Entity>)
    requires WellFormed(f) && Piece(f, roots, a) && Piece(f, roots, b)
    requires a != [] && b != [] ==>
               a[|a| - 1] in f.parent && b[0] in f.parent && Follows(f, roots, a[|a| - 1], b[0])
    ensures Piece(f, roots, a + b)
  {
    hide WellFormed;
    hide Follows;
    var s := a + b;
    forall i | 0 <= i < |s| - 1 ensures FollowsAt(f, roots, s, i) {
      if i < |a| - 1 {
        assert FollowsAt(f, roots, a, i);
      } else if i >= |a| {
        assert FollowsAt(f, roots, b, i - |a|);
      } else {
        assert s[i] == a[|a| - 1] && s[i + 1] == b[0];
      }
    }
  }

  lemma {:induction false} PreorderPiece(f: Forest, roots: seq<Entity>, x: Entity)
    requires WellFormed(f) && x in f.parent
    ensures Piece(f, roots, Preorder(f, x)) && Preorder(f, x)[0] == x
    decreases |f.parent| - f.depth[x], 1, 0
  {
    hide Follows;
    PreorderFromPiece(f, roots, x, 0);
    var rest := PreorderFrom(f, x, 0);
    assert Piece(f, roots, [x]);
    if rest != [] {
      FirstChildFollows(f, roots, x);
    }
    PieceConcat(f, roots, [x], rest);
  }

  lemma FirstChildFollows(f: Forest, roots: seq<Entity>, x: Entity)
    requires WellFormed(f) && x in f.parent && f.kids[x] != []
    ensures f.kids[x][0] in f.parent && Follows(f, roots, x, f.kids[x][0])
  {
    KidAt(f, x, 0);
  }

  /** The next child follows whatever lies last below the one before. */
  lemma NextChildFollows(f: Forest, roots: seq<Entity>, p: Entity, i: nat, y: Entity)
    requires WellFormed(f) && p in f.parent && i + 1 < |f.kids[p]|
    requires y in f.parent && Under(f, y, f.kids[p][i])
    ensures f.kids[p][i + 1] in f.parent && Follows(f, roots, y, f.kids[p][i + 1])
  {
    KidAt(f, p, i);
    KidAt(f, p, i + 1);
    ChainOfChild(f, f.kids[p][i]);
    ChainOfChild(f, f.kids[p][i + 1]);
    ChainAt(f, y, f.kids[p][i]);
  }

  lemma {:induction false} PreorderFromPiece(f: Forest, roots: seq<Entity>, p: Entity, i: nat)
    requires WellFormed(f) && p in f.parent && i <= |f.kids[p]|
    ensures Piece(f, roots, PreorderFrom(f, p, i))
    ensures if i == |f.kids[p]| then PreorderFrom(f, p, i) == []
            else PreorderFrom(f, p, i) != [] && PreorderFrom(f, p, i)[0] == f.kids[p][i]
    decreases |f.parent| - f.depth[p], 0, |f.kids[p]| - i
  {
    hide Follows;
    if i < |f.kids[p]| {
      KidAt(f, p, i);
      DepthBound(f, f.kids[p][i]);
      PreorderPiece(f, roots, f.kids[p][i]);
      PreorderFromPiece(f, roots, p, i + 1);
      var a, b := Preorder(f, f.kids[p][i]), PreorderFrom(f, p, i + 1);
      if b != [] {
        PreorderMembers(f, f.kids[p][i]);
        assert a[|a| - 1] in a;
        NextChildFollows(f, roots, p, i, a[|a| - 1]);
      }
      PieceConcat(f, roots, a, b);
    }
  }

  lemma {:induction false} ListingMembers(f: Forest, roots: seq<Entity>)
    requires WellFormed(f) && forall x :: x in roots ==> x in f.parent
    ensures forall y :: y in Listing(f, roots) <==> y in f.parent && exists i :: 0 <= i < |roots| && Under(f, y, roots[i])
  {
    if roots != [] {
      ListingMembers(f, roots[..|roots| - 1]);
      PreorderMembers(f, roots[|roots| - 1]);
      forall y | y in f.parent && exists i :: 0 <= i < |roots| && Under(f, y, roots[i]) ensures y in Listing(f, roots) {
        var i :| 0 <= i < |roots| && Under(f, y, roots[i]);
        if i < |roots| - 1 {
          assert Under(f, y, roots[..|roots| - 1][i]);
        }
      }
    }
  }

  lemma {:induction false} ListingPiece(f: Forest, roots: seq<Entity>, n: nat)
    requires WellFormed(f) && RootsOf(f, roots) && n <= |roots|
    ensures forall x :: x in roots[..n] ==> x in f.parent
    ensures Piece(f, roots, Listing(f, roots[..n])) && Distinct(Listing(f, roots[..n]))
    ensures n == 0 ==> Listing(f, roots[..n]) == []
    ensures n > 0 ==> var l := Listing(f, roots[..n]); l != [] && l[0] == roots[0] && Under(f, l[|l| - 1], roots[n - 1])
  {
    hide Follows;
    hide WellFormed;
    if n > 0 {
      ListingPiece(f, roots, n - 1);
      var r := roots[n - 1];
      assert roots[..n][..n - 1] == roots[..n - 1] && r in roots;
      var a, b := Listing(f, roots[..n - 1]), Preorder(f, r);
      PreorderPiece(f, roots, r);
      PreorderDistinct(f, r);
      PreorderMembers(f, r);
      assert b[|b| - 1] in b;
      if n > 1 {
        NextRootFollows(f, roots, n - 2, a[|a| - 1]);
      }
      PieceConcat(f, roots, a, b);
      TreesApart(f, roots, n - 1);
      DistinctConcat(a, b);
    }
  }

  lemma NextRootFollows(f: Forest, roots: seq<Entity>, i: nat, y: Entity)
    requires WellFormed(f) && RootsOf(f, roots) && i + 1 < |roots|
    requires roots[i] in f.parent && y in f.parent && Under(f, y, roots[i])
    ensures roots[i + 1] in f.parent && Follows(f, roots, y, roots[i + 1])
  {
    assert roots[i] in roots && roots[i + 1] in roots;
    IndexOfDistinct(roots, i);
    IndexOfDistinct(roots, i + 1);
    ChainOfChild(f, roots[i]);
    ChainOfChild(f, roots[i + 1]);
    ChainAt(f, y, roots[i]);
  }

  lemma TreesApart(f: Forest, roots: seq<Entity>, n: nat)
    requires WellFormed(f) && RootsOf(f, roots) && n < |roots|
    requires forall x :: x in roots[..n] ==> x in f.parent
    ensures roots[n] in f.parent
    ensures forall y :: y in Preorder(f, roots[n]) ==> y !in Listing(f, roots[..n])
  {
    assert roots[n] in roots;
    ListingMembers(f, roots[..n]);
    PreorderMembers(f, roots[n]);
    forall y | y in Preorder(f, roots[n]) && y in Listing(f, roots[..n]) ensures false {
      var i :| 0 <= i < n && Under(f, y, roots[..n][i]);
      assert roots[i] in roots;
      SiblingsApart(f, y, roots[n], roots[i]);
    }
  }

  /** Flattening all the trees gives a depth-first list of the whole forest. */
  lemma ListingIsDepthFirst(f: Forest, roots: seq<Entity>)
    requires WellFormed(f) && RootsOf(f, roots)
    ensures DepthFirst(f, roots, Listing(f, roots))
  {
    hide WellFormed;
    hide FollowsAt;
    hide Listing;
    hide Under;
    assert roots[..|roots|] == roots;
    ListingPiece(f, roots, |roots|);
    ListingCovers(f, roots);
    if roots != [] {
      assert roots[0] in roots;
      IndexOfDistinct(roots, 0);
    }
  }

  lemma ListingCovers(f: Forest, roots: seq<Entity>)
    requires WellFormed(f) && RootsOf(f, roots)
    ensures forall x :: x in Listing(f, roots) <==> x in f.parent
  {
    ListingMembers(f, roots);
    forall x | x in f.parent ensures x in Listing(f, roots) {
      var r := RootOf(f, x);
      var i :| 0 <= i < |roots| && roots[i] == r;
      assert Under(f, x, roots[i]);
    }
  }

  // ----- Reading a depth-first list backwards -----

  /** One step of the list: how the depth and the chain can change. */
  lemma StepChain(f: Forest, roots: seq<Entity>, list: seq<Entity>, i: nat)
    requires WellFormed(f) && DepthFirst(f, roots, list) && i + 1 < |list|
    ensures list[i] in f.parent && list[i + 1] in f.parent
    ensures f.depth[list[i + 1]] <= f.depth[list[i]] + 1
    ensures Chain(f, list[i + 1])[..f.depth[list[i + 1]]] == Chain(f, list[i])[..f.depth[list[i + 1]]]
  {
    hide Follows;
    hide Chain;
    assert FollowsAt(f, roots, list, i);
    FollowsChain(f, roots, list[i], list[i + 1]);
  }

  /** Within a run of entries at depth `d` or below, the chains agree above `d`. */
  lemma {:induction false} RunShares(f: Forest, roots: seq<Entity>, list: seq<Entity>, j: nat, i: nat, d: nat)
    requires WellFormed(f) && DepthFirst(f, roots, list) && j <= i < |list|
    requires list[j] in f.parent && list[i] in f.parent
    requires forall k :: j < k <= i ==> list[k] in f.parent && f.depth[list[k]] >= d
    ensures d <= f.depth[list[j]] + 1 || j == i
    ensures d <= f.depth[list[i]] ==> d <= f.depth[list[j]] + 1 && Chain(f, list[i])[..d] == Chain(f, list[j])[..d]
    decreases i
  {
    hide WellFormed;
    hide DepthFirst;
    hide Chain;
    ForestKeys(f);
    if j < i {
      StepChain(f, roots, list, i - 1);
      RunShares(f, roots, list, j, i - 1, d);
      if d <= f.depth[list[i]] {
        var n := f.depth[list[i]];
        var a, b := Chain(f, list[i]), Chain(f, list[i - 1]);
        assert a[..n][..d] == a[..d] && b[..n][..d] == b[..d];
      }
    }
  }

  /** The nearest entry before row `i` that is one level up is its parent. */
  lemma NearestAbove(f: Forest, roots: seq<Entity>, list: seq<Entity>, j: nat, i: nat)
    requires WellFormed(f) && DepthFirst(f, roots, list) && j < i < |list|
    requires list[j] in f.parent && list[i] in f.parent && f.depth[list[j]] + 1 == f.depth[list[i]]
    requires forall k :: j < k < i ==> list[k] in f.parent && f.depth[list[k]] + 1 != f.depth[list[i]]
    ensures f.parent[list[i]] == list[j]
  {
    hide WellFormed;
    hide DepthFirst;
    hide Chain;
    ForestKeys(f);
    var d := f.depth[list[i]];
    NoShallower(f, roots, list, j, i);
    RunShares(f, roots, list, j, i, d);
    ChainOfChild(f, list[i]);
    assert Chain(f, list[i])[..d][d - 1] == Chain(f, list[j])[..d][d - 1];
  }

  /** Depths grow by at most one per entry, so skipping no entry one level up means meeting none further up. */
  lemma {:induction false} NoShallower(f: Forest, roots: seq<Entity>, list: seq<Entity>, j: nat, i: nat)
    requires WellFormed(f) && DepthFirst(f, roots, list) && j < i < |list|
    requires list[i] in f.parent
    requires forall k :: j < k < i ==> list[k] in f.parent && f.depth[list[k]] + 1 != f.depth[list[i]]
    ensures forall k :: j < k <= i ==> list[k] in f.parent && f.depth[list[k]] >= f.depth[list[i]]
    decreases i - j
  {
    hide WellFormed;
    hide DepthFirst;
    hide Chain;
    ForestKeys(f);
    if j + 1 < i {
      NoShallower(f, roots, list, j + 1, i);
      StepChain(f, roots, list, j + 1);
    }
  }

  /** A child is always preceded by its parent. */
  lemma {:induction false} ParentBefore(f: Forest, roots: seq<Entity>, list: seq<Entity>, i: nat) returns (j: nat)
    requires WellFormed(f) && DepthFirst(f, roots, list) && i < |list|
    requires list[i] in f.parent && f.parent[list[i]] != NONE
    ensures j < i && list[j] == f.parent[list[i]]
  {
    var p := f.parent[list[i]];
    ChainOfChild(f, list[i]);
    ChainOfChild(f, p);
    assert p == Chain(f, list[i])[f.depth[p]];
    j := EntryAbove(f, roots, list, i, p);
  }

  /** Every ancestor of row `i` is listed before it, with only deeper entries in between. */
  lemma {:induction false} EntryAbove(f: Forest, roots: seq<Entity>, list: seq<Entity>, i: nat, a: Entity) returns (r: nat)
    requires WellFormed(f) && DepthFirst(f, roots, list) && i < |list| && list[i] in f.parent && a in f.parent
    requires f.depth[a] <= f.depth[list[i]] && Chain(f, list[i])[f.depth[a]] == a
    ensures r <= i && list[r] == a
    ensures forall k :: r < k <= i ==> list[k] in f.parent && f.depth[list[k]] > f.depth[a]
    decreases i
  {
    hide WellFormed;
    hide DepthFirst;
    hide Chain;
    ForestKeys(f);
    if f.depth[list[i]] == f.depth[a] {
      r := i;
    } else {
      FirstIsRoot(f, roots, list);
      StepChain(f, roots, list, i - 1);
      var n := f.depth[list[i]];
      assert Chain(f, list[i])[..n][f.depth[a]] == Chain(f, list[i - 1])[..n][f.depth[a]];
      r := EntryAbove(f, roots, list, i - 1, a);
    }
  }

  lemma FirstIsRoot(f: Forest, roots: seq<Entity>, list: seq<Entity>)
    requires WellFormed(f) && DepthFirst(f, roots, list) && list != []
    ensures list[0] in f.parent && f.depth[list[0]] == 0
  {
    assert list[0] in list;
  }

  /** The subtree of an entry is the run of deeper entries after it, and nothing else. */
  lemma SubtreeIsRun(f: Forest, roots: seq<Entity>, list: seq<Entity>, r: nat, i: nat)
    requires WellFormed(f) && DepthFirst(f, roots, list) && r < |list| && i < |list|
    requires list[r] in f.parent && list[i] in f.parent
    ensures Under(f, list[i], list[r]) <==>
            i == r || (r < i && forall k :: r < k <= i ==> list[k] in f.parent && f.depth[list[k]] > f.depth[list[r]])
  {
    hide WellFormed;
    hide DepthFirst;
    hide Chain;
    hide Under;
    ForestKeys(f);
    ChainAt(f, list[i], list[r]);
    if Under(f, list[i], list[r]) {
      var r' := EntryAbove(f, roots, list, i, list[r]);
      OnceListed(f, roots, list, r, r');
    }
    if r < i && forall k :: r < k <= i ==> list[k] in f.parent && f.depth[list[k]] > f.depth[list[r]] {
      var d := f.depth[list[r]];
      RunShares(f, roots, list, r, i, d + 1);
      assert Chain(f, list[i])[..d + 1][d] == Chain(f, list[r])[..d + 1][d];
    }
  }

  lemma OnceListed(f: Forest, roots: seq<Entity>, list: seq<Entity>, i: nat, j: nat)
    requires WellFormed(f) && DepthFirst(f, roots, list) && i < |list| && j < |list| && list[i] == list[j]
    ensures i == j
  {
  }

  // ----- Counting siblings -----

  /** Going back from row `x`: the siblings of its depth-`d` ancestor still to be met, itself
      included unless it is `x`. */
  ghost function SiblingsBack(f: Forest, roots: seq<Entity>, x: Entity, d: nat): nat
    requires WellFormed(f) && x in f.parent && d <= f.depth[x]
  {
    ChainEntries(f, x, d);
    SiblingIndex(f, roots, Chain(f, x)[d]) + if f.depth[x] > d then 1 else 0
  }

  lemma SiblingBack(f: Forest, roots: seq<Entity>, x: Entity, y: Entity, d: nat)
    requires WellFormed(f) && x in f.parent && y in f.parent && d <= f.depth[x] && d <= f.depth[y]
    requires Follows(f, roots, x, y)
    ensures SiblingsBack(f, roots, y, d) == SiblingsBack(f, roots, x, d) + if f.depth[x] == d then 1 else 0
  {
    hide WellFormed;
    hide Chain;
    hide SiblingIndex;
    FollowsChain(f, roots, x, y);
    ForestKeys(f);
    var n := f.depth[y];
    if n > d {
      assert Chain(f, y)[..n][d] == Chain(f, x)[..n][d];
    }
  }

  lemma SiblingFirst(f: Forest, roots: seq<Entity>, list: seq<Entity>, j: nat, d: nat)
    requires WellFormed(f) && DepthFirst(f, roots, list) && j < |list|
    requires list[j] in f.parent && d <= f.depth[list[j]]
    requires j > 0 ==> list[j - 1] in f.parent && f.depth[list[j - 1]] < d
    ensures SiblingsBack(f, roots, list[j], d) == 0
  {
    FirstIsRoot(f, roots, list);
    if j > 0 {
      StepChain(f, roots, list, j - 1);
      assert FollowsAt(f, roots, list, j - 1);
    }
  }

  // ----- Collecting children -----

  /** Scanning on from a parent: the children met so far, and the one whose subtree row `j` is in. */
  ghost predicate Collected(f: Forest, list: seq<Entity>, r: nat, j: nat, n: nat)
    requires WellFormed(f) && r <= j < |list| && list[r] in f.parent
  {
    var p, d := list[r], f.depth[list[r]] + 1;
    && n <= |f.kids[p]|
    && (if j == r then n == 0 else
          list[j] in f.parent && f.depth[list[j]] >= d && n > 0 && Chain(f, list[j])[d] == f.kids[p][n - 1])
    && MetSoFar(f, list, r, j, n)
  }

  /** After `r` come only deeper entries, and those one level deeper are the first `n` children. */
  ghost predicate MetSoFar(f: Forest, list: seq<Entity>, r: nat, j: nat, n: nat)
    requires WellFormed(f) && r <= j < |list| && list[r] in f.parent && n <= |f.kids[list[r]]|
  {
    forall k {:trigger list[k]} :: r < k <= j ==>
      list[k] in f.parent && f.depth[list[k]] > f.depth[list[r]]
      && (f.depth[list[k]] == f.depth[list[r]] + 1 ==> list[k] in f.kids[list[r]][..n])
  }

  lemma MetNext(f: Forest, list: seq<Entity>, r: nat, j: nat, n: nat, m: nat)
    requires WellFormed(f) && r <= j < |list| - 1 && list[r] in f.parent && n <= m <= |f.kids[list[r]]|
    requires MetSoFar(f, list, r, j, n) && list[j + 1] in f.parent && f.depth[list[j + 1]] > f.depth[list[r]]
    requires f.depth[list[j + 1]] == f.depth[list[r]] + 1 ==> list[j + 1] in f.kids[list[r]][..m]
    ensures MetSoFar(f, list, r, j + 1, m)
  {
    hide WellFormed;
    KidsOf(f, list[r]);
    var s := f.kids[list[r]];
    assert s[..n] == s[..m][..n];
  }

  lemma CollectStep(f: Forest, roots: seq<Entity>, list: seq<Entity>, r: nat, j: nat, n: nat)
    requires WellFormed(f) && DepthFirst(f, roots, list) && r <= j < |list| - 1 && list[r] in f.parent
    requires Collected(f, list, r, j, n)
    requires list[j + 1] in f.parent && f.depth[list[j + 1]] >= f.depth[list[r]] + 1
    ensures f.depth[list[j + 1]] == f.depth[list[r]] + 1 ==>
              n < |f.kids[list[r]]| && f.kids[list[r]][n] == list[j + 1] && Collected(f, list, r, j + 1, n + 1)
    ensures f.depth[list[j + 1]] > f.depth[list[r]] + 1 ==> Collected(f, list, r, j + 1, n)
  {
    hide DepthFirst;
    hide WellFormed;
    hide MetSoFar;
    ForestKeys(f);
    var p, d := list[r], f.depth[list[r]] + 1;
    var m := f.depth[list[j + 1]];
    if m > d {
      StepChain(f, roots, list, j);
      assert Chain(f, list[j + 1])[..m][d] == Chain(f, list[j])[..m][d];
      MetNext(f, list, r, j, n, n);
    } else {
      ChildNext(f, roots, list, r, j, n);
      ChainOfChild(f, list[j + 1]);
      KidAt(f, p, n);
      MetNext(f, list, r, j, n, n + 1);
    }
  }

  lemma ChildNext(f: Forest, roots: seq<Entity>, list: seq<Entity>, r: nat, j: nat, n: nat)
    requires WellFormed(f) && DepthFirst(f, roots, list) && r <= j < |list| - 1 && list[r] in f.parent
    requires Collected(f, list, r, j, n)
    requires list[j + 1] in f.parent && f.depth[list[j + 1]] == f.depth[list[r]] + 1
    ensures n < |f.kids[list[r]]| && f.kids[list[r]][n] == list[j + 1]
  {
    hide WellFormed;
    hide Follows;
    hide NextSibling;
    assert FollowsAt(f, roots, list, j);
    if j == r {
      FollowsBelow(f, roots, list[j], list[j + 1]);
    } else {
      FollowsBeside(f, roots, list[j], list[j + 1], list[r], n);
    }
  }

  /** What follows deeper is the first child. */
  lemma FollowsBelow(f: Forest, roots: seq<Entity>, x: Entity, y: Entity)
    requires WellFormed(f) && x in f.parent && y in f.parent && Follows(f, roots, x, y) && f.depth[y] > f.depth[x]
    ensures x in f.kids && f.kids[x] != [] && f.kids[x][0] == y
  {
    hide NextSibling;
    KidsOf(f, x);
  }

  /** What follows at the depth of a child of `p` above it is the next child. */
  lemma FollowsBeside(f: Forest, roots: seq<Entity>, x: Entity, y: Entity, p: Entity, n: nat)
    requires WellFormed(f) && x in f.parent && y in f.parent && p in f.parent && Follows(f, roots, x, y)
    requires f.depth[y] == f.depth[p] + 1 <= f.depth[x] && 0 < n <= |f.kids[p]|
    requires Chain(f, x)[f.depth[p] + 1] == f.kids[p][n - 1]
    ensures n < |f.kids[p]| && f.kids[p][n] == y
  {
    hide WellFormed;
    hide Chain;
    hide IndexOf;
    ForestKeys(f);
    KidAt(f, p, n - 1);
    KidsOf(f, p);
    assert NextSibling(f, roots, f.kids[p][n - 1], y);
  }

  lemma CollectEnd(f: Forest, roots: seq<Entity>, list: seq<Entity>, r: nat, j: nat, n: nat)
    requires WellFormed(f) && DepthFirst(f, roots, list) && r <= j < |list| && list[r] in f.parent
    requires Collected(f, list, r, j, n)
    requires j + 1 < |list| ==> list[j + 1] in f.parent && f.depth[list[j + 1]] < f.depth[list[r]] + 1
    ensures n == |f.kids[list[r]]|
  {
    hide DepthFirst;
    var p := list[r];
    if n < |f.kids[p]| {
      KidAt(f, p, n);
      var m := RowOf(f, roots, list, f.kids[p][n]);
      ChainOfChild(f, f.kids[p][n]);
      assert Under(f, f.kids[p][n], p);
      SubtreeIsRun(f, roots, list, r, m);
      KidsOf(f, p);
    }
  }

  lemma RowOf(f: Forest, roots: seq<Entity>, list: seq<Entity>, x: Entity) returns (m: nat)
    requires WellFormed(f) && DepthFirst(f, roots, list) && x in f.parent
    ensures m < |list| && list[m] == x
  {
    assert x in list;
    m :| m < |list| && list[m] == x;
  }
}
