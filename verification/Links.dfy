/** The link fields of a scene, and what it means for them to spell out a forest. */
module Links {
  import opened Entities
  import opened Sequences
  import opened Forests

  datatype Hierarchy = Hierarchy(
    parent: Entity,
    firstChild: Entity,
    lastChild: Entity,
    nextSibling: Entity,
    previousSibling: Entity,
    childrenCount: nat)

  const UNLINKED := Hierarchy(NONE, NONE, NONE, NONE, NONE, 0)

  function At(s: seq<Entity>, i: int): Entity {
    if 0 <= i < |s| then s[i] else NONE
  }

  /** The fields that speak of an entity's parent and of its own list of children. */
  ghost predicate HeadOk(n: Hierarchy, parent: Entity, s: seq<Entity>) {
    && n.parent == parent
    && n.firstChild == At(s, 0)
    && n.lastChild == At(s, |s| - 1)
    && n.childrenCount == |s|
    && (parent == NONE ==> n.previousSibling == NONE && n.nextSibling == NONE)
  }

  /** The fields that speak of a child's place in its parent's list. */
  ghost predicate SiblingOk(n: Hierarchy, s: seq<Entity>, i: nat) {
    n.previousSibling == At(s, i - 1) && n.nextSibling == At(s, i + 1)
  }

  ghost predicate HeadsOk(h: map<Entity, Hierarchy>, f: Forest)
    requires h.Keys == f.parent.Keys == f.kids.Keys
  {
    forall x {:trigger HeadOk(h[x], f.parent[x], f.kids[x])} :: x in h ==> HeadOk(h[x], f.parent[x], f.kids[x])
  }

  ghost predicate SiblingsOk(h: map<Entity, Hierarchy>, f: Forest)
    requires h.Keys == f.parent.Keys && WellFormed(f)
  {
    forall p, i: nat {:trigger SiblingOk(h[f.kids[p][i]], f.kids[p], i)} ::
      p in h && i < |f.kids[p]| ==> SiblingOk(h[f.kids[p][i]], f.kids[p], i)
  }

  ghost predicate Linked(h: map<Entity, Hierarchy>, f: Forest) {
    && WellFormed(f)
    && h.Keys == f.parent.Keys
    && HeadsOk(h, f)
    && SiblingsOk(h, f)
  }

  lemma LinkedKeys(h: map<Entity, Hierarchy>, f: Forest)
    requires Linked(h, f)
    ensures WellFormed(f) && h.Keys == f.parent.Keys
  {
  }

  /** Linked, but for the parent and sibling fields of the root `c`. */
  ghost predicate LinkedBut(h: map<Entity, Hierarchy>, f: Forest, c: Entity) {
    && WellFormed(f)
    && h.Keys == f.parent.Keys
    && c in f.parent && f.parent[c] == NONE
    && Linked(CutOff(h, c), f)
  }

  lemma RootIsLinkedBut(h: map<Entity, Hierarchy>, f: Forest, c: Entity)
    requires Linked(h, f) && c in h && f.parent[c] == NONE
    ensures LinkedBut(h, f, c)
  {
    assert HeadOk(h[c], f.parent[c], f.kids[c]);
    assert CutOff(h, c) == h;
  }

  // ----- Reading the links -----

  /** A list of children: nobody twice, and no null handle. */
  ghost predicate Children(s: seq<Entity>) {
    Distinct(s) && forall i :: 0 <= i < |s| ==> s[i].Valid()
  }

  lemma KidsAre(f: Forest, p: Entity)
    requires WellFormed(f) && p in f.parent
    ensures p in f.kids && Children(f.kids[p]) && p !in f.kids[p]
    ensures forall x :: x in f.kids[p] <==> x in f.parent && f.parent[x] == p
  {
    KidsOf(f, p);
    forall i | 0 <= i < |f.kids[p]| ensures f.kids[p][i].Valid() && f.kids[p][i] != p {
      KidAt(f, p, i);
    }
  }

  /** What the links say of the entity `x` itself. */
  lemma NodeAt(h: map<Entity, Hierarchy>, f: Forest, x: Entity)
    requires Linked(h, f) && x in h
    ensures x in f.parent && x in f.kids && x.Valid()
    ensures HeadOk(h[x], f.parent[x], f.kids[x])
    ensures f.parent[x] != NONE ==> f.parent[x] in h && f.parent[x] in f.kids && x in f.kids[f.parent[x]]
  {
    assert HeadOk(h[x], f.parent[x], f.kids[x]);
  }

  /** What the links say of the child of `p` at `i`. */
  lemma SiblingAt(h: map<Entity, Hierarchy>, f: Forest, p: Entity, i: nat)
    requires Linked(h, f) && p in h && i < |f.kids[p]|
    ensures p in f.kids && f.kids[p][i] in h && f.kids[p][i].Valid() && f.parent[f.kids[p][i]] == p
    ensures SiblingOk(h[f.kids[p][i]], f.kids[p], i)
    ensures IndexOf(f.kids[p], f.kids[p][i]) == i
  {
    KidAt(f, p, i);
    assert SiblingOk(h[f.kids[p][i]], f.kids[p], i);
  }

  /** The place of the child `c` in its parent's list, as its fields record it. */
  lemma Place(h: map<Entity, Hierarchy>, f: Forest, c: Entity) returns (p: Entity, k: nat)
    requires Linked(h, f) && c in h && f.parent[c] != NONE
    ensures p == f.parent[c] == h[c].parent && p in h && p in f.kids
    ensures k < |f.kids[p]| && f.kids[p][k] == c && k == IndexOf(f.kids[p], c)
    ensures h[c].previousSibling == At(f.kids[p], k - 1)
    ensures h[c].nextSibling == At(f.kids[p], k + 1)
  {
    p := f.parent[c];
    assert HeadOk(h[c], f.parent[c], f.kids[c]);
    k := IndexOf(f.kids[p], c);
    KidAt(f, p, k);
    assert SiblingOk(h[f.kids[p][k]], f.kids[p], k);
  }

  /** What the fields of `x` tell a walk: its parent, its first child and its next sibling, if any. */
  lemma ParentAt(f: Forest, x: Entity)
    requires WellFormed(f) && x in f.parent
    ensures x in f.kids && x.Valid()
    ensures f.parent[x] != NONE ==> f.parent[x].Valid() && f.parent[x] in f.parent && f.parent[x] in f.kids && x in f.kids[f.parent[x]]
    ensures f.parent[x] != NONE ==> f.parent[x] in f.depth && x in f.depth && f.depth[f.parent[x]] < f.depth[x]
  {
  }

  lemma ReadLinks(h: map<Entity, Hierarchy>, f: Forest, x: Entity)
    requires Linked(h, f) && x in h
    ensures x in f.kids && x.Valid()
    ensures h[x].parent == f.parent[x] && (h[x].parent.Valid() <==> f.parent[x] != NONE)
    ensures h[x].parent != NONE ==> h[x].parent in h && h[x].parent in f.kids && x in f.kids[h[x].parent]
    ensures h[x].parent != NONE ==> f.depth[f.parent[x]] < f.depth[x]
    ensures h[x].firstChild == At(f.kids[x], 0) && (h[x].firstChild.Valid() <==> f.kids[x] != [])
    ensures h[x].parent != NONE ==>
              var s := f.kids[f.parent[x]]; var i := IndexOf(s, x);
              h[x].nextSibling == At(s, i + 1) && (h[x].nextSibling.Valid() <==> i + 1 < |s|)
  {
    hide WellFormed;
    hide SiblingsOk;
    hide IndexOf;
    ParentAt(f, x);
    assert HeadOk(h[x], f.parent[x], f.kids[x]);
    if f.kids[x] != [] {
      KidAt(f, x, 0);
    }
    if f.parent[x] != NONE {
      var p, i := Place(h, f, x);
      if i + 1 < |f.kids[p]| {
        KidAt(f, p, i + 1);
      }
    }
  }

  /** Where a child sits among its siblings is recorded on both sides. */
  predicate LinkedToParent(h: map<Entity, Hierarchy>, c: Entity)
    requires c in h
  {
    var n := h[c];
    && n.parent in h && h[n.parent].childrenCount > 0
    && (n.previousSibling.Valid() ==> n.previousSibling in h && h[n.previousSibling].nextSibling == c)
    && (!n.previousSibling.Valid() ==> h[n.parent].firstChild == c)
    && (n.nextSibling.Valid() ==> n.nextSibling in h && h[n.nextSibling].previousSibling == c)
    && (!n.nextSibling.Valid() ==> h[n.parent].lastChild == c)
  }

  /** The link check never fires: links that spell out a forest pass it. */
  lemma LinkCheckPasses(h: map<Entity, Hierarchy>, f: Forest, c: Entity)
    requires Linked(h, f) && c in h
    ensures h[c].parent == f.parent[c]
    ensures h[c].parent != NONE ==> h[c].parent.Valid() && LinkedToParent(h, c)
    ensures h[c].parent == NONE ==> h[c].previousSibling == NONE && h[c].nextSibling == NONE
  {
    assert HeadOk(h[c], f.parent[c], f.kids[c]);
    if f.parent[c] != NONE {
      var p, i := Place(h, f, c);
      assert HeadOk(h[p], f.parent[p], f.kids[p]);
      if i > 0 {
        KidAt(f, p, i - 1);
        assert SiblingOk(h[f.kids[p][i - 1]], f.kids[p], i - 1);
      }
      if i + 1 < |f.kids[p]| {
        KidAt(f, p, i + 1);
        assert SiblingOk(h[f.kids[p][i + 1]], f.kids[p], i + 1);
      }
    }
  }

  // ----- Splicing one list -----

  /** The node `n` of `x` once the child with the fields `own` is taken out of its parent's list. */
  function Unlinked(n: Hierarchy, x: Entity, own: Hierarchy): Hierarchy {
    var prev, next := own.previousSibling, own.nextSibling;
    var n1 := if x == prev then n.(nextSibling := next) else n;
    var n2 := if x == next then n1.(previousSibling := prev) else n1;
    if x == own.parent then
      n2.(firstChild := if prev.Valid() then n2.firstChild else next,
          lastChild := if next.Valid() then n2.lastChild else prev,
          childrenCount := if n2.childrenCount == 0 then 0 else n2.childrenCount - 1)
    else n2
  }

  /** The node `n` of `x` once the root `c` is put between `before` and `after` in the list of `p`. */
  function Relinked(n: Hierarchy, x: Entity, c: Entity, p: Entity, before: Entity, after: Entity): Hierarchy {
    if x == c then n.(parent := p, previousSibling := before, nextSibling := after) else
    var n1 := if x == before then n.(nextSibling := c) else n;
    var n2 := if x == after then n1.(previousSibling := c) else n1;
    if x == p then
      n2.(firstChild := if before.Valid() then n2.firstChild else c,
          lastChild := if after.Valid() then n2.lastChild else c,
          childrenCount := n2.childrenCount + 1)
    else n2
  }

  // The writes to single fields.

  function SetFirst(h: map<Entity, Hierarchy>, x: Entity, value: Entity): (h': map<Entity, Hierarchy>)
    requires x in h
    ensures h'.Keys == h.Keys
  {
    h[x := h[x].(firstChild := value)]
  }

  function SetLast(h: map<Entity, Hierarchy>, x: Entity, value: Entity): (h': map<Entity, Hierarchy>)
    requires x in h
    ensures h'.Keys == h.Keys
  {
    h[x := h[x].(lastChild := value)]
  }

  function SetNext(h: map<Entity, Hierarchy>, x: Entity, value: Entity): (h': map<Entity, Hierarchy>)
    requires x in h
    ensures h'.Keys == h.Keys
  {
    h[x := h[x].(nextSibling := value)]
  }

  function SetPrevious(h: map<Entity, Hierarchy>, x: Entity, value: Entity): (h': map<Entity, Hierarchy>)
    requires x in h
    ensures h'.Keys == h.Keys
  {
    h[x := h[x].(previousSibling := value)]
  }

  function AddToCount(h: map<Entity, Hierarchy>, x: Entity, change: int): (h': map<Entity, Hierarchy>)
    requires x in h
    requires change < 0 ==> h[x].childrenCount > 0
    requires -1 <= change <= 1
    ensures h'.Keys == h.Keys
  {
    h[x := h[x].(childrenCount := h[x].childrenCount + change)]
  }

  function SetPlace(h: map<Entity, Hierarchy>, x: Entity, parent: Entity, previous: Entity, next: Entity): (h': map<Entity, Hierarchy>)
    requires x in h
    ensures h'.Keys == h.Keys
  {
    h[x := h[x].(parent := parent, previousSibling := previous, nextSibling := next)]
  }

  /** The writes that take `c` out of its parent's list, in the order they are made. */
  function UnlinkWrites(h: map<Entity, Hierarchy>, c: Entity): (h3: map<Entity, Hierarchy>)
    requires c in h && LinkedToParent(h, c)
    ensures h3.Keys == h.Keys
  {
    var p, previous, next := h[c].parent, h[c].previousSibling, h[c].nextSibling;
    var h1 := if previous.Valid() then SetNext(h, previous, next) else SetFirst(h, p, next);
    var h2 := if next.Valid() then SetPrevious(h1, next, previous) else SetLast(h1, p, previous);
    AddToCount(h2, p, -1)
  }

  lemma UnlinkWritesAre(h: map<Entity, Hierarchy>, c: Entity, x: Entity)
    requires c in h && LinkedToParent(h, c) && x in h && x.Valid()
    ensures UnlinkWrites(h, c)[x] == Unlinked(h[x], x, h[c])
  {
  }

  /** The writes that put `c` between `before` and `after` in the list of `p`, in the order they are made. */
  function RelinkWrites(h: map<Entity, Hierarchy>, c: Entity, p: Entity, before: Entity, after: Entity): (h4: map<Entity, Hierarchy>)
    requires c in h && p in h && (before.Valid() ==> before in h) && (after.Valid() ==> after in h)
    ensures h4.Keys == h.Keys
  {
    var h1 := SetPlace(h, c, p, before, after);
    var h2 := if before.Valid() then SetNext(h1, before, c) else SetFirst(h1, p, c);
    var h3 := if after.Valid() then SetPrevious(h2, after, c) else SetLast(h2, p, c);
    AddToCount(h3, p, 1)
  }

  lemma RelinkWritesAre(h: map<Entity, Hierarchy>, c: Entity, p: Entity, before: Entity, after: Entity, x: Entity)
    requires c in h && p in h && (before.Valid() ==> before in h) && (after.Valid() ==> after in h)
    requires x in h && x.Valid() && c != p && c != before && c != after
    ensures RelinkWrites(h, c, p, before, after)[x] == Relinked(h[x], x, c, p, before, after)
  {
  }

  lemma UnlinkedOwnList(n: Hierarchy, x: Entity, own: Hierarchy)
    requires x != own.parent
    ensures var n' := Unlinked(n, x, own);
            n' == n.(previousSibling := n'.previousSibling, nextSibling := n'.nextSibling)
  {
  }

  lemma UnlinkedHead(n: Hierarchy, x: Entity, own: Hierarchy, s: seq<Entity>, k: nat)
    requires Children(s) && k < |s| && x !in s
    requires own.previousSibling == At(s, k - 1) && own.nextSibling == At(s, k + 1)
    requires x == own.parent ==>
               n.firstChild == At(s, 0) && n.lastChild == At(s, |s| - 1) && n.childrenCount == |s|
    requires x.Valid()
    ensures var n' := Unlinked(n, x, own); var t := s[..k] + s[k + 1..];
            && n'.parent == n.parent && n'.previousSibling == n.previousSibling && n'.nextSibling == n.nextSibling
            && if x == own.parent then n'.firstChild == At(t, 0) && n'.lastChild == At(t, |t| - 1) && n'.childrenCount == |t|
               else n' == n
  {
  }

  lemma UnlinkedSibling(n: Hierarchy, own: Hierarchy, s: seq<Entity>, k: nat, i: nat)
    requires Children(s) && k < |s| && i < |s| - 1
    requires own.previousSibling == At(s, k - 1) && own.nextSibling == At(s, k + 1) && own.parent !in s
    requires var j := if i < k then i else i + 1; n.previousSibling == At(s, j - 1) && n.nextSibling == At(s, j + 1)
    ensures var t := s[..k] + s[k + 1..]; var n' := Unlinked(n, t[i], own);
            && n' == n.(previousSibling := At(t, i - 1), nextSibling := At(t, i + 1))
  {
  }

  lemma RelinkedHead(n: Hierarchy, x: Entity, c: Entity, p: Entity, s: seq<Entity>, k: nat)
    requires Children(s) && k <= |s| && x !in s && x != c && x.Valid()
    requires x == p ==> n.firstChild == At(s, 0) && n.lastChild == At(s, |s| - 1) && n.childrenCount == |s|
    ensures var n' := Relinked(n, x, c, p, At(s, k - 1), At(s, k)); var t := s[..k] + [c] + s[k..];
            && n'.parent == n.parent && n'.previousSibling == n.previousSibling && n'.nextSibling == n.nextSibling
            && if x == p then n'.firstChild == At(t, 0) && n'.lastChild == At(t, |t| - 1) && n'.childrenCount == |t|
               else n' == n
  {
  }

  lemma RelinkedSibling(n: Hierarchy, c: Entity, p: Entity, s: seq<Entity>, k: nat, i: nat)
    requires Children(s) && k <= |s| && i <= |s| && c !in s && p !in s && c != p
    requires i != k ==> var j := if i < k then i else i - 1; n.previousSibling == At(s, j - 1) && n.nextSibling == At(s, j + 1)
    ensures var t := s[..k] + [c] + s[k..]; var n' := Relinked(n, t[i], c, p, At(s, k - 1), At(s, k));
            && n' == n.(parent := if i == k then p else n.parent, previousSibling := At(t, i - 1), nextSibling := At(t, i + 1))
  {
  }

  // ----- Splicing the forest -----

  /** The links with `c` cut off from its parent and siblings. */
  ghost function CutOff(h: map<Entity, Hierarchy>, c: Entity): map<Entity, Hierarchy>
    requires c in h
  {
    h[c := h[c].(parent := NONE, previousSibling := NONE, nextSibling := NONE)]
  }

  lemma UnlinkLinked(h: map<Entity, Hierarchy>, f: Forest, c: Entity)
    requires Linked(h, f) && c in h && f.parent[c] != NONE && LinkedToParent(h, c)
    ensures LinkedBut(UnlinkWrites(h, c), Detach(f, c), c)
  {
    hide UnlinkWrites;
    hide Unlinked;
    hide WellFormed;
    hide HeadsOk;
    hide SiblingsOk;
    ForestKeys(f);
    var h' := UnlinkWrites(h, c);
    forall x | x in h ensures h'[x] == Unlinked(h[x], x, h[c]) {
      UnlinkWritesAre(h, c, x);
    }
    DetachWellFormed(f, c);
    DetachRoot(f, c);
    UnlinkHeads(h, h', f, c);
    UnlinkSiblings(h, h', f, c);
  }

  lemma CutOffLinked(h: map<Entity, Hierarchy>, f: Forest, c: Entity)
    requires LinkedBut(h, f, c)
    ensures c in h && Linked(SetPlace(h, c, NONE, NONE, NONE), f)
  {
  }

  lemma UnlinkHeads(h: map<Entity, Hierarchy>, h': map<Entity, Hierarchy>, f: Forest, c: Entity)
    requires Linked(h, f) && c in h && f.parent[c] != NONE && WellFormed(Detach(f, c))
    requires h'.Keys == h.Keys && forall x :: x in h ==> h'[x] == Unlinked(h[x], x, h[c])
    ensures HeadsOk(CutOff(h', c), Detach(f, c))
  {
    hide Unlinked;
    hide HeadOk;
    var g := Detach(f, c);
    var h1 := CutOff(h', c);
    forall x | x in h1 ensures HeadOk(h1[x], g.parent[x], g.kids[x]) {
      if x == c {
        UnlinkHeadOfSelf(h, f, c);
      } else {
        UnlinkHead(h, f, c, x);
      }
    }
  }

  lemma UnlinkSiblings(h: map<Entity, Hierarchy>, h': map<Entity, Hierarchy>, f: Forest, c: Entity)
    requires Linked(h, f) && c in h && f.parent[c] != NONE && WellFormed(Detach(f, c))
    requires h'.Keys == h.Keys && forall x :: x in h ==> h'[x] == Unlinked(h[x], x, h[c])
    ensures SiblingsOk(CutOff(h', c), Detach(f, c))
  {
    hide Unlinked;
    hide SiblingOk;
    var g := Detach(f, c);
    var h1 := CutOff(h', c);
    forall p, i: nat | p in h1 && i < |g.kids[p]| ensures SiblingOk(h1[g.kids[p][i]], g.kids[p], i) {
      UnlinkSibling(h, f, c, p, i);
    }
  }

  /** Detaching rewrites two entries, as far as links go. */
  lemma DetachShape(f: Forest, c: Entity, k: nat)
    requires WellFormed(f) && c in f.parent && f.parent[c] != NONE
    requires k < |f.kids[f.parent[c]]| && k == IndexOf(f.kids[f.parent[c]], c)
    ensures var s := f.kids[f.parent[c]]; var g := Detach(f, c);
            && g.parent == f.parent[c := NONE]
            && g.kids == f.kids[f.parent[c] := s[..k] + s[k + 1..]]
  {
  }

  lemma UnlinkHead(h: map<Entity, Hierarchy>, f: Forest, c: Entity, x: Entity)
    requires Linked(h, f) && c in h && f.parent[c] != NONE && x in h && x != c
    ensures HeadOk(Unlinked(h[x], x, h[c]), Detach(f, c).parent[x], Detach(f, c).kids[x])
  {
    hide Detach;
    hide WellFormed;
    hide HeadsOk;
    hide SiblingsOk;
    hide Unlinked;
    hide Children;
    NodeAt(h, f, x);
    var p, k := Place(h, f, c);
    DetachShape(f, c, k);
    KidsAre(f, p);
    if x in f.kids[p] {
      UnlinkedOwnList(h[x], x, h[c]);
    } else {
      UnlinkedHead(h[x], x, h[c], f.kids[p], k);
    }
  }

  lemma UnlinkHeadOfSelf(h: map<Entity, Hierarchy>, f: Forest, c: Entity)
    requires Linked(h, f) && c in h && f.parent[c] != NONE
    ensures var n := Unlinked(h[c], c, h[c]).(parent := NONE, previousSibling := NONE, nextSibling := NONE);
            HeadOk(n, Detach(f, c).parent[c], Detach(f, c).kids[c])
  {
    assert HeadOk(h[c], f.parent[c], f.kids[c]);
    var p, k := Place(h, f, c);
    DetachShape(f, c, k);
    KidsAre(f, p);
    UnlinkedOwnList(h[c], c, h[c]);
  }

  lemma UnlinkSibling(h: map<Entity, Hierarchy>, f: Forest, c: Entity, p: Entity, i: nat)
    requires Linked(h, f) && c in h && f.parent[c] != NONE && p in h && i < |Detach(f, c).kids[p]|
    ensures var s := Detach(f, c).kids[p];
            s[i] in h && s[i] != c && SiblingOk(Unlinked(h[s[i]], s[i], h[c]), s, i)
  {
    hide Detach;
    hide WellFormed;
    hide Unlinked;
    hide Children;
    hide HeadsOk;
    hide SiblingsOk;
    NodeAt(h, f, p);
    var q, k := Place(h, f, c);
    DetachShape(f, c, k);
    KidsAre(f, q);
    if p == q {
      UnlinkSiblingHere(h, f, c, k, i);
    } else {
      SiblingAt(h, f, p, i);
      var x := f.kids[p][i];
      NodeAt(h, f, x);
      UnlinkedHead(h[x], x, h[c], f.kids[q], k);
    }
  }

  lemma UnlinkSiblingHere(h: map<Entity, Hierarchy>, f: Forest, c: Entity, k: nat, i: nat)
    requires Linked(h, f) && c in h && f.parent[c] != NONE
    requires k < |f.kids[f.parent[c]]| && k == IndexOf(f.kids[f.parent[c]], c) && i < |f.kids[f.parent[c]]| - 1
    ensures var s := f.kids[f.parent[c]]; var t := s[..k] + s[k + 1..];
            t[i] in h && t[i] != c && SiblingOk(Unlinked(h[t[i]], t[i], h[c]), t, i)
  {
    hide Unlinked;
    hide WellFormed;
    hide SiblingsOk;
    hide HeadsOk;
    hide Children;
    var p, k' := Place(h, f, c);
    KidsAre(f, p);
    var s := f.kids[p];
    var j := if i < k then i else i + 1;
    SiblingAt(h, f, p, j);
    SiblingAt(h, f, p, k);
    var t := s[..k] + s[k + 1..];
    assert t[i] == s[j];
    UnlinkedSibling(h[s[j]], h[c], s, k, i);
  }

  lemma RelinkLinked(h: map<Entity, Hierarchy>, f: Forest, c: Entity, p: Entity, position: nat)
    requires LinkedBut(h, f, c) && p in h && !Under(f, p, c) && position <= |f.kids[p]|
    ensures var before, after := At(f.kids[p], position - 1), At(f.kids[p], position);
            && (before.Valid() ==> before in h) && (after.Valid() ==> after in h)
            && Linked(RelinkWrites(h, c, p, before, after), Attach(f, c, p, position))
  {
    hide RelinkWrites;
    hide Relinked;
    hide WellFormed;
    hide HeadsOk;
    hide SiblingsOk;
    hide Under;
    RootFacts(h, f, c, p);
    var before, after := At(f.kids[p], position - 1), At(f.kids[p], position);
    Gap(f, p, position);
    KidsOf(f, p);
    var h' := RelinkWrites(h, c, p, before, after);
    forall x | x in h ensures h'[x] == Relinked(h[x], x, c, p, before, after) {
      RelinkWritesAre(h, c, p, before, after, x);
    }
    AttachWellFormed(f, c, p, position);
    RelinkHeads(h, h', f, c, p, position);
    RelinkSiblings(h, h', f, c, p, position);
  }

  lemma RelinkHeads(h: map<Entity, Hierarchy>, h': map<Entity, Hierarchy>, f: Forest, c: Entity, p: Entity, position: nat)
    requires LinkedBut(h, f, c) && p in h && !Under(f, p, c) && position <= |f.kids[p]|
    requires WellFormed(Attach(f, c, p, position)) && h'.Keys == h.Keys
    requires forall x :: x in h ==> h'[x] == Relinked(h[x], x, c, p, At(f.kids[p], position - 1), At(f.kids[p], position))
    ensures HeadsOk(h', Attach(f, c, p, position))
  {
    hide Relinked;
    hide HeadOk;
    var g := Attach(f, c, p, position);
    forall x | x in h' ensures HeadOk(h'[x], g.parent[x], g.kids[x]) {
      RelinkHead(h, f, c, p, position, x);
    }
  }

  lemma RelinkSiblings(h: map<Entity, Hierarchy>, h': map<Entity, Hierarchy>, f: Forest, c: Entity, p: Entity, position: nat)
    requires LinkedBut(h, f, c) && p in h && !Under(f, p, c) && position <= |f.kids[p]|
    requires WellFormed(Attach(f, c, p, position)) && h'.Keys == h.Keys
    requires forall x :: x in h ==> h'[x] == Relinked(h[x], x, c, p, At(f.kids[p], position - 1), At(f.kids[p], position))
    ensures SiblingsOk(h', Attach(f, c, p, position))
  {
    hide Relinked;
    hide SiblingOk;
    var g := Attach(f, c, p, position);
    forall q, i: nat | q in h' && i < |g.kids[q]| ensures SiblingOk(h'[g.kids[q][i]], g.kids[q], i) {
      RelinkSibling(h, f, c, p, position, q, i);
    }
  }

  /** A root apart from `p`'s tree above it is in no list, so not in `p`'s. */
  lemma RootFacts(h: map<Entity, Hierarchy>, f: Forest, c: Entity, p: Entity)
    requires LinkedBut(h, f, c) && p in h && !Under(f, p, c)
    ensures WellFormed(f) && c in f.parent && f.parent[c] == NONE
    ensures p in f.kids && c in f.kids && p != c && p.Valid() && Children(f.kids[p]) && p !in f.kids[p] && c !in f.kids[p]
    ensures h.Keys == f.parent.Keys == f.kids.Keys
    ensures forall x :: x in h ==> x.Valid()
    ensures forall x :: x in f.kids[p] ==> x in h
  {
    KidsAre(f, p);
  }

  lemma RelinkHead(h: map<Entity, Hierarchy>, f: Forest, c: Entity, p: Entity, position: nat, x: Entity)
    requires LinkedBut(h, f, c) && p in h && !Under(f, p, c) && position <= |f.kids[p]| && x in h
    ensures var n := Relinked(h[x], x, c, p, At(f.kids[p], position - 1), At(f.kids[p], position));
            var g := Attach(f, c, p, position);
            HeadOk(n, g.parent[x], g.kids[x])
  {
    hide WellFormed;
    hide HeadsOk;
    hide SiblingsOk;
    hide Under;
    hide Attach;
    hide Children;
    NodeAt(CutOff(h, c), f, x);
    RootFacts(h, f, c, p);
    KidsOf(f, p);
    AttachShape(f, c, p, position);
    if x != c && x !in f.kids[p] {
      hide Relinked;
      RelinkedHead(h[x], x, c, p, f.kids[p], position);
    }
  }

  lemma RelinkSibling(h: map<Entity, Hierarchy>, f: Forest, c: Entity, p: Entity, position: nat, q: Entity, i: nat)
    requires LinkedBut(h, f, c) && p in h && !Under(f, p, c) && position <= |f.kids[p]|
    requires q in h && i < |Attach(f, c, p, position).kids[q]|
    ensures var s := Attach(f, c, p, position).kids[q];
            s[i] in h &&
            SiblingOk(Relinked(h[s[i]], s[i], c, p, At(f.kids[p], position - 1), At(f.kids[p], position)), s, i)
  {
    hide Relinked;
    hide Children;
    hide WellFormed;
    hide HeadsOk;
    hide SiblingsOk;
    hide Under;
    hide Attach;
    RootFacts(h, f, c, p);
    AttachShape(f, c, p, position);
    if q == p {
      RelinkSiblingHere(h, f, c, p, position, i);
    } else {
      SiblingAt(CutOff(h, c), f, q, i);
      var x := f.kids[q][i];
      KidsOf(f, p);
      assert x != c && x !in f.kids[p] && f.kids[q] == Attach(f, c, p, position).kids[q];
      NodeAt(CutOff(h, c), f, x);
      RelinkedHead(h[x], x, c, p, f.kids[p], position);
    }
  }

  lemma RelinkSiblingHere(h: map<Entity, Hierarchy>, f: Forest, c: Entity, p: Entity, position: nat, i: nat)
    requires LinkedBut(h, f, c) && p in h && !Under(f, p, c) && position <= |f.kids[p]| && i <= |f.kids[p]|
    ensures var s := f.kids[p]; var t := s[..position] + [c] + s[position..];
            t[i] in h && SiblingOk(Relinked(h[t[i]], t[i], c, p, At(s, position - 1), At(s, position)), t, i)
  {
    hide Relinked;
    hide WellFormed;
    hide SiblingsOk;
    hide HeadsOk;
    hide Children;
    hide Under;
    RootFacts(h, f, c, p);
    var s := f.kids[p];
    if i != position {
      SiblingAt(CutOff(h, c), f, p, if i < position then i else i - 1);
    }
    var t := s[..position] + [c] + s[position..];
    assert t[i] == if i == position then c else s[if i < position then i else i - 1];
    RelinkedSibling(h[t[i]], c, p, s, position, i);
  }

  /** The handles on both sides of a position are null exactly at the ends of the list. */
  lemma Gap(f: Forest, p: Entity, position: nat)
    requires WellFormed(f) && p in f.parent && position <= |f.kids[p]|
    ensures p in f.kids
    ensures At(f.kids[p], position - 1).Valid() <==> position > 0
    ensures At(f.kids[p], position).Valid() <==> position < |f.kids[p]|
    ensures position > 0 ==> At(f.kids[p], position - 1) in f.parent
    ensures position < |f.kids[p]| ==> At(f.kids[p], position) in f.parent
  {
    if position > 0 {
      KidAt(f, p, position - 1);
    }
    if position < |f.kids[p]| {
      KidAt(f, p, position);
    }
  }

  /** The count field, less one for a child that stays, is the number of other children. */
  lemma DestinationCount(h: map<Entity, Hierarchy>, f: Forest, c: Entity, p: Entity)
    requires Linked(h, f) && c in h && p in h
    ensures p in f.kids
    ensures |Without(f.kids[p], c)| == h[p].childrenCount - (if h[c].parent == p then 1 else 0)
  {
    KidsAre(f, p);
    assert HeadOk(h[p], f.parent[p], f.kids[p]);
    assert HeadOk(h[c], f.parent[c], f.kids[c]);
    WithoutDistinct(f.kids[p], c);
  }

  /** How many of the first `i` of `s` are not `c`. */
  ghost function Before(s: seq<Entity>, c: Entity, i: nat): nat {
    if c in s && IndexOf(s, c) < i then i - 1 else i
  }

  /** Both ends of the list of `p` without `c`, as the fields of `p` and `c` give them. */
  lemma ListEnds(h: map<Entity, Hierarchy>, f: Forest, c: Entity, p: Entity)
    requires Linked(h, f) && c in h && p in h
    ensures p in f.kids
    ensures var s := f.kids[p]; var rest := Without(s, c);
            && |rest| == h[p].childrenCount - (if h[c].parent == p then 1 else 0)
            && Before(s, c, 0) == 0 && Before(s, c, |s|) == |rest|
            && h[p].firstChild == At(s, 0)
            && At(rest, |rest| - 1) == (if h[p].lastChild == c then h[c].previousSibling else h[p].lastChild)
            && (h[p].firstChild.Valid() <==> s != [])
  {
    hide WellFormed;
    hide HeadsOk;
    hide SiblingsOk;
    DestinationCount(h, f, c, p);
    KidsAre(f, p);
    NodeAt(h, f, p);
    NodeAt(h, f, c);
    if f.parent[c] == p {
      var p', k := Place(h, f, c);
    }
  }

  /** One step along the list of `p`, with `c` left out of the count. */
  lemma ListStep(h: map<Entity, Hierarchy>, f: Forest, c: Entity, p: Entity, i: nat)
    requires Linked(h, f) && c in h && p in h && i < |f.kids[p]|
    ensures p in f.kids
    ensures f.kids[p][i] in h && h[f.kids[p][i]].nextSibling == At(f.kids[p], i + 1)
    ensures At(f.kids[p], i + 1).Valid() <==> i + 1 < |f.kids[p]|
    ensures var s := f.kids[p]; var rest := Without(s, c);
            && Before(s, c, i + 1) == (if s[i] == c then Before(s, c, i) else Before(s, c, i) + 1)
            && (s[i] != c ==> Before(s, c, i) < |rest| && rest[Before(s, c, i)] == s[i])
  {
    hide WellFormed;
    hide HeadsOk;
    hide SiblingsOk;
    SiblingAt(h, f, p, i);
    if i + 1 < |f.kids[p]| {
      SiblingAt(h, f, p, i + 1);
    }
    KidsOf(f, p);
    BeforeStep(f.kids[p], c, i);
  }

  lemma BeforeStep(s: seq<Entity>, c: Entity, i: nat)
    requires Distinct(s) && i < |s|
    ensures Before(s, c, i + 1) == (if s[i] == c then Before(s, c, i) else Before(s, c, i) + 1)
    ensures var rest := Without(s, c);
            s[i] != c ==> Before(s, c, i) < |rest| && rest[Before(s, c, i)] == s[i]
  {
  }

  // ----- Adding and removing entities -----

  lemma AddRootLinked(h: map<Entity, Hierarchy>, f: Forest, e: Entity)
    requires Linked(h, f) && e.Valid() && e !in h
    ensures Linked(h[e := UNLINKED], AddRoot(f, e))
  {
    hide WellFormed;
    hide HeadsOk;
    hide SiblingsOk;
    AddRootWellFormed(f, e);
    ForestKeys(f);
    AddRootLinks(h, f, e);
  }

  lemma AddRootLinks(h: map<Entity, Hierarchy>, f: Forest, e: Entity)
    requires Linked(h, f) && e.Valid() && e !in h && WellFormed(AddRoot(f, e))
    ensures HeadsOk(h[e := UNLINKED], AddRoot(f, e))
    ensures SiblingsOk(h[e := UNLINKED], AddRoot(f, e))
  {
    var g := AddRoot(f, e);
    var h' := h[e := UNLINKED];
    forall x | x in h' ensures HeadOk(h'[x], g.parent[x], g.kids[x]) {
      if x != e {
        NodeAt(h, f, x);
      }
    }
    forall p, i: nat | p in h' && i < |g.kids[p]| ensures SiblingOk(h'[g.kids[p][i]], g.kids[p], i) {
      SiblingAt(h, f, p, i);
    }
  }

  /** Dropping the nodes of a root's tree leaves links that spell out what is left. */
  lemma PruneLinked(h: map<Entity, Hierarchy>, f: Forest, c: Entity, gone: set<Entity>)
    requires WellFormed(f) && c in f.parent && Linked(h, Detach(f, c))
    requires forall x :: x in gone <==> x in f.parent && Under(f, x, c)
    ensures Linked(h - gone, Prune(f, c))
  {
    hide WellFormed;
    hide HeadsOk;
    hide SiblingsOk;
    hide Under;
    hide Detach;
    hide Prune;
    DetachLists(f, c);
    PruneWellFormed(f, c);
    PruneResult(f, c);
    PruneLinks(h, f, c, gone);
  }

  lemma PruneLinks(h: map<Entity, Hierarchy>, f: Forest, c: Entity, gone: set<Entity>)
    requires WellFormed(f) && c in f.parent && Linked(h, Detach(f, c)) && WellFormed(Prune(f, c))
    requires forall x :: x in gone <==> x in f.parent && Under(f, x, c)
    requires (h - gone).Keys == Prune(f, c).parent.Keys == Prune(f, c).kids.Keys
    ensures HeadsOk(h - gone, Prune(f, c)) && SiblingsOk(h - gone, Prune(f, c))
  {
    hide WellFormed;
    hide HeadsOk;
    hide SiblingsOk;
    hide Under;
    hide Detach;
    hide Prune;
    DetachLists(f, c);
    PruneResult(f, c);
    PruneHeads(h, f, c, gone);
    PruneSiblings(h, f, c, gone);
  }

  lemma PruneHeads(h: map<Entity, Hierarchy>, f: Forest, c: Entity, gone: set<Entity>)
    requires WellFormed(f) && c in f.parent && Linked(h, Detach(f, c)) && WellFormed(Prune(f, c))
    requires (h - gone).Keys == Prune(f, c).parent.Keys == Prune(f, c).kids.Keys
    ensures HeadsOk(h - gone, Prune(f, c))
  {
    hide WellFormed;
    hide SiblingsOk;
    hide Under;
    hide Detach;
    hide Prune;
    var g := Prune(f, c);
    PruneResult(f, c);
    DetachLists(f, c);
    forall x | x in h - gone ensures HeadOk((h - gone)[x], g.parent[x], g.kids[x]) {
      hide HeadsOk;
      NodeAt(h, Detach(f, c), x);
      assert x in Prune(f, c).parent;
      PruneRoot(f, c, x);
    }
  }

  lemma PruneRoot(f: Forest, c: Entity, x: Entity)
    requires WellFormed(f) && c in f.parent && x in Prune(f, c).parent
    ensures x in f.parent && x in Detach(f, c).parent && x in Detach(f, c).kids
    ensures Prune(f, c).parent[x] == Detach(f, c).parent[x] && Prune(f, c).kids[x] == Detach(f, c).kids[x]
  {
  }

  lemma PruneSiblings(h: map<Entity, Hierarchy>, f: Forest, c: Entity, gone: set<Entity>)
    requires WellFormed(f) && c in f.parent && Linked(h, Detach(f, c)) && WellFormed(Prune(f, c))
    requires (h - gone).Keys == Prune(f, c).parent.Keys == Prune(f, c).kids.Keys
    ensures SiblingsOk(h - gone, Prune(f, c))
  {
    hide HeadsOk;
    hide Under;
    hide Detach;
    hide Prune;
    var g := Prune(f, c);
    forall p, i: nat | p in h - gone && i < |g.kids[p]| ensures SiblingOk((h - gone)[g.kids[p][i]], g.kids[p], i) {
      PruneRoot(f, c, p);
      KidAt(g, p, i);
      SiblingAt(h, Detach(f, c), p, i);
    }
  }
}
