/** The scene: a table of entities whose link fields form an ordered forest and whose cached
    world transforms follow it. */
module Scenes {
  import opened Entities
  import opened Sequences
  import opened Forests
  import opened Links
  import opened GeometryModule
  import opened Wrappers
  import opened Worlds
  import opened EntitySlotsModule
  import opened BreadthFirst

  function AsSet(entities: seq<Entity>): set<Entity> {
    set x | x in entities
  }

  /** A new root leaves the links in order, and the caches if they were. */
  lemma RootAdded<L(!new), M(!new)>(g: Geometry<L, M>, h: map<Entity, Hierarchy>, f: Forest, t: Transforms<L, M>, e: Entity)
    requires Linked(h, f) && t.Keys == f.parent.Keys && Sound(g) && e.Valid() && e !in h
    ensures Linked(h[e := UNLINKED], AddRoot(f, e)) && t[e := Transform(g.initial, Origin(g))].Keys == AddRoot(f, e).parent.Keys
    ensures WorldsOk(g, f, t) ==> WorldsOk(g, AddRoot(f, e), t[e := Transform(g.initial, Origin(g))])
  {
    hide WellFormed;
    hide Links.Linked;
    hide AddRoot;
    hide WorldsOk;
    LinkedKeys(h, f);
    AddRootLinked(h, f, e);
    AddRootWellFormed(f, e);
    AddRootKeys(f, e);
    if WorldsOk(g, f, t) {
      AddRootWorlds(g, f, t, e);
    }
  }

  /** Dropping a subtree that was cut off leaves links and caches in order. */
  lemma Pruned<L(!new), M(!new)>(g: Geometry<L, M>, h: map<Entity, Hierarchy>, f: Forest, t: Transforms<L, M>, c: Entity, gone: set<Entity>)
    requires WellFormed(f) && c in f.parent && Linked(h, Detach(f, c)) && t.Keys == h.Keys
    requires Detach(f, c).parent.Keys == h.Keys && WorldsOk(g, Detach(f, c), t)
    requires forall x :: x in gone <==> x in f.parent && Under(f, x, c)
    ensures WellFormed(Prune(f, c)) && Linked(h - gone, Prune(f, c))
    ensures (t - gone).Keys == Prune(f, c).parent.Keys == (h - gone).Keys
    ensures WorldsOk(g, Prune(f, c), t - gone)
  {
    hide WellFormed;
    hide Links.Linked;
    hide WorldsOk;
    hide Detach;
    hide Prune;
    hide Under;
    DetachWellFormed(f, c);
    PruneLinked(h, f, c, gone);
    PruneResult(f, c);
    LinkedKeys(h - gone, Prune(f, c));
    PruneWorlds(g, f, t, c, gone);
  }

  class Scene<L(!new), M(!new)> {
    const g: Geometry<L, M>
    const slots: EntitySlots<()>
    var hierarchy: map<Entity, Hierarchy>
    var transforms: Transforms<L, M>
    ghost var forest: Forest

    /** The tables spell out the ghost forest. */
    ghost predicate Structure()
      reads this
    {
      && Linked(hierarchy, forest)
      && transforms.Keys == forest.parent.Keys
      && Sound(g)
    }

    /** Every cached world agrees with its parent's. */
    ghost predicate Fresh()
      reads this
      requires Structure()
    {
      WorldsOk(g, forest, transforms)
    }

    /** The entities of the tables are the ones the allocator calls live. */
    ghost predicate Stored()
      reads this`hierarchy, slots
    {
      slots.Valid() && slots.Live() == hierarchy.Keys
    }

    ghost predicate Valid()
      reads this, slots
    {
      Structure() && Fresh() && Stored()
    }

    constructor (g: Geometry<L, M>)
      requires Sound(g)
      ensures Valid() && fresh(slots) && this.g == g && forest == EMPTY
    {
      this.g := g;
      slots := new EntitySlots(NULL_INDEX, 0xFFFF_FFFF, ());
      hierarchy, transforms, forest := map[], map[], EMPTY;
    }

    /** What the structure offers at a glance. */
    lemma Parts()
      requires Structure()
      ensures Links.Linked(hierarchy, forest) && WellFormed(forest) && Sound(g)
      ensures hierarchy.Keys == forest.parent.Keys == forest.kids.Keys == forest.depth.Keys == transforms.Keys
    {
      hide WellFormed;
      hide Sound;
      LinkedKeys(hierarchy, forest);
      ForestKeys(forest);
    }

    method SetCachedWorld(entity: Entity, world: World<L, M>)
      requires Structure() && entity in hierarchy
      modifies this`transforms
      ensures Structure() && entity in old(transforms)
      ensures transforms == old(transforms)[entity := old(transforms)[entity].(world := world)]
    {
      hide Links.Linked;
      hide WellFormed;
      hide Sound;
      LinkedKeys(hierarchy, forest);
      transforms := transforms[entity := transforms[entity].(world := world)];
    }

    /** Walks the subtree of `root` by its links alone, refreshing every cached world. */
    method PropagateTransformSubtree(root: Entity) returns (ghost visited: seq<Entity>)
      requires Structure() && root in hierarchy
      modifies this`transforms
      ensures Structure()
      ensures visited == Preorder(forest, root)
      ensures SameOutside(forest, old(transforms), transforms, root)
      ensures FreshBut(g, forest, transforms, root, [])
      ensures forall x :: x in transforms && Under(forest, x, root) ==>
                (forest.parent[x] == NONE || forest.parent[x] in transforms) && PlacedBelow(g, transforms, x, forest.parent[x])
    {
      hide Scene.Structure;
      hide Links.Linked;
      hide WellFormed;
      hide Under;
      hide Preorder;
      hide PreorderFrom;
      hide Rest;
      hide WalkAt;
      hide FreshBut;
      hide SameOutside;
      hide Compose;
      hide PlacedBelow;
      hide IndexOf;
      Parts();
      visited := [];
      ghost var f, t0 := forest, transforms;
      ReadLinks(hierarchy, f, root);
      WalkStarts(g, f, t0, root);
      var entity := root;
      while entity.Valid()
        invariant Structure()
        invariant entity in hierarchy && entity.Valid() && Under(f, entity, root)
        invariant WalkAt(g, f, t0, transforms, root, visited, Preorder(f, entity) + Rest(f, root, entity))
        decreases |Preorder(f, root)| - |visited|
      {
        Parts();
        ReadLinks(hierarchy, f, entity);
        WalkLeft(g, f, t0, transforms, root, visited, entity);
        WalkVisits(g, f, t0, transforms, root, visited, entity);
        PreorderDown(f, root, entity);
        var transform := transforms[entity];
        var parentWorld := Origin(g);
        if hierarchy[entity].parent.Valid() {
          parentWorld := transforms[hierarchy[entity].parent].world;
        }
        SetCachedWorld(entity, Compose(g, parentWorld, transform.local));
        visited := visited + [entity];

        if hierarchy[entity].firstChild.Valid() {
          entity := hierarchy[entity].firstChild;
          continue;
        }
        while entity != root
          invariant Structure()
          invariant entity in hierarchy && Under(f, entity, root)
          invariant WalkAt(g, f, t0, transforms, root, visited, Rest(f, root, entity))
          decreases f.depth[entity]
        {
          ReadLinks(hierarchy, f, entity);
          PreorderNext(f, root, entity);
          if hierarchy[entity].nextSibling.Valid() {
            entity := hierarchy[entity].nextSibling;
            break;
          }
          entity := hierarchy[entity].parent;
          ReadLinks(hierarchy, f, entity);
        }
        if entity == root {
          WalkEnds(g, f, t0, transforms, root, visited);
          FreshMeans(g, f, transforms, root);
          break;
        }
      }
    }
  
    // ----- Moving entities -----

    /** Climbs from `entity` to see whether `candidate` is it or above it. */
    method IsAtOrAbove(candidate: Entity, entity: Entity) returns (above: bool)
      requires Structure() && candidate in hierarchy && entity in hierarchy
      ensures above <==> Under(forest, entity, candidate)
    {
      ForestKeys(forest);
      var ancestor := entity;
      while ancestor.Valid()
        invariant ancestor == NONE || ancestor in hierarchy
        invariant Under(forest, entity, candidate) <==> ancestor != NONE && Under(forest, ancestor, candidate)
        decreases if ancestor == NONE then 0 else forest.depth[ancestor] + 1
      {
        ReadLinks(hierarchy, forest, ancestor);
        if ancestor == candidate {
          return true;
        }
        ancestor := hierarchy[ancestor].parent;
      }
      return false;
    }

    /** Finds the two entities between which `child` belongs. */
    method FindInsertion(child: Entity, parent: Entity, position: nat) returns (before: Entity, after: Entity)
      requires Structure() && child in hierarchy && parent in hierarchy
      requires position <= |Without(forest.kids[parent], child)|
      ensures before == At(Without(forest.kids[parent], child), position - 1)
      ensures after == At(Without(forest.kids[parent], child), position)
    {
      hide WellFormed;
      hide HeadsOk;
      hide SiblingsOk;
      hide Without;
      hide IndexOf;
      hide Before;
      ForestKeys(forest);
      ListEnds(hierarchy, forest, child, parent);
      ghost var s := forest.kids[parent];
      before, after := NONE, NONE;
      if position == hierarchy[parent].childrenCount - (if hierarchy[child].parent == parent then 1 else 0) {
        before := if hierarchy[parent].lastChild == child then hierarchy[child].previousSibling else hierarchy[parent].lastChild;
        return;
      }
      var visited := 0;
      ghost var i := 0;
      var current := hierarchy[parent].firstChild;
      while current.Valid()
        invariant i <= |s| && current == At(s, i) && (current.Valid() <==> i < |s|)
        invariant visited == Before(s, child, i) <= position
        invariant before == At(Without(s, child), visited - 1) && after == NONE
        decreases |s| - i
      {
        ListStep(hierarchy, forest, child, parent, i);
        if current != child {
          if visited == position {
            after := current;
            break;
          }
          before := current;
          visited := visited + 1;
        }
        current := hierarchy[current].nextSibling;
        i := i + 1;
      }
    }

    /** Takes `child` out of its parent's list; its own fields still name its old place. */
    method Unlink(child: Entity)
      requires Structure() && child in hierarchy && forest.parent[child] != NONE
      modifies this`hierarchy, this`forest
      ensures forest == Detach(old(forest), child)
      ensures LinkedBut(hierarchy, forest, child) && hierarchy.Keys == old(hierarchy.Keys)
    {
      hide WellFormed;
      hide HeadsOk;
      hide SiblingsOk;
      hide Detach;
      hide LinkedBut;
      LinkCheckPasses(hierarchy, forest, child);
      ForestKeys(forest);
      ghost var h := hierarchy;
      var own := hierarchy[child];
      var parent, previous, next := own.parent, own.previousSibling, own.nextSibling;
      if previous.Valid() {
        hierarchy := SetNext(hierarchy, previous, next);
      } else {
        hierarchy := SetFirst(hierarchy, parent, next);
      }
      if next.Valid() {
        hierarchy := SetPrevious(hierarchy, next, previous);
      } else {
        hierarchy := SetLast(hierarchy, parent, previous);
      }
      hierarchy := AddToCount(hierarchy, parent, -1);
      UnlinkLinked(h, forest, child);
      forest := Detach(forest, child);
    }

    /** Puts the root `child` between `before` and `after`, neighbours in the list of `parent`. */
    method Relink(child: Entity, parent: Entity, before: Entity, after: Entity, ghost position: nat)
      requires LinkedBut(hierarchy, forest, child) && parent in hierarchy && !Under(forest, parent, child)
      requires position <= |forest.kids[parent]|
      requires before == At(forest.kids[parent], position - 1) && after == At(forest.kids[parent], position)
      modifies this`hierarchy, this`forest
      ensures forest == Attach(old(forest), child, parent, position)
      ensures Linked(hierarchy, forest) && hierarchy.Keys == old(hierarchy.Keys)
    {
      hide WellFormed;
      hide Links.Linked;
      hide LinkedBut;
      hide Under;
      hide Attach;
      hide SetFirst;
      hide SetLast;
      hide SetNext;
      hide SetPrevious;
      hide AddToCount;
      hide SetPlace;
      ghost var h := hierarchy;
      RootFacts(hierarchy, forest, child, parent);
      Gap(forest, parent, position);
      hierarchy := SetPlace(hierarchy, child, parent, before, after);
      if before.Valid() {
        hierarchy := SetNext(hierarchy, before, child);
      } else {
        hierarchy := SetFirst(hierarchy, parent, child);
      }
      if after.Valid() {
        hierarchy := SetPrevious(hierarchy, after, child);
      } else {
        hierarchy := SetLast(hierarchy, parent, child);
      }
      hierarchy := AddToCount(hierarchy, parent, 1);
      RelinkLinked(h, forest, child, parent, position);
      forest := Attach(forest, child, parent, position);
    }

    /** The checks before a move. None of them is about damaged links: those never fail. */
    method MayMove(child: Entity, parent: Entity, position: nat) returns (ok: bool)
      requires Structure()
      ensures ok <==> CanMove(forest, child, parent, position)
    {
      hide WellFormed;
      hide HeadsOk;
      hide SiblingsOk;
      hide Without;
      if child == parent {
        return false;
      }
      if child !in hierarchy || parent !in hierarchy {
        return false;
      }
      ForestKeys(forest);
      LinkCheckPasses(hierarchy, forest, child);
      DestinationCount(hierarchy, forest, child, parent);
      ParentNotUnder(forest, child);
      var oldParent := hierarchy[child].parent;
      if oldParent != parent {
        var above := IsAtOrAbove(child, parent);
        if above {
          return false;
        }
      }
      if oldParent.Valid() {
        if !LinkedToParent(hierarchy, child) {
          return false;
        }
      } else if hierarchy[child].previousSibling.Valid() || hierarchy[child].nextSibling.Valid() {
        return false;
      }
      if position > hierarchy[parent].childrenCount - (if oldParent == parent then 1 else 0) {
        return false;
      }
      return true;
    }

    /** Takes `child` out of its parent's list, if it has a parent, and puts it at its new place. */
    method MoveLinks(child: Entity, parent: Entity, position: nat)
      requires Structure() && CanMove(forest, child, parent, position)
      modifies this`hierarchy, this`forest
      ensures Structure() && forest == Move(old(forest), child, parent, position)
      ensures hierarchy.Keys == old(hierarchy.Keys)
    {
      hide WellFormed;
      hide HeadsOk;
      hide SiblingsOk;
      hide Without;
      hide Detach;
      hide Attach;
      hide Move;
      hide Under;
      hide LinkedBut;
      ghost var f := forest;
      MoveReady(f, child, parent, position);
      MoveResult(f, child, parent, position);
      LinkCheckPasses(hierarchy, f, child);
      var before, after := FindInsertion(child, parent, position);
      if hierarchy[child].parent.Valid() {
        Unlink(child);
      } else {
        RootIsLinkedBut(hierarchy, forest, child);
      }
      Relink(child, parent, before, after, position);
    }

    /** Makes `child` a child of `parent` at `position`, counted among the other children. It
        refuses, changing nothing, exactly when that would be no forest or no position. */
    method SetParent(child: Entity, parent: Entity, position: nat) returns (ok: bool)
      requires Structure()
      modifies this`hierarchy, this`transforms, this`forest
      ensures Structure()
      ensures ok <==> CanMove(old(forest), child, parent, position)
      ensures forest == if ok then Move(old(forest), child, parent, position) else old(forest)
      ensures hierarchy.Keys == old(hierarchy.Keys)
      ensures !ok ==> hierarchy == old(hierarchy) && transforms == old(transforms)
      ensures Locals(transforms) == old(Locals(transforms))
      ensures old(Fresh()) ==> Fresh()
    {
      hide WellFormed;
      hide Links.Linked;
      hide Scene.Structure;
      hide Move;
      hide Under;
      hide WorldsOk;
      hide FreshBut;
      hide SameOutside;
      hide Locals;
      Parts();
      ok := MayMove(child, parent, position);
      if !ok {
        return;
      }
      ghost var f, t := forest, transforms;
      MoveResult(f, child, parent, position);
      ReadLinks(hierarchy, f, child);
      var oldParent := hierarchy[child].parent;
      MoveLinks(child, parent, position);
      Parts();
      if oldParent != parent {
        ghost var visited := PropagateTransformSubtree(child);
        SameOutsideLocals(forest, t, transforms, child);
        if WorldsOk(g, f, t) {
          MovedWorlds(g, f, forest, t, transforms, child);
        }
      } else if WorldsOk(g, f, t) {
        SameParentsWorlds(g, f, forest, t);
      }
    }
  
    /** Makes `child` a root. It refuses, changing nothing, exactly when `child` is dead or already a root. */
    method Unparent(child: Entity) returns (ok: bool)
      requires Structure()
      modifies this`hierarchy, this`transforms, this`forest
      ensures Structure()
      ensures ok <==> child in old(forest.parent) && old(forest.parent[child]) != NONE
      ensures forest == if ok then Detach(old(forest), child) else old(forest)
      ensures hierarchy.Keys == old(hierarchy.Keys)
      ensures !ok ==> hierarchy == old(hierarchy) && transforms == old(transforms)
      ensures ok ==> SameOutside(forest, old(transforms), transforms, child)
      ensures Locals(transforms) == old(Locals(transforms))
      ensures old(Fresh()) ==> Fresh()
    {
      hide WellFormed;
      hide HeadsOk;
      hide SiblingsOk;
      hide Detach;
      hide Under;
      hide WorldsOk;
      hide FreshBut;
      hide SameOutside;
      hide LinkedBut;
      hide SetPlace;
      if child !in hierarchy || !hierarchy[child].parent.Valid() {
        ForestKeys(forest);
        if child in hierarchy {
          LinkCheckPasses(hierarchy, forest, child);
        }
        return false;
      }
      ghost var f, t := forest, transforms;
      LinkCheckPasses(hierarchy, f, child);
      if !LinkedToParent(hierarchy, child) {
        return false;
      }
      Unlink(child);
      CutOffLinked(hierarchy, forest, child);
      hierarchy := SetPlace(hierarchy, child, NONE, NONE, NONE);
      DetachWellFormed(f, child);
      DetachLists(f, child);
      ghost var visited := PropagateTransformSubtree(child);
      SameOutsideLocals(forest, t, transforms, child);
      if WorldsOk(g, f, t) {
        MovedWorlds(g, f, forest, t, transforms, child);
      }
      return true;
    }

    /** Moves `child` among the children of the parent it has. */
    method ReorderChild(child: Entity, position: nat) returns (ok: bool)
      requires Structure()
      modifies this`hierarchy, this`transforms, this`forest
      ensures Structure()
      ensures ok <==> child in old(forest.parent) && old(forest.parent[child]) != NONE
                      && CanMove(old(forest), child, old(forest.parent[child]), position)
      ensures forest == if ok then Move(old(forest), child, old(forest.parent[child]), position) else old(forest)
      ensures hierarchy.Keys == old(hierarchy.Keys)
      ensures !ok ==> hierarchy == old(hierarchy) && transforms == old(transforms)
      ensures Locals(transforms) == old(Locals(transforms))
      ensures old(Fresh()) ==> Fresh()
    {
      hide WellFormed;
      hide HeadsOk;
      hide SiblingsOk;
      hide Move;
      hide CanMove;
      hide Under;
      hide WorldsOk;
      ForestKeys(forest);
      if child in hierarchy {
        LinkCheckPasses(hierarchy, forest, child);
      }
      if child !in hierarchy || !hierarchy[child].parent.Valid() {
        return false;
      }
      ok := SetParent(child, hierarchy[child].parent, position);
    }

    // ----- Reading -----

    function GetParent(entity: Entity): Entity
      reads this
    {
      if entity in hierarchy then hierarchy[entity].parent else NONE
    }

    /** The children of `parent`, by following its first child's next siblings. */
    method GetChildren(parent: Entity) returns (result: seq<Entity>)
      requires Structure()
      ensures result == if parent in forest.kids then forest.kids[parent] else []
    {
      hide WellFormed;
      hide HeadsOk;
      hide SiblingsOk;
      hide IndexOf;
      ForestKeys(forest);
      result := [];
      if parent !in hierarchy {
        return;
      }
      ghost var s := forest.kids[parent];
      ListEnds(hierarchy, forest, parent, parent);
      var current := hierarchy[parent].firstChild;
      while current.Valid()
        invariant |result| <= |s| && result == s[..|result|]
        invariant current == At(s, |result|) && (current.Valid() <==> |result| < |s|)
        decreases |s| - |result|
      {
        ListStep(hierarchy, forest, parent, parent, |result|);
        result := result + [current];
        if current in hierarchy {
          current := hierarchy[current].nextSibling;
        } else {
          break;
        }
      }
    }

    /** The roots, in whatever order the storage holds them. */
    method GetRoots() returns (roots: seq<Entity>)
      requires Structure()
      ensures Distinct(roots)
      ensures forall x :: x in roots <==> x in forest.parent && forest.parent[x] == NONE
    {
      hide WellFormed;
      hide HeadsOk;
      hide SiblingsOk;
      ForestKeys(forest);
      roots := [];
      var rest := hierarchy.Keys;
      while rest != {}
        invariant rest <= hierarchy.Keys
        invariant Distinct(roots)
        invariant forall x :: x in roots <==> x in hierarchy && x !in rest && forest.parent[x] == NONE
        decreases rest
      {
        var e :| e in rest;
        NodeAt(hierarchy, forest, e);
        if !GetParent(e).Valid() {
          DistinctConcat(roots, [e]);
          roots := roots + [e];
        }
        rest := rest - {e};
      }
    }

    // ----- Creating and destroying -----

    /** How many more entities fit: those alive and the slots that will never be used again take theirs. */
    ghost function Spare(): int
      reads this`hierarchy, slots
    {
      slots.slotLimit - |hierarchy.Keys| - |slots.Retired()|
    }

    lemma SpareRoom()
      requires Stored() && Spare() > 0
      ensures slots.CanCreate()
    {
      hide EntitySlots.Valid;
      hide EntitySlots.Retired;
      hide EntitySlots.CanCreate;
      slots.CanCreateMore();
    }

    method CreateEntity() returns (entity: Entity)
      requires Structure() && Stored() && slots.CanCreate()
      modifies this, slots
      ensures Structure() && Stored()
      ensures old(Fresh()) ==> Fresh()
      ensures entity.Valid() && entity !in old(hierarchy) && entity !in old(slots.issued)
      ensures slots.issued == old(slots.issued) + {entity} && Spare() >= old(Spare()) - 1
      ensures forest == AddRoot(old(forest), entity)
      ensures hierarchy.Keys == old(hierarchy.Keys) + {entity}
      ensures transforms == old(transforms)[entity := Transform(g.initial, Origin(g))]
    {
      hide WellFormed;
      hide Links.Linked;
      hide AddRoot;
      hide Sound;
      hide WorldsOk;
      hide EntitySlots.Valid;
      hide EntitySlots.Live;
      hide CreateStep;
      LinkedKeys(hierarchy, forest);
      entity := slots.Create();
      RootAdded(g, hierarchy, forest, transforms, entity);
      Enroll(entity);
    }

    /** The row of a new entity, a root with the initial transform. */
    method Enroll(entity: Entity)
      requires slots.Valid() && slots.Live() == hierarchy.Keys + {entity}
      modifies this
      ensures Stored() && hierarchy == old(hierarchy)[entity := UNLINKED]
      ensures transforms == old(transforms)[entity := Transform(g.initial, Origin(g))]
      ensures forest == AddRoot(old(forest), entity)
    {
      hide EntitySlots.Valid;
      hide EntitySlots.Live;
      hide AddRoot;
      hierarchy := hierarchy[entity := UNLINKED];
      transforms := transforms[entity := Transform(g.initial, Origin(g))];
      forest := AddRoot(forest, entity);
    }

    /** Appends the children of `e`, by following its first child's next siblings. */
    method AppendChildren(list: seq<Entity>, e: Entity) returns (result: seq<Entity>)
      requires Structure() && e in hierarchy
      ensures e in forest.kids && result == list + forest.kids[e]
    {
      hide WellFormed;
      hide HeadsOk;
      hide SiblingsOk;
      hide Before;
      hide Without;
      hide WorldsOk;
      ghost var f := forest;
      ListEnds(hierarchy, f, e, e);
      ghost var more, i := f.kids[e], 0;
      result := list;
      var child := hierarchy[e].firstChild;
      while child.Valid()
        invariant 0 <= i <= |more| && result == list + more[..i]
        invariant child == At(more, i) && (child.Valid() <==> i < |more|)
        decreases |more| - i
      {
        ListStep(hierarchy, f, e, e, i);
        result := result + [child];
        child := hierarchy[child].nextSibling;
        i := i + 1;
      }
      assert more[..i] == more;
    }

    /** Lists the subtree of `entity` breadth first. */
    method CollectSubtree(entity: Entity) returns (subtree: seq<Entity>)
      requires Structure() && entity in hierarchy
      ensures Distinct(subtree)
      ensures forall x :: x in subtree <==> x in forest.parent && Under(forest, x, entity)
    {
      hide WellFormed;
      hide HeadsOk;
      hide SiblingsOk;
      hide BfsAt;
      hide Apart;
      hide Under;
      ghost var f, start, parents := forest, [entity], [-1];
      ForestKeys(f);
      SubtreeApart(f, entity);
      subtree := [entity];
      var index := 0;
      while index < |subtree|
        invariant BfsAt(f, start, subtree, parents, index) && index <= |subtree|
        decreases |f.parent| - index
      {
        BfsBound(f, start, subtree, parents, index);
        BfsStep(f, start, subtree, parents, index);
        ghost var more := f.kids[subtree[index]];
        subtree := AppendChildren(subtree, subtree[index]);
        parents := parents + Repeat(|more|, index);
        index := index + 1;
      }
      SubtreeListed(f, entity, subtree, parents);
    }

    /** Cuts `entity` off from its parent, if it has one. This never fails. */
    method UnparentIfChild(entity: Entity) returns (ok: bool)
      requires Structure() && Fresh() && entity in hierarchy
      modifies this`hierarchy, this`transforms, this`forest
      ensures ok && Structure() && Fresh() && hierarchy.Keys == old(hierarchy.Keys)
      ensures WellFormed(old(forest)) && entity in old(forest.parent) && forest == Detach(old(forest), entity)
      ensures forall x :: x in Prune(old(forest), entity).parent ==>
                x in transforms && x in old(transforms) && transforms[x] == old(transforms)[x]
    {
      hide WellFormed;
      hide Links.Linked;
      hide SameOutside;
      hide WorldsOk;
      hide Detach;
      hide Prune;
      hide Under;
      ghost var f, t := forest, transforms;
      LinkedKeys(hierarchy, f);
      LinkCheckPasses(hierarchy, f, entity);
      DetachWellFormed(f, entity);
      if hierarchy[entity].parent.Valid() {
        var unparented := Unparent(entity);
        if !unparented {
          return false;
        }
      }
      PruneOthers(f, t, transforms, entity);
      return true;
    }

    /** Removes the rows of the listed entities, last to first. */
    method RemoveRows(subtree: seq<Entity>)
      requires Stored() && transforms.Keys == hierarchy.Keys
      requires Distinct(subtree) && forall x :: x in subtree ==> x in hierarchy
      modifies this`hierarchy, this`transforms, slots
      ensures Stored() && slots.issued == old(slots.issued)
      ensures hierarchy == old(hierarchy) - AsSet(subtree) && transforms == old(transforms) - AsSet(subtree)
    {
      hide EntitySlots.Valid;
      hide EntitySlots.Live;
      ghost var gone: set<Entity> := {};
      var index := |subtree|;
      while index > 0
        invariant 0 <= index <= |subtree|
        invariant forall x :: x in gone <==> x in subtree[index..]
        invariant hierarchy == old(hierarchy) - gone && transforms == old(transforms) - gone
        invariant Stored() && slots.issued == old(slots.issued)
      {
        index := index - 1;
        var removed := slots.Destroy(subtree[index]);
        assert removed;
        hierarchy := hierarchy - {subtree[index]};
        transforms := transforms - {subtree[index]};
        gone := gone + {subtree[index]};
      }
      assert subtree[0..] == subtree;
      assert gone == AsSet(subtree);
    }

    /** Destroys `entity` and everything below it, and nothing else. */
    method DestroyEntity(entity: Entity) returns (ok: bool)
      requires Valid()
      modifies this, slots
      ensures Valid() && slots.issued == old(slots.issued)
      ensures ok <==> entity in old(hierarchy)
      ensures forest == if ok then Prune(old(forest), entity) else old(forest)
      ensures hierarchy.Keys == forest.parent.Keys
      ensures forall x :: x in transforms ==> x in old(transforms) && transforms[x] == old(transforms)[x]
    {
      hide WellFormed;
      hide Links.Linked;
      hide SameOutside;
      hide WorldsOk;
      hide Detach;
      hide Prune;
      hide Under;
      hide Sound;
      hide EntitySlots.Valid;
      hide EntitySlots.Live;
      LinkedKeys(hierarchy, forest);
      if entity !in hierarchy {
        return false;
      }
      ghost var f, t := forest, transforms;
      var subtree := CollectSubtree(entity);
      var detached := UnparentIfChild(entity);
      if !detached {
        return false;
      }
      ghost var h1, t1 := hierarchy, transforms;
      LinkedKeys(h1, forest);
      ghost var gone := AsSet(subtree);
      Pruned(g, h1, f, t1, entity, gone);
      RemoveSubtree(subtree, Prune(f, entity));
      return true;
    }

    /** Removes the rows of a cut-off subtree and leaves the forest without it. */
    method RemoveSubtree(subtree: seq<Entity>, ghost left: Forest)
      requires Stored() && transforms.Keys == hierarchy.Keys
      requires Distinct(subtree) && forall x :: x in subtree ==> x in hierarchy
      modifies this, slots
      ensures Stored() && slots.issued == old(slots.issued) && forest == left
      ensures hierarchy == old(hierarchy) - AsSet(subtree) && transforms == old(transforms) - AsSet(subtree)
    {
      hide EntitySlots.Valid;
      hide EntitySlots.Live;
      RemoveRows(subtree);
      forest := left;
    }

    method Clear()
      requires Structure() && Stored()
      modifies this, slots
      ensures Valid() && forest == EMPTY && slots.issued == old(slots.issued)
      ensures hierarchy == map[] && transforms == map[]
    {
      hide EntitySlots.Valid;
      hide EntitySlots.Live;
      slots.Clear();
      hierarchy, transforms, forest := map[], map[], EMPTY;
    }

    // ----- Transforms -----

    /** Gives `entity` new local values and refreshes its subtree. It refuses a zero scale and a dead entity. */
    method SetLocal(entity: Entity, values: L) returns (ok: bool)
      requires Structure() && Fresh()
      modifies this`transforms
      ensures Structure() && Fresh()
      ensures ok <==> entity in forest.parent && !g.hasZeroScale(values)
      ensures !ok ==> transforms == old(transforms)
      ensures ok ==> Locals(transforms) == old(Locals(transforms))[entity := values]
      ensures ok ==> forall x :: x in transforms && !Under(forest, x, entity) ==> transforms[x] == old(transforms)[x]
    {
      hide WellFormed;
      hide HeadsOk;
      hide SiblingsOk;
      hide WorldsOk;
      hide Under;
      hide FreshBut;
      if g.hasZeroScale(values) || entity !in transforms {
        return false;
      }
      AssignLocal(entity, values);
      return true;
    }

    /** Gives `entity` the local values of another transform, whatever their scale, and refreshes its subtree. */
    method AssignLocal(entity: Entity, values: L)
      requires Structure() && Fresh() && entity in transforms
      modifies this`transforms
      ensures Structure() && Fresh() && entity in forest.parent
      ensures Locals(transforms) == old(Locals(transforms))[entity := values]
      ensures forall x :: x in transforms && !Under(forest, x, entity) ==> transforms[x] == old(transforms)[x]
    {
      hide WellFormed;
      hide HeadsOk;
      hide SiblingsOk;
      hide WorldsOk;
      hide Under;
      hide FreshBut;
      ghost var t := transforms;
      ForestKeys(forest);
      transforms := transforms[entity := transforms[entity].(local := values)];
      ghost var t1 := transforms;
      ghost var visited := PropagateTransformSubtree(entity);
      LocalSetWorlds(g, forest, t, t1, transforms, entity, values);
      LocalSet(forest, t, transforms, entity, values);
      LocalSetOthers(forest, t, transforms, entity, values);
    }

    /** Overwrites the local values of `entity` and leaves every cached world as it is. */
    method OverwriteLocal(entity: Entity, values: L)
      requires Structure() && entity in hierarchy
      modifies this`transforms
      ensures Structure()
      ensures entity in old(transforms)
      ensures transforms == old(transforms)[entity := old(transforms)[entity].(local := values)]
    {
      hide WellFormed;
      hide HeadsOk;
      hide SiblingsOk;
      transforms := transforms[entity := transforms[entity].(local := values)];
    }

    /** Refreshes every cached world, tree by tree. */
    method PropagateTransforms()
      requires Structure()
      modifies this`transforms
      ensures Structure() && Fresh()
      ensures Locals(transforms) == old(Locals(transforms))
      ensures forall x :: x in transforms ==>
                (forest.parent[x] == NONE || forest.parent[x] in transforms) && PlacedBelow(g, transforms, x, forest.parent[x])
    {
      hide WellFormed;
      hide HeadsOk;
      hide SiblingsOk;
      hide WorldsOk;
      hide Under;
      hide FreshBut;
      hide FreshRoots;
      hide SameOutside;
      hide PlacedBelow;
      var roots := GetRoots();
      FreshRootsNone(g, forest, transforms, roots);
      var i := 0;
      while i < |roots|
        invariant Structure() && i <= |roots|
        invariant FreshRoots(g, forest, transforms, roots, i)
        invariant Locals(transforms) == old(Locals(transforms))
      {
        ghost var t := transforms;
        assert roots[i] in roots;
        ghost var visited := PropagateTransformSubtree(roots[i]);
        FreshRootsStep(g, forest, t, transforms, roots, i);
        SameOutsideLocals(forest, t, transforms, roots[i]);
        i := i + 1;
      }
      FreshRootsAll(g, forest, transforms, roots);
      AllFreshMeans(g, forest, transforms);
    }

    /** The world matrix of `entity`, multiplied together from the bottom up. */
    method FromLocalToWorld(entity: Entity) returns (ok: bool, world: M)
      requires Structure()
      ensures ok <==> entity in forest.parent
      ensures ok ==> world == Product(g, PathLocals(forest, transforms, entity), g.one)
    {
      hide WellFormed;
      hide HeadsOk;
      hide SiblingsOk;
      ForestKeys(forest);
      world := g.one;
      if entity !in transforms {
        return false, world;
      }
      var current := entity;
      while current.Valid()
        invariant current == NONE || current in hierarchy
        invariant Product(g, PathLocals(forest, transforms, entity), g.one) ==
                  Product(g, if current == NONE then [] else PathLocals(forest, transforms, current), world)
        decreases if current == NONE then 0 else forest.depth[current] + 1
      {
        ReadLinks(hierarchy, forest, current);
        PathStep(g, forest, transforms, current, world);
        world := g.multiply(g.matrixOf(transforms[current].local), world);
        current := GetParent(current);
      }
      return true, world;
    }
  
    /** In every valid scene each cached world, matrix and values, is what the local values from the root down add
        up to, and what the parent's gives with the entity's own. */
    lemma CachedWorldIsFold(entity: Entity)
      requires Valid() && entity in hierarchy
      ensures transforms[entity].world.matrix == PathMatrix(g, PathLocals(forest, transforms, entity))
      ensures transforms[entity].world.values == PathValues(g, PathLocals(forest, transforms, entity))
      ensures hierarchy[entity].parent == NONE || hierarchy[entity].parent in transforms
      ensures PlacedBelow(g, transforms, entity, hierarchy[entity].parent)
    {
      hide WellFormed;
      hide Links.Linked;
      hide WorldsOk;
      hide PlacedBelow;
      Parts();
      WorldIsFold(g, forest, transforms, entity);
      AllFreshMeans(g, forest, transforms);
      ReadLinks(hierarchy, forest, entity);
    }

    // ----- Keeping the world while moving -----

    /** SetParent, with the choice to keep the local values or to keep the world. */
    method SetParentMode(child: Entity, parent: Entity, position: nat, mode: ReparentMode) returns (ok: bool)
      requires Structure() && Fresh()
      modifies this`hierarchy, this`transforms, this`forest
      ensures Structure() && Fresh() && hierarchy.Keys == old(hierarchy.Keys)
      ensures !ok ==> forest == old(forest) && hierarchy == old(hierarchy) && transforms == old(transforms)
      ensures ok ==> CanMove(old(forest), child, parent, position) && forest == Move(old(forest), child, parent, position)
      ensures mode.PreserveLocal? || old(GetParent(child)) == parent ==>
                && (ok <==> CanMove(old(forest), child, parent, position))
                && Locals(transforms) == old(Locals(transforms))
      ensures mode.PreserveWorld? && old(GetParent(child)) != parent ==>
                var moved := Relocation(g, old(forest), old(transforms), child, parent);
                && (ok <==> CanMove(old(forest), child, parent, position) && moved.Some?)
                && (ok ==> Locals(transforms) == old(Locals(transforms))[child := moved.value])
    {
      hide WellFormed;
      hide HeadsOk;
      hide SiblingsOk;
      hide Move;
      hide Under;
      hide WorldsOk;
      hide Without;
      hide Locals;
      ForestKeys(forest);
      if mode.PreserveLocal? || GetParent(child) == parent {
        ok := SetParent(child, parent, position);
        return;
      }
      var childOk, childWorld := FromLocalToWorld(child);
      if !childOk {
        return false;
      }
      var parentOk, parentWorld := FromLocalToWorld(parent);
      if !parentOk {
        return false;
      }
      var newLocal := g.relocate(parentWorld, childWorld);
      if newLocal.None? {
        return false;
      }
      ok := SetParent(child, parent, position);
      if !ok {
        return;
      }
      var updated := SetLocal(child, newLocal.value);
      assert updated;
    }

    /** Unparent, with the choice to keep the local values or to keep the world. */
    method UnparentMode(child: Entity, mode: ReparentMode) returns (ok: bool)
      requires Structure() && Fresh()
      modifies this`hierarchy, this`transforms, this`forest
      ensures Structure() && Fresh() && hierarchy.Keys == old(hierarchy.Keys)
      ensures !ok ==> forest == old(forest) && hierarchy == old(hierarchy) && transforms == old(transforms)
      ensures ok ==> child in old(forest.parent) && old(forest.parent[child]) != NONE && forest == Detach(old(forest), child)
      ensures mode.PreserveLocal? ==>
                && (ok <==> child in old(forest.parent) && old(forest.parent[child]) != NONE)
                && Locals(transforms) == old(Locals(transforms))
      ensures mode.PreserveWorld? ==>
                var moved := Relocation(g, old(forest), old(transforms), child, NONE);
                && (ok <==> child in old(forest.parent) && old(forest.parent[child]) != NONE && moved.Some?)
                && (ok ==> Locals(transforms) == old(Locals(transforms))[child := moved.value])
    {
      hide WellFormed;
      hide HeadsOk;
      hide SiblingsOk;
      hide Detach;
      hide Under;
      hide WorldsOk;
      hide Locals;
      ForestKeys(forest);
      if mode.PreserveLocal? {
        ok := Unparent(child);
        return;
      }
      if child in hierarchy {
        LinkCheckPasses(hierarchy, forest, child);
      }
      if !GetParent(child).Valid() {
        return false;
      }
      var childOk, childWorld := FromLocalToWorld(child);
      if !childOk {
        return false;
      }
      var newLocal := g.relocate(g.one, childWorld);
      if newLocal.None? {
        return false;
      }
      ok := Unparent(child);
      if !ok {
        return;
      }
      ForestKeys(forest);
      var updated := SetLocal(child, newLocal.value);
      assert updated;
    }

    /** Gives `entity` the local values that put its world at `values`, if there are any. */
    method SetWorld(entity: Entity, values: L) returns (ok: bool)
      requires Structure() && Fresh()
      modifies this`transforms
      ensures Structure() && Fresh()
      ensures !ok ==> transforms == old(transforms)
      ensures ok <==> entity in forest.parent && !g.hasZeroScale(values)
                      && g.relocate(ProductAbove(g, forest, old(transforms), entity), g.matrixOf(values)).Some?
      ensures ok ==> Locals(transforms) ==
                     old(Locals(transforms))[entity := g.relocate(ProductAbove(g, forest, old(transforms), entity), g.matrixOf(values)).value]
      ensures ok && Exact(g) && RelocatesExactly(g) ==> transforms[entity].world.matrix == g.matrixOf(values)
      ensures ok ==> forall x :: x in transforms && !Under(forest, x, entity) ==> transforms[x] == old(transforms)[x]
    {
      hide WellFormed;
      hide HeadsOk;
      hide SiblingsOk;
      hide Under;
      hide WorldsOk;
      hide Locals;
      hide PathLocals;
      ForestKeys(forest);
      if g.hasZeroScale(values) || entity !in transforms {
        return false;
      }
      LinkCheckPasses(hierarchy, forest, entity);
      var parentWorld := g.one;
      var parent := GetParent(entity);
      if parent.Valid() {
        var parentOk;
        parentOk, parentWorld := FromLocalToWorld(parent);
        if !parentOk {
          return false;
        }
      }
      var local := g.relocate(parentWorld, g.matrixOf(values));
      if local.None? {
        return false;
      }
      ghost var t := transforms;
      ok := SetLocal(entity, local.value);
      ParentNotUnder(forest, entity);
      if ok && Exact(g) && RelocatesExactly(g) {
        RelocatedWorld(g, forest, t, transforms, entity, g.matrixOf(values));
      }
    }
  }

  datatype ReparentMode = PreserveLocal | PreserveWorld
}
