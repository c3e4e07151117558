# TechEngine in Dafny

A model of the linked, indexed and scheduled state of the TechEngine game engine, with proofs of what its
operations promise. Where the engine changes fields in place, so does the model: each such class is a Dafny class,
its methods are proved against functions of the old state, and the laws are proved about those functions.

- **Scene** (`Forest`, `Links`, `Worlds`, `Geometry`, `EntitySlots`, `Scene`). Parent, first, last, previous and next
  links with a child count spell out an ordered forest; a walk by links alone keeps a cached world transform per
  entity. `Forest` is the forest as a value, `Links` says when link fields spell it out and what splicing does to
  them, `Worlds` says when caches are fresh.
- **Scene files** (`BreadthFirst`, `Rebuild`, `Components`, `SceneFile`, `SceneAsset`). Rows listed breadth first,
  references renumbered on the way out and back, and a scene rebuilt from bytes row by row on top of `SetParent`.
  `SceneFile` is about the bytes alone: what is written for rows, and a scan that takes exactly that.
- **Editor drops** (`PreorderLists`, `EditorSnapshot`, `HierarchyCommands`). Queries on a depth-tagged list against
  the tree it was flattened from, and a drop followed from the rows shown to the scene it changes.
- **Resource cache** (`ResourceGraph`, `ResourceStates`, `ResourceCache`, `SceneHold`, `SceneLoad`). Counts,
  dependency edges, loads running beside the owner, deferred frees, and loading a scene through all of it, from a
  request to a scene with every handle filled in. `ResourceGraph` is about counts, paths and what is wanted;
  `ResourceStates` about what all the fields say together.
- **Schedules** (`ScheduleAccess`, `ConstraintGraph`, `TaskGraph`, `SerialExecutor`). Access masks, edges, levels,
  cycles, and why the order within a level does not matter.
- **Archetypes** (`ArchetypeTables`, `Archetype`, `ArchetypeStorage`, `Query`). Columns with swap-remove, locations,
  cached transitions and a query cache, seen from outside as a map from entity to its components (`Seen`).
- **Packs** (`Serialization`, `PackFormat`, `PackWriter`, `PackReader`, `PackRoundTrip`), **input** (`InputState`,
  `InputBuffer`) and **jobs** (`JobSystem`).

How to read it: a predicate named `Valid`, `Structure`, `...Ok` or `...At` is an invariant; a `ghost` field is what a
proof needs and the engine does not store. `Live`, `Seen`, `S`, `forest` and `graph` are the abstract states that
contracts speak of. Each critical section is one method, so an interleaving is a sequence of calls; worker steps that
may fall inside an operation of the owner are called there (`WorkersMayRun`, `PublishNext`, `Wait`).

Assumptions a caller makes explicit: `Geometry` is a record of operations handed to a scene. `Sound` (what the
code needs: a new entity's world is its initial local below no parent, and relocation gives no zero scale) is required
by the constructor; `Exact`, `RelocatesExactly` and `AlwaysRelocates` (arithmetic without rounding, relocation that
never refuses) stand in front of the laws that need them and nowhere else. Conditions the engine checks on its callers
are preconditions; conditions it checks on itself are proved never to fail.

`RecordOk` and `HandlesOk` say what a component type brings along: its bytes decode to what was encoded but for
generations and resource handles, replacing references composes, filling puts beside each id its handle and changes
nothing else, emptying leaves none, and built-in types start without references. The type of the local transform values
refers to no resource.

A source is healthy, and a graph `Sane`, when everything available can be loaded and refers only to known resources
numbered below it. No contract requires that; where it holds, loading is shown to succeed, and without it every error
that comes back is tied to an entry that failed.

Four places where the code decides and a reader might expect otherwise. A single-entity drop onto a gap of the same
root list is refused, because roots have no order (`ResolveDropOne`). The last child dropped at a gap past the end is
answered with yes although nothing changes (`DropPastTheEnd`; `DropOneTells` says exactly when the answer is right).
Entities of one selection keep their order, but one that refuses the world-preserving move drops out of the splice
while the others still go in one behind the other (`ReparentEntityCommand.Apply`). A release checks that the count is
positive, which does not make it the release of a holder: the cache stays in order exactly if it is one
(`ReleaseExactly`, `Release`).

## Model

| member | source | states |
|---|---|---|
| Forests.PreorderMembers | engine/core/src/scene/Scene.cpp:217-252 | the walk order names exactly the entities at or below its root |
| Forests.PreorderDistinct | engine/core/src/scene/Scene.cpp:217-252 | and each of them once |
| Forests.PreorderDown | engine/core/src/scene/Scene.cpp:234-237 | stepping to the first child, or to what is left when there is none, follows the preorder |
| Forests.PreorderNext | engine/core/src/scene/Scene.cpp:239-247 | stepping to the next sibling, or climbing, follows the preorder |
| Forests.MoveResult | engine/core/src/scene/Scene.cpp:377-404 | a permitted move leaves a forest in which the new parent's children are the old ones without the child, with it inserted at the position, and no other parent or list changes but for losing the child |
| Forests.DetachWellFormed | engine/core/src/scene/Scene.cpp:458-472 | cutting a child off keeps the forest well formed |
| Forests.AttachWellFormed | engine/core/src/scene/Scene.cpp:391-404 | putting a root anywhere outside its own subtree keeps the forest acyclic and well formed |
| Forests.PruneResult | engine/core/src/scene/Scene.cpp:99-125 | removing a subtree leaves everybody else with their own parent and their own children but for the removed one |
| Links.LinkCheckPasses | engine/core/src/scene/Scene.cpp:328-338 | links that spell out a forest pass the consistency checks before a splice, so those refusals never happen |
| Links.ListEnds | engine/core/src/scene/Scene.cpp:340-348 | the child count, less one for a child that stays, and the last-child shortcut agree with the children other than the moved one |
| Links.UnlinkLinked | engine/core/src/scene/Scene.cpp:377-389 | the writes that unlink a child turn links of the forest into links of the forest without it |
| Links.RelinkLinked | engine/core/src/scene/Scene.cpp:391-404 | the writes that relink it turn those into links of the forest with it at the position |
| Links.PruneLinked | engine/core/src/scene/Scene.cpp:118-126 | dropping the rows of a cut-off subtree leaves links of the remaining forest |
| Worlds.WalkVisits | engine/core/src/scene/Scene.cpp:219-232 | one step of the walk refreshes one entity and keeps what the walk has established |
| Worlds.FreshEverywhere | engine/core/src/scene/Scene.cpp:217-252 | refreshing one subtree of a scene whose other caches agree makes every cache agree |
| Worlds.WorldIsFold | engine/core/src/scene/Transform.cpp:65-70 | with caches that agree with the parent's, each cached matrix is the product of the local matrices from the root down, and the cached values are the combined local values, placed where the matrices put them |
| Worlds.WorldOkMeans | engine/core/src/scene/Transform.cpp:65-70 | a cache agrees exactly if its matrix is the parent's times the local one, and its values are the parent's combined with the local ones, placed by that matrix; below nobody the unit matrix and the initial values take the parent's place |
| Worlds.WorldsDetermined | engine/core/src/scene/Transform.cpp:65-70 | the forest and the local values leave no choice for the caches |
| Worlds.ReparentKeepsWorlds | engine/core/src/scene/Scene.cpp:411-436 | in exact arithmetic a world-preserving reparent changes no world matrix of the scene |
| Worlds.CachedIsProduct | engine/core/src/scene/Scene.cpp:180-193 | in exact arithmetic the cached world matrix is the product found by climbing to the root |
| Worlds.RelocatedWorld | engine/core/src/scene/Transform.cpp:55-63 | local values relocated under what is above an entity put its world matrix where it was asked to be, in exact arithmetic |
| Scenes.Scene.constructor | engine/core/src/scene/Scene.cpp:75-76 | a new scene is empty and valid |
| Scenes.Scene.CreateEntity | engine/core/src/scene/Scene.cpp:80-88 | a new entity is a root nobody ever had a handle of; nothing else changes |
| Scenes.Scene.DestroyEntity | engine/core/src/scene/Scene.cpp:89-127 | exactly the subtree goes, every other transform stays as it was, and the inner checks never fail |
| Scenes.Scene.CollectSubtree | engine/core/src/scene/Scene.cpp:99-116 | the list collected by first-child and next-sibling links is the subtree, each entity once |
| Scenes.Scene.AppendChildren | engine/core/src/scene/Scene.cpp:107-115 | following siblings from the first child appends all children in order |
| Scenes.Scene.Clear | engine/core/src/scene/Scene.cpp:133-139 | the scene is empty and valid afterwards and no handle comes back |
| Scenes.Scene.FromLocalToWorld | engine/core/src/scene/Scene.cpp:180-193 | it succeeds exactly for live entities, with the product of the local matrices up to the root |
| Scenes.Scene.PropagateTransforms | engine/core/src/scene/Scene.cpp:211-215 | every cache is fresh afterwards, whatever was stale: matrix and values are what the parent's give with the local ones; no local value changes |
| Scenes.Scene.PropagateTransformSubtree | engine/core/src/scene/Scene.cpp:217-252 | the stackless walk ends, visits the subtree once in preorder, leaves every cache there with the matrix and the values that the parent's give with the local ones, and changes nothing outside |
| Scenes.Scene.GetRoots | engine/core/src/scene/Scene.cpp:259-268 | exactly the entities without a parent, each once |
| Scenes.Scene.GetChildren | engine/core/src/scene/Scene.cpp:270-291 | following siblings gives the children in order |
| Scenes.Scene.IsAtOrAbove | engine/core/src/scene/Scene.cpp:309-320 | climbing parents tells whether one entity is at or above another |
| Scenes.Scene.MayMove | engine/core/src/scene/Scene.cpp:298-343 | all checks before a move together hold exactly when the move makes sense in the forest |
| Scenes.Scene.FindInsertion | engine/core/src/scene/Scene.cpp:345-375 | the two neighbours found are those of the position among the other children |
| Scenes.Scene.Unlink | engine/core/src/scene/Scene.cpp:377-389 | the link writes cut the child off in the forest |
| Scenes.Scene.Relink | engine/core/src/scene/Scene.cpp:391-404 | the link writes put it at the position in the forest |
| Scenes.Scene.MoveLinks | engine/core/src/scene/Scene.cpp:345-404 | the link writes of a permitted move together perform the move |
| Scenes.Scene.SetParent | engine/core/src/scene/Scene.cpp:293-409 | it succeeds exactly on permitted moves and performs the move; a refusal changes nothing; fresh caches stay fresh |
| Scenes.Scene.SetParentMode | engine/core/src/scene/Scene.cpp:411-436 | with a preserved world it succeeds exactly when move and relocation both do, and the late check never fails |
| Scenes.Scene.Unparent | engine/core/src/scene/Scene.cpp:438-476 | it succeeds exactly for live children; a refusal changes nothing; fresh caches stay fresh |
| Scenes.Scene.UnparentMode | engine/core/src/scene/Scene.cpp:478-497 | the same with a preserved world, exactly when the relocation succeeds too |
| Scenes.Scene.ReorderChild | engine/core/src/scene/Scene.cpp:499-509 | the child takes the position among its siblings and nothing else moves |
| Scenes.Scene.SetLocal | engine/core/src/scene/Transform.cpp:41-53 | refuses exactly zero scales and dead entities, and otherwise leaves fresh caches, unchanged outside the subtree |
| Scenes.Scene.OverwriteLocal | engine/core/src/scene/SceneAsset.cpp:178-183 | reading a transform in place changes its local values and refreshes nothing yet |
| Scenes.Scene.AssignLocal | engine/core/src/scene/Transform.cpp:8-20 | assigning a bound transform overwrites its local values, zero scales included, and leaves fresh caches, unchanged outside the subtree |
| Scenes.Scene.SetWorld | engine/core/src/scene/Transform.cpp:55-63 | refuses exactly zero scales, dead entities and worlds that cannot be relocated, and otherwise sets the relocated local values; in exact arithmetic the world matrix is then the one asked for; nothing outside the subtree changes |
| Scenes.Scene.CachedWorldIsFold | engine/core/src/scene/Scene.cpp:217-252 | in every valid scene each cached world, matrix and values, is what the local values along the path from the root add up to |
| EntitySlotsModule.FreeListHead | engine/core/src/scene/EntitySlots.cpp:9-25 | the head of the free list is a usable slot exactly when there is one |
| EntitySlotsModule.TakeSlot | engine/core/src/scene/EntitySlots.cpp:9-25 | the handle of a free or new slot was never issued, and taking it makes it alone live |
| EntitySlotsModule.LeaveSlot | engine/core/src/scene/EntitySlots.cpp:26-45 | freeing or retiring a slot ends exactly its handle |
| EntitySlotsModule.DeadStaysDead | engine/core/src/scene/EntitySlots.cpp:9-89 | over any run a handle that stopped resolving never resolves again |
| EntitySlotsModule.NeverIssuedTwice | engine/core/src/resources/ResourceSlots.cpp:11-52 | over any run no handle is issued by two creations |
| EntitySlotsModule.EntitySlots.Create | engine/core/src/scene/EntitySlots.cpp:9-25 | a handle never issued before joins the live ones; the others keep their slots |
| EntitySlotsModule.EntitySlots.Destroy | engine/core/src/scene/EntitySlots.cpp:26-45 | succeeds exactly for live handles and ends that one; a refusal changes nothing |
| EntitySlotsModule.EntitySlots.SetLocation | engine/core/src/scene/EntitySlots.cpp:58-61 | one slot's location changes and no handle does |
| EntitySlotsModule.EntitySlots.Clear | engine/core/src/scene/EntitySlots.cpp:63-89 | every handle ends, and the free list holds exactly the unretired slots |
| EntitySlotsModule.EntitySlots.CanCreateMore | engine/core/src/scene/EntitySlots.cpp:9-25 | as long as the live handles and the retired slots leave room, another handle can be issued, however often slots were used again |
| EntitySlotsModule.EntitySlots.RetiringTakesLong | engine/core/src/scene/EntitySlots.cpp:26-45 | a slot retires only after every handle it can have was issued, so retired slots are few |
| BreadthFirst.BfsStep | engine/core/src/scene/SceneAsset.cpp:41-49 | appending the children of the next row keeps the list breadth first, each parent before its children |
| BreadthFirst.BfsDone | engine/core/src/scene/SceneAsset.cpp:41-49 | once every row is expanded, the list is exactly the starting trees |
| BreadthFirst.RootsApart | engine/core/src/scene/SceneAsset.cpp:35-36 | the trees of the roots share nothing and cover the forest |
| Rebuild.BuildRoot | engine/core/src/scene/SceneAsset.cpp:141-142 | a row without a parent becomes one more root |
| Rebuild.BuildChild | engine/core/src/scene/SceneAsset.cpp:143-148 | a row with an earlier parent can always be linked as that parent's last child |
| Rebuild.RebuiltIsIsomorphic | engine/core/src/scene/SceneAsset.cpp:127-148 | rebuilding breadth-first rows gives the same parents and the same child order, row by row |
| SceneFiles.FileBack | engine/core/src/scene/SceneAsset.cpp:33-101 | the bytes of rows that fit their fields scan back to their id and rows, with nothing left over |
| SceneFiles.FileLayout | engine/core/src/scene/SceneAsset.cpp:52-55 | where the header, the id and the count of rows stand, by byte position |
| SceneFiles.RowLayout | engine/core/src/scene/SceneAsset.cpp:90-99 | where a row has its number, parent and count, and a block its tag, length and bytes, by byte position |
| SceneFiles.FileWas | engine/core/src/scene/SceneAsset.cpp:103-191 | whatever scans is the bytes of the rows scanned, with some header flags |
| SceneFiles.ScansExactly | engine/core/src/scene/SceneAsset.cpp:103-191 | both directions: bytes scan to an id and rows exactly if they are the bytes written for them |
| SceneFiles.OutOfPlace | engine/core/src/scene/SceneAsset.cpp:127-148 | after good rows, one with the wrong number or below one that is not there yet makes the file malformed, whatever follows |
| SceneFiles.FileLonger | engine/core/src/scene/SceneAsset.cpp:189-191 | anything behind a whole file makes it malformed, and a malformed beginning stays malformed with the same error |
| SceneFiles.CutIsTruncated | engine/core/src/scene/SceneAsset.cpp:111-156 | every truncation of a whole file is refused as truncated |
| SceneFiles.TakeHead | engine/core/src/scene/SceneAsset.cpp:128-139 | an id, a parent and a count are taken, and a row out of place is malformed only once all three are there |
| SceneFiles.TakeBlock | engine/core/src/scene/SceneAsset.cpp:150-156 | a tag and a counted payload are taken, or the bytes were missing |
| SceneFiles.TakeStart | engine/core/src/scene/SceneAsset.cpp:111-120 | header, id and count are taken, or the first error of the three is the reader's |
| Components.BlocksReadBack | engine/core/src/scene/SceneAsset.cpp:150-187 | the blocks of an entity, read over the initial values, restore every stored value and keep the built-in ones |
| Components.ValuesRoundTrip | engine/core/src/scene/SceneAssetRowReader.cpp:11-18 | written, read and resolved, each value is the old one with its entity references renamed and its resource handles emptied, and no reference is out of range |
| Components.RenamingMeans | engine/core/src/scene/SceneAssetRowReader.cpp:11-18 | in a value renamed and emptied, a reference to a listed entity leads to the one in its place and any other nowhere; ids stay and no handle is left |
| Components.ReadingMeans | engine/core/src/scene/SceneAssetRowReader.cpp:11-18 | in a value resolved, every row number has become the entity of that row and null references stay null |
| Components.FillingMeans | engine/core/src/scene/SceneAssetHandleFiller.cpp:10-18 | in a value filled, beside each id stands the handle given for it, or none where none is given, and nothing else changes |
| Components.ReferringKept | engine/core/src/scene/SceneAssetRowReader.cpp:11-21 | resolving entity references leaves the resources referred to alone |
| SceneAssets.ComponentScene.ListRows | engine/core/src/scene/SceneAsset.cpp:35-49 | the rows list all entities breadth first with their parents' rows, and the row map inverts the list |
| SceneAssets.ComponentScene.WriteBlocks | engine/core/src/scene/SceneAsset.cpp:61-94 | the bytes of one block per stored component, references replaced, and their count; it tells exactly if a payload exceeds a block's length |
| SceneAssets.ComponentScene.WriteRow | engine/core/src/scene/SceneAsset.cpp:60-100 | one row's head and its blocks, collected in a buffer of their own first |
| SceneAssets.ComponentScene.WriteRows | engine/core/src/scene/SceneAsset.cpp:60-100 | the bytes of the rows that describe the listed entities, in order |
| SceneAssets.ComponentScene.Write | engine/core/src/scene/SceneAsset.cpp:33-101 | unless a payload is too long, what was in the output stays, followed by the bytes of a file whose rows describe the whole scene and can be read |
| SceneAssets.ComponentScene.AddRow | engine/core/src/scene/SceneAsset.cpp:141-148 | one more row extends what has been built, with the initial values of a new entity |
| SceneAssets.ComponentScene.LinkLast | engine/core/src/scene/SceneAsset.cpp:143-148 | the parent link of a checked row is never rejected |
| SceneAssets.ComponentScene.ReadBlock | engine/core/src/scene/SceneAsset.cpp:158-186 | an unknown tag or a payload that does not decode is skipped, anything else replaces one value |
| SceneAssets.ComponentScene.ReadBlocks | engine/core/src/scene/SceneAsset.cpp:150-187 | the blocks in the bytes act one after the other, on that entity only, until the bytes run out |
| SceneAssets.ComponentScene.ReadRow | engine/core/src/scene/SceneAsset.cpp:127-187 | one row is taken off the bytes and extends what was built and read, or fails as the scan does |
| SceneAssets.ComponentScene.ReadRows | engine/core/src/scene/SceneAsset.cpp:127-188 | building while reading, it ends with what the scan of all rows gives, or with its error and an empty scene |
| SceneAssets.ComponentScene.VisitEntity | engine/core/src/scene/SceneAsset.cpp:295-304 | every value of one entity is changed as the visitor says, and it is told if one is of its kind |
| SceneAssets.ComponentScene.VisitReferences | engine/core/src/scene/SceneAsset.cpp:289-306 | the breadth-first walk visits the values of every entity once |
| SceneAssets.ComponentScene.ResolveReferences | engine/core/src/scene/SceneAsset.cpp:193-197 | every entity reference in the scene is replaced, and one past the last row is reported |
| SceneAssets.ComponentScene.CollectEntity | engine/core/src/scene/SceneAssetIdCollector.cpp:11-18 | the resources of one entity join the list, none twice |
| SceneAssets.ComponentScene.CollectReferences | engine/core/src/scene/SceneAsset.cpp:283-287 | exactly the resources some value of the scene refers to, each once |
| SceneAssets.ComponentScene.FillHandles | engine/core/src/scene/SceneAssetHandleFiller.cpp:10-18 | beside every id a value refers to stands the handle given for that id, or none where none is given; ids, entity references and everything else stay, and no cache goes stale |
| SceneAssets.ComponentScene.Fail | engine/core/src/scene/SceneAsset.cpp:106-109 | a failed read leaves an empty valid scene |
| SceneAssets.ComponentScene.Read | engine/core/src/scene/SceneAsset.cpp:103-202 | bytes to scene: the error is exactly the outcome of the bytes; success means a scene of their rows, every row number in a value replaced by the entity of that row, with fresh caches; anything else is an empty scene |
| SceneAssets.ReadsExactly | engine/core/src/scene/SceneAsset.cpp:103-202 | bytes are read exactly if they are those of a file, with some flags, whose rows can be read |
| SceneAssets.CutOrCarriedOn | engine/core/src/scene/SceneAsset.cpp:103-202 | a file that can be read is truncated once it is cut off anywhere, and malformed once anything follows it |
| SceneAssets.MalformedIs | engine/core/src/scene/SceneAsset.cpp:193-197 | the malformed flag of the resolved scene is raised exactly when some row was not readable |
| SceneAssets.WrittenIsReadable | engine/core/src/scene/SceneAsset.cpp:33-101 | what was written can always be read: no check of the reader fires on it |
| SceneAssets.RoundTrip | engine/core/src/scene/SceneAsset.cpp:33-202 | the scene read is isomorphic to the one written; in every value each reference to a listed entity leads to its counterpart and any other nowhere, and the resources referred to are the same with empty handles |
| SceneAssets.Copy | engine/core/src/scene/SceneAsset.cpp:33-202 | unless a payload is too long, writing one scene and reading the bytes into an empty one never fails, gives the id back, leaves the first as it was and makes the second mirror it, forest and values and where each reference leads, with fresh caches |
| PreorderLists.ListingIsDepthFirst | apps/editor/src/edit/EditSession.cpp:84-102 | flattening the trees gives a depth-first list of the whole forest |
| PreorderLists.SubtreeIsRun | apps/editor/src/edit/EditorSnapshot.cpp:56-66 | a subtree is the run of deeper entries after its root, and nothing else |
| PreorderLists.NearestAbove | apps/editor/src/edit/EditorSnapshot.cpp:79-86 | the nearest entry before a row that is one level up is its parent |
| PreorderLists.ParentBefore | apps/editor/src/edit/EditorSnapshot.cpp:79-86 | every child is preceded by its parent |
| PreorderLists.NoShallower | apps/editor/src/edit/EditorSnapshot.cpp:88-97 | going back from a row, no entry further up comes before the parent |
| EditorSnapshots.EditorSnapshot.AppendSubtree | apps/editor/src/edit/EditSession.cpp:87-98 | the recursion appends the rows of the subtree in preorder with their depths |
| EditorSnapshots.EditorSnapshot.BuildSnapshot | apps/editor/src/edit/EditSession.cpp:84-102 | the rows show the whole forest |
| EditorSnapshots.EditorSnapshot.FindRow | apps/editor/src/edit/EditorSnapshot.cpp:69-77 | an entity is found exactly when it is alive |
| EditorSnapshots.EditorSnapshot.IsInSubtree | apps/editor/src/edit/EditorSnapshot.cpp:35-67 | equals the descendant relation of the tree |
| EditorSnapshots.EditorSnapshot.GetParentOfRow | apps/editor/src/edit/EditorSnapshot.cpp:79-86 | equals the parent in the tree |
| EditorSnapshots.EditorSnapshot.GetSiblingIndexOfRow | apps/editor/src/edit/EditorSnapshot.cpp:88-97 | equals the index among the siblings, or among the roots |
| EditorSnapshots.DropOneAt | apps/editor/src/edit/EditorSnapshot.cpp:115-117 | the index a single drop computes puts the child into the gap it was dropped at, and is its old index exactly when the list stays the same or the gap is past the end |
| EditorSnapshots.DropOneTells | apps/editor/src/edit/EditorSnapshot.cpp:115-117 | the answer is right about the list for every child exactly when the gap is not past the end or the child is not the last |
| EditorSnapshots.DropPastTheEnd | apps/editor/src/edit/EditorSnapshot.cpp:115-117 | the last child dropped at a gap past the end: the answer is yes and the list stays the same |
| EditorSnapshots.EditorSnapshot.ResolveDropOne | apps/editor/src/edit/EditorSnapshot.cpp:99-118 | for every gap a permitted drop answers yes exactly when the children change or the gap is past the end, at the position that puts the entity into the gap |
| EditorSnapshots.EditorSnapshot.CheckDragged | apps/editor/src/edit/EditorSnapshot.cpp:125-138 | the loop accepts exactly the drops that put no entity into its own subtree |
| EditorSnapshots.EditorSnapshot.CollectChildren | apps/editor/src/edit/EditorSnapshot.cpp:149-160 | the rows one level deeper in the run are the children in order |
| EditorSnapshots.EditorSnapshot.ResolveDrop | apps/editor/src/edit/EditorSnapshot.cpp:120-178 | a permitted drop succeeds exactly when the children would change, at the position that cuts the kept ones at the gap; at the root, exactly when some dragged entity has a parent |
| EditorSnapshots.TopmostMeans | apps/editor/src/edit/EditorSnapshot.cpp:186-190 | topmost is selected with no other selected entity above |
| EditorSnapshots.TopmostMembers | apps/editor/src/edit/EditorSnapshot.cpp:180-192 | filtering a list keeps exactly its topmost entities |
| EditorSnapshots.TopmostCovers | apps/editor/src/edit/EditorSnapshot.cpp:180-192 | whatever is selected or below a selected entity lies below a topmost one |
| EditorSnapshots.EditorSnapshot.CollectTopmost | apps/editor/src/edit/EditorSnapshot.cpp:180-192 | the path flags pick out exactly the selected entities with no other selected entity above, in the order of the rows |
| HierarchyCommands.ReparentEntityCommand.IsInMovedSubtree | apps/editor/src/edit/HierarchyCommands.cpp:124-131 | climbing finds a moved entity exactly when there is one at or above |
| HierarchyCommands.ReparentEntityCommand.GetInsertAnchor | apps/editor/src/edit/HierarchyCommands.cpp:133-146 | the last of the first unmoved children up to the position, or none |
| HierarchyCommands.ReparentEntityCommand.GetPositionAfter | apps/editor/src/edit/HierarchyCommands.cpp:148-163 | the place right behind the anchor among the other children |
| HierarchyCommands.SpliceStep | apps/editor/src/edit/HierarchyCommands.cpp:105-114 | putting the next child right behind the previous one extends the splice by it, whatever unmoved or unprocessed children lie between |
| HierarchyCommands.SpliceMoves | apps/editor/src/edit/HierarchyCommands.cpp:106-107 | every move of the loop is permitted, so only the world-preserving check can refuse one |
| HierarchyCommands.SpliceRefuses | apps/editor/src/edit/HierarchyCommands.cpp:108-111 | a refused child drops out and the splice goes on |
| HierarchyCommands.SpliceEnds | apps/editor/src/edit/HierarchyCommands.cpp:104-117 | a finished loop leaves the accepted children one behind the other at the cut |
| HierarchyCommands.PathUntouched | apps/editor/src/edit/HierarchyCommands.cpp:99-102 | moves of entities not above the target keep it outside the moved subtrees |
| HierarchyCommands.MoveKeepsMatrices | apps/editor/src/edit/HierarchyCommands.cpp:107-107 | in exact arithmetic a world-preserving move keeps every world matrix |
| HierarchyCommands.ReparentEntityCommand.MakeRoots | apps/editor/src/edit/HierarchyCommands.cpp:76-93 | each accepted child becomes a root and nothing else moves |
| HierarchyCommands.ReparentEntityCommand.Splice | apps/editor/src/edit/HierarchyCommands.cpp:104-117 | the parent's children become what is kept before the cut, the accepted ones, and what is kept after it |
| HierarchyCommands.ReparentEntityCommand.Apply | apps/editor/src/edit/HierarchyCommands.cpp:64-118 | one splice, or nothing at all when a check refuses; refused children drop out; in exact arithmetic nothing moves in the world |
| HierarchyCommands.ResolveDraggedDrop | apps/editor/src/ui/panels/HierarchyPanel.cpp:176-181 | for one entity or many and every gap, the answer is yes exactly when the drop changes the children, but for a single entity past the end, with a position that cuts at the gap |
| HierarchyCommands.DropOnHierarchy | apps/editor/src/edit/HierarchyCommands.cpp:64-118 | from the rows shown to the scene, for every gap: the dragged entities end up one behind the other at the gap, or at the end when it is past it, kept children on either side stay in order, and no other parent or list changes but for losing them |
| ResourceGraphs.ReachesIsPath | engine/core/src/resources/ResourceCache.cpp:333-356 | reaching means that a dependency path exists |
| ResourceGraphs.NoCycle | engine/core/src/resources/ResourceCache.cpp:122-126 | in a valid graph no dependency path comes back to its start |
| ResourceGraphs.AddedOk | engine/core/src/resources/ResourceCache.cpp:70-84 | a new entry held once keeps counts and edges in order |
| ResourceGraphs.AcquiredOk | engine/core/src/resources/ResourceCache.cpp:56-63 | one more hold and one more acquire keep them in order |
| ResourceGraphs.ReleasedOk | engine/core/src/resources/ResourceCache.cpp:87-98 | one less of both keeps them in order, and the count was positive |
| ResourceGraphs.ReleaseExactly | engine/core/src/resources/ResourceCache.cpp:87-98 | the counts can stay exact when one goes down exactly if somebody outside held the entry: the engine's own check, that the count is positive, does not suffice |
| ResourceGraphs.LinkedOk | engine/core/src/resources/ResourceCache.cpp:122-127 | turning a hold into an edge that closes no cycle keeps counts exact and edges acyclic |
| ResourceGraphs.FreedOk | engine/core/src/resources/ResourceCache.cpp:319-331 | removing an uncounted entry turns its edges into holds to give back, and no edge dangles |
| ResourceGraphs.VisitedMeansSeen | engine/core/src/resources/ResourceCache.cpp:343-345 | among live entries the slot index alone tells who was visited |
| ResourceGraphs.SearchEnds | engine/core/src/resources/ResourceCache.cpp:333-356 | a search that ran dry proves there is no path |
| ResourceGraphs.ExactlyWanted | engine/core/src/resources/ResourceCache.cpp:299-317 | freeing until nothing is freeable keeps exactly what a hold or a load reaches |
| ResourceGraphs.NothingWanted | engine/core/src/resources/ResourceCache.cpp:299-317 | with nobody holding and nothing loading, nothing is wanted |
| ResourceStates.TaskDoneState | engine/core/src/resources/ResourceCache.cpp:226-252 | a finished task leaves the state in order and its entry alive |
| ResourceStates.PublishedState | engine/core/src/resources/ResourceCache.cpp:200-212 | publishing finds its entry alive and keeps the state in order |
| ResourceStates.EndedStay | engine/core/src/resources/ResourceCache.cpp:184-198 | an entry whose load has ended keeps its state and its error, so the first error stays the first |
| ResourceStates.RefusedStill | engine/core/src/resources/ResourceCache.cpp:212-221 | the reason why a reference was refused stays the reason, whatever is published after it |
| ResourceStates.FirstErrorMeans | engine/core/src/resources/ResourceCache.cpp:184-198 | the first of the errors recorded is why the first completion that failed did, and there is none exactly if none failed |
| ResourceStates.ReachesDown | engine/core/src/resources/ResourceCache.cpp:333-356 | dependencies that lead down in some numbering never lead back up, so nothing below an entry reaches it |
| ResourceCaches.ResourceCache.constructor | engine/core/include/TechEngine/core/resources/ResourceCache.hpp:59-59 | a new cache is empty and valid |
| ResourceCaches.ResourceCache.RoomFromIssued | engine/core/src/resources/ResourceSlots.cpp:11-52 | until about as many handles were issued as the spare slots have generations, there are slots for every known resource, however often slots were used again |
| ResourceCaches.ResourceCache.RequestEntry | engine/core/src/resources/ResourceCache.cpp:52-85 | a known id gains one acquire, a new one an entry in a handle never issued before; an unknown one changes nothing |
| ResourceCaches.ResourceCache.Request | engine/core/include/TechEngine/core/resources/ResourceCache.hpp:79-85 | the caller holds the entry of the id once more, every other entry stays as it was, and ready entries keep what they refer to |
| ResourceCaches.ResourceCache.ReleaseEntry | engine/core/src/resources/ResourceCache.cpp:87-98 | the count goes down, and the cache stays in order exactly if the entry was held from outside |
| ResourceCaches.ResourceCache.Release | engine/core/include/TechEngine/core/resources/ResourceCache.hpp:87-90 | the count goes down, nothing is freed yet, and the cache stays valid exactly if the entry was held from outside |
| ResourceCaches.ResourceCache.ReachesTarget | engine/core/src/resources/ResourceCache.cpp:333-356 | it ends and answers exactly whether a dependency path exists |
| ResourceCaches.ResourceCache.AddEntryDependency | engine/core/src/resources/ResourceCache.cpp:114-128 | it is refused exactly for unknown ids and for edges that would close a cycle, which change no count, and never when references lead down; otherwise the edge is there |
| ResourceCaches.ResourceCache.LinkDependency | engine/core/src/resources/ResourceCache.cpp:122-127 | a hold that closes no cycle becomes a dependency |
| ResourceCaches.ResourceCache.AddDependency | engine/core/include/TechEngine/core/resources/ResourceCache.hpp:116-119 | refused with the one error exactly if there is no entry and the source does not know the id, with the other exactly if a dependency path leads back to the holder, changing no count; the cache stays valid and nobody's outside holds change |
| ResourceCaches.ResourceCache.RunLoadTask | engine/core/src/resources/ResourceCache.cpp:226-252 | in every interleaving the entry a task writes to is alive |
| ResourceCaches.ResourceCache.WorkersMayRun | engine/core/src/resources/ResourceCache.cpp:172-176 | any tasks finishing at any moment keep the cache consistent |
| ResourceCaches.ResourceCache.EndLoad | engine/core/src/resources/ResourceCache.cpp:200-212 | the entry of a completion is alive and ends ready or failed, as its load did, with the error of that load |
| ResourceCaches.ResourceCache.PublishCompletion | engine/core/src/resources/ResourceCache.cpp:200-224 | the entry is found and ends ready, with a dependency for each reference, or failed with the error returned: that of its load, or the reason why its first refused reference was refused |
| ResourceCaches.ResourceCache.AddDependencies | engine/core/src/resources/ResourceCache.cpp:212-223 | the entry depends on all its references in order, or has failed at the first one refused, with the error that says why: nothing there and unknown to the source, or a dependency path back to the entry; none comes up when references lead down |
| ResourceCaches.ResourceCache.SubmitLoads | engine/core/src/resources/ResourceCache.cpp:160-182 | everything pending is handed over once and nothing stays pending |
| ResourceCaches.ResourceCache.WaitForBatches | engine/core/src/resources/ResourceCache.cpp:272-275 | afterwards no task is under way |
| ResourceCaches.ResourceCache.TakeCompletions | engine/core/src/resources/ResourceCache.cpp:185-189 | all completions so far are taken at once and the cache stays consistent with them in hand |
| ResourceCaches.ResourceCache.RemoveCompletions | engine/core/src/resources/ResourceCache.cpp:184-198 | all completions taken are published in order while further tasks finish; the error returned is why the first of them that failed did, and there is one exactly if more entries have failed |
| ResourceCaches.ResourceCache.FreeEntry | engine/core/src/resources/ResourceCache.cpp:319-331 | an uncounted entry goes and gives back each of its dependencies; outside holds stay |
| ResourceCaches.ResourceCache.DrainFrees | engine/core/src/resources/ResourceCache.cpp:299-317 | it ends, keeps exactly what is wanted, never frees what is loading, and empties a cache nobody holds |
| ResourceCaches.ResourceCache.LoadAll | engine/core/src/resources/ResourceCache.cpp:270-293 | over a finite source the rounds end with nothing pending or running; the error returned is why the first of all the completions published that failed did, and what had ended before stays as it was |
| ResourceCaches.ResourceCache.RunLoadingPhase | engine/core/src/resources/ResourceCache.cpp:268-297 | it ends, creates at most one entry per id, leaves none pending or loading, keeps exactly what is wanted, ready entries keep all they refer to; the error returned is why the first load published that failed did, be it the load's own error, a reference unknown to the source or one that leads back: one comes up exactly if an entry failed on the way, none when every load succeeds and leads down |
| ResourceCaches.ResourceCache.ResolvePayload | engine/core/src/resources/ResourceCache.cpp:100-108 | there is a payload exactly for ready entries: what the source holds for that id, until it was moved out |
| ResourceCaches.ResourceCache.TakePayload | engine/core/include/TechEngine/core/resources/ResourceCache.hpp:121-130 | whoever takes the payload of a ready entry first gets what the source holds, and an empty one is left |
| SceneHolds.StillCounted | engine/core/src/scene/SceneAsset.cpp:205-221 | after the drain an entry is counted exactly if somebody outside held it or something wanted depended on it |
| SceneHolds.AddReferences | engine/core/src/scene/SceneAsset.cpp:263-271 | every reference becomes a dependency of the scene's entry, with its handle, unless one is refused, with the error that says why; none is when they lead down |
| SceneHolds.AcquireReferences | engine/core/src/scene/SceneAsset.cpp:259-281 | after loading them the scene's entry still keeps every reference, the handles lead there and nothing is pending; an error is why a reference was refused or why the first load that failed did; from a healthy source nothing fails |
| SceneHolds.HoldAlone | engine/core/src/scene/SceneAsset.cpp:209-221 | refused as loaded exactly when the entry was counted before, as unknown exactly when the source does not know the id; otherwise the caller alone counts it |
| SceneHolds.HoldScene | engine/core/src/scene/SceneAsset.cpp:205-221 | a scene is refused as loaded exactly when somebody keeps it, as unknown exactly when the source does not know it; one that is taken was not loaded before this call, so its bytes are still there |
| SceneHolds.LoadPayload | engine/core/src/scene/SceneAsset.cpp:223-241 | a held scene survives the loading phase, and its payload is what the source holds and is taken; it is refused with the error of the first load that failed, if one did; from a healthy source it is there exactly if the source has the scene |
| SceneLoads.RebuiltRefers | engine/core/src/scene/SceneAsset.cpp:283-287 | a scene read refers to exactly the resources its rows refer to |
| SceneLoads.ReadScene | engine/core/src/scene/SceneAsset.cpp:243-248 | reading ends with the outcome of the bytes, and the resources collected are exactly those the rows refer to |
| SceneLoads.LoadHeld | engine/core/src/scene/SceneAsset.cpp:223-256 | from the payload to a scene in which beside every id referred to stands the handle of that id's entry, or an empty scene and the same holds |
| SceneLoads.Load | engine/core/src/scene/SceneAsset.cpp:204-281 | every failure leaves an empty scene and the caller's holds as they were, and an unknown id or unreadable bytes are told as such; success gives the scene its bytes say, beside every id referred to the handle of its entry, which the scene's entry keeps; from a healthy source it succeeds exactly if nobody keeps the scene and it is there and readable |
| ScheduleAccesses.Conflicts | engine/core/src/systems/ScheduleAccess.cpp:8-20 | word by word, exactly when one writes what the other touches |
| ScheduleAccesses.OrWord | engine/core/src/systems/ScheduleAccess.cpp:61-66 | the bits of one word are set, others kept, the mask long enough |
| ScheduleAccesses.SetBit | engine/core/src/systems/ScheduleAccess.cpp:57-59 | exactly one more component is in the mask |
| ScheduleAccesses.DeclareAccess | engine/core/src/systems/ScheduleAccess.cpp:34-41 | the access touches and writes exactly what was declared |
| ScheduleAccesses.Merge | engine/core/src/systems/ScheduleAccess.cpp:43-50 | exactly the union of two declarations |
| ConstraintGraphs.LevelIsLongestChain | engine/core/src/systems/TaskGraph.cpp:80-110 | a system's level is the length of the longest chain of constraints before it |
| ConstraintGraphs.BackEdge | engine/core/src/systems/TaskGraph.cpp:131-135 | an edge back into the search path closes a cycle of real edges |
| ConstraintGraphs.AllFinished | engine/core/src/systems/TaskGraph.cpp:138-153 | a search that finished everywhere proves there is no cycle |
| ConstraintGraphs.NeverStuck | engine/core/src/systems/TaskGraph.cpp:83-90 | without a cycle some unprocessed system waits for nothing |
| TaskGraphs.AddEdge | engine/core/src/systems/TaskGraph.cpp:115-121 | one more edge, never twice, the counts of incoming edges kept exact |
| TaskGraphs.AddExplicitEdges | engine/core/src/systems/TaskGraph.cpp:39-50 | exactly the declared orders become edges, which `MustPrecedeMeans` spells out, and the matrix records both directions |
| TaskGraphs.AddTerminalEdges | engine/core/src/systems/TaskGraph.cpp:52-63 | exactly the edges from regular to terminal systems are added |
| TaskGraphs.AddConflictEdges | engine/core/src/systems/TaskGraph.cpp:65-78 | exactly the undecided conflicts get an edge, by priority, or a conflict of equal priorities is reported |
| TaskGraphs.FindCycleFrom | engine/core/src/systems/TaskGraph.cpp:123-141 | finds a real cycle, or leaves the node finished and the path as it was |
| TaskGraphs.FindCycle | engine/core/src/systems/TaskGraph.cpp:143-153 | a non-empty answer is a cycle of edges; an empty one means there is none |
| TaskGraphs.ReleaseReady | engine/core/src/systems/TaskGraph.cpp:104-108 | after a round each count is again the number of unprocessed systems waited for |
| TaskGraphs.BuildLevels | engine/core/src/systems/TaskGraph.cpp:80-110 | levels come out exactly when there is no cycle, and otherwise a cycle does |
| TaskGraphs.ConflictsOrdered | engine/core/src/systems/TaskGraph.cpp:65-78 | any two conflicting systems are ordered one way or the other |
| TaskGraphs.LevelsAreApart | engine/core/src/systems/TaskGraph.cpp:80-110 | no two systems of a level conflict |
| TaskGraphs.Build | engine/core/src/systems/TaskGraph.cpp:35-110 | the edges mean the three kinds of constraint, the graph is built exactly when priorities differ and no cycle exists, levels hold no conflict, and of two systems the one that is declared, slotted or ranked before the other is in the earlier level |
| TaskGraphs.MustPrecedeMeans | engine/core/src/systems/TaskGraph.cpp:39-78 | who must run before whom, from the declarations alone: who asked to run before or after whom, regular before terminal, and between conflicting systems of one slot that do not name each other the lower priority |
| TaskGraphs.PrioritiesMean | engine/core/src/systems/TaskGraph.cpp:66-72 | priorities have to decide exactly between conflicting systems of one slot that do not name each other |
| TaskGraphs.LevelsAsAsked | engine/core/src/systems/TaskGraph.cpp:39-48 | a declared order puts the levels of the two systems in that order |
| TaskGraphs.LevelsByRank | engine/core/src/systems/TaskGraph.cpp:52-78 | regular systems are in earlier levels than terminal ones, and of two rivals the one of lower priority |
| SerialExecutors.Commute | engine/core/src/systems/ScheduleAccess.cpp:8-20 | systems that touch only what they declare and do not conflict may swap |
| SerialExecutors.OrderIrrelevant | engine/core/src/systems/SerialExecutor.cpp:115-156 | two orders that agree on conflicting systems give the same components |
| SerialExecutors.LinearOrdersAgree | engine/core/src/systems/SerialExecutor.cpp:115-156 | so do any two orders that keep the edges |
| SerialExecutors.LevelsLinear | engine/core/src/systems/SerialExecutor.cpp:115-116 | level by level keeps the edges and runs everybody once |
| SerialExecutors.LevelOrderIrrelevant | engine/core/src/systems/SerialExecutor.cpp:115-156 | however each level is ordered, the components come out as in the executor's order |
| SerialExecutors.SerialExecutor.Execute | engine/core/src/systems/SerialExecutor.cpp:115-156 | the loops run the levels in order |
| ArchetypeTables.SortedUnique | engine/core/src/scene/ArchetypeStorage.cpp:170-181 | a sorted signature is determined by its types, so comparing signatures compares sets |
| ArchetypeTables.SortSignature | engine/core/src/scene/ArchetypeStorage.cpp:171-173 | sorted, with the same types |
| ArchetypeTables.EnteredView | engine/core/src/scene/ArchetypeStorage.cpp:19-32 | a row appended in an archetype adds one entity to what is seen |
| ArchetypeTables.LeftView | engine/core/src/scene/ArchetypeStorage.cpp:41-47 | a swap-remove with its location fix takes exactly one entity away |
| ArchetypeTables.MovedView | engine/core/src/scene/ArchetypeStorage.hpp:181-204 | appending to one archetype and swap-removing from another changes one entity's values and nobody else's |
| ArchetypeTables.EdgeCached | engine/core/src/scene/ArchetypeStorage.cpp:204-226 | remembering a transition changes nothing that is seen, as long as it leads to the right signature |
| ArchetypeTables.NewTable | engine/core/src/scene/ArchetypeStorage.cpp:184-189 | a new archetype with a new signature changes nothing that is seen |
| ArchetypeTables.AddedRow | engine/core/src/scene/ArchetypeStorage.cpp:50-64 | following an adding transition gives the old row with the type |
| ArchetypeTables.RemovedRow | engine/core/src/scene/ArchetypeStorage.cpp:66-77 | following a removing one gives the old row without it |
| ArchetypeTables.WrittenView | engine/core/src/scene/ArchetypeStorage.cpp:83-100 | writing through a column changes one component of one entity |
| Archetypes.Archetype.constructor | engine/core/src/scene/Archetype.cpp:9-15 | one empty column per type |
| Archetypes.Archetype.Contains | engine/core/src/scene/Archetype.cpp:25-27 | the binary search answers membership |
| Archetypes.Archetype.AddEntity | engine/core/src/scene/Archetype.cpp:39-57 | a row of defaults in every column, row counts equal |
| Archetypes.Archetype.EraseSwap | engine/core/src/scene/Archetype.cpp:59-71 | every column and the entities lose the row and move the last one into its place |
| Archetypes.Archetype.AppendCopy | engine/core/src/scene/ArchetypeStorage.hpp:185-191 | the new row has the copied cells, the added one, and defaults elsewhere |
| ArchetypeStorages.ArchetypeStorage.constructor | engine/core/src/scene/ArchetypeStorage.cpp:13-17 | valid and empty for any hasher |
| ArchetypeStorages.ArchetypeStorage.FindArchetype | engine/core/src/scene/ArchetypeStorage.cpp:175-182 | for any hasher the bucket holds the archetype of the signature exactly when there is one |
| ArchetypeStorages.ArchetypeStorage.GetOrCreate | engine/core/src/scene/ArchetypeStorage.cpp:170-190 | the one archetype with those types, made only if missing, and the revision moves exactly then |
| ArchetypeStorages.ArchetypeStorage.AddEdge | engine/core/src/scene/ArchetypeStorage.cpp:204-214 | cached or new, the transition leads to the signature with the type |
| ArchetypeStorages.ArchetypeStorage.RemoveEdge | engine/core/src/scene/ArchetypeStorage.cpp:216-226 | cached or new, the transition leads to the signature without it |
| ArchetypeStorages.ArchetypeStorage.CreateEntity | engine/core/src/scene/ArchetypeStorage.cpp:19-32 | one new entity with exactly the base types, each at its default |
| ArchetypeStorages.ArchetypeStorage.DestroyEntity | engine/core/src/scene/ArchetypeStorage.cpp:34-48 | exactly that entity goes from what is seen |
| ArchetypeStorages.ArchetypeStorage.PlaceOf | engine/core/src/scene/EntitySlots.cpp:51-56 | a live entity's location leads to its row, and the row names it |
| ArchetypeStorages.ArchetypeStorage.Move | engine/core/src/scene/ArchetypeStorage.hpp:181-204 | the entity has the moved values and nobody else changes |
| ArchetypeStorages.ArchetypeStorage.AddComponent | engine/core/src/scene/ArchetypeStorage.cpp:50-64 | succeeds exactly when alive without the type; the one component seen in addition has the value, and everything else seen stays |
| ArchetypeStorages.ArchetypeStorage.RemoveComponent | engine/core/src/scene/ArchetypeStorage.cpp:66-77 | succeeds exactly when alive with the type, and takes that one away |
| ArchetypeStorages.ArchetypeStorage.Component | engine/core/src/scene/ArchetypeStorage.cpp:87-100 | finds exactly the components seen, with their values |
| ArchetypeStorages.ArchetypeStorage.WriteComponent | engine/core/src/scene/ArchetypeStorage.cpp:83-85 | after a write the component seen has the value written and everything else seen stays |
| ArchetypeStorages.ArchetypeStorage.Clear | engine/core/src/scene/ArchetypeStorage.cpp:102-108 | nothing is seen, handles stay spent, and the revision moves |
| Queries.Query.CurrentStays | engine/core/include/TechEngine/core/scene/Query.hpp:144-147 | a store whose archetypes change only with the revision never makes a stale list pass for current |
| Queries.Query.RefreshMatches | engine/core/include/TechEngine/core/scene/Query.hpp:144-159 | refreshed or not, the list is that of the archetypes with all required types |
| Queries.Query.WhoMatches | engine/core/include/TechEngine/core/scene/Query.hpp:149-157 | an entity has all required types exactly when its archetype matches |
| Queries.AllRowsMembers | engine/core/include/TechEngine/core/scene/Query.hpp:122-130 | the rows of distinct archetypes hold each of their entities once |
| Queries.Query.Each | engine/core/include/TechEngine/core/scene/Query.hpp:116-131 | visits exactly the live entities with all required types, each once, with their values |
| InputStates.KeptReplay | engine/platform/src/input/InputState.cpp:4-50 | replaying only the kept events gives the same held keys, looks and focus |
| InputStates.KeptAre | engine/platform/src/input/InputState.cpp:4-50 | the events kept of a stream are, in order, exactly those after which some key, button or the focus came out differently, and the motions taken with focus |
| InputStates.FoldShows | engine/platform/src/input/InputState.cpp:4-50 | after any stream a key or button is held exactly if there is focus and the last event about it since focus came is a press; the look is what the motions since then add up to; changes of focus are counted |
| InputStates.UnfocusedHoldsNothing | engine/platform/src/input/InputState.cpp:4-50 | after any stream of events, without focus nothing is held and nothing looks, and the unknown key is never held |
| InputBuffers.InputBuffer.Present | engine/platform/src/input/InputBuffer.cpp:10-16 | the event gets the next number, and the presentation state shows what all events so far add up to |
| InputBuffers.InputBuffer.Enqueue | engine/platform/src/input/InputBuffer.cpp:18-31 | the event joins the batch, or the whole batch becomes a lost range |
| InputBuffers.InputBuffer.Publish | engine/platform/src/input/InputBuffer.cpp:10-31 | one more event is published, none is consumed |
| InputBuffers.InputBuffer.Consume | engine/platform/src/input/InputBuffer.cpp:33-60 | recovered or not, the held state shows what everything published adds up to, and everything since the last consume is one batch, of exactly the events that changed something, or one reported range |
| InputBuffers.KeepTaken | engine/platform/src/input/InputBuffer.cpp:50-59 | the in-place filter keeps exactly the events that changed something |
| InputBuffers.ExactlyOneRange | engine/platform/src/input/InputBuffer.cpp:33-60 | every sequence number is in exactly one taken batch or lost range |
| Serialization.LittleEndianRoundTrip | engine/core/src/serialization/Writer.cpp:85-87 | a number that fits its width is read back |
| Serialization.LittleEndianDigit | engine/core/src/serialization/Writer.cpp:85-87 | byte k of a number is its digit k to the base 256 |
| Serialization.Writer.WriteNumber | engine/core/src/serialization/Writer.cpp:35-49 | appends exactly the bytes of the number, its digits to the base 256, least significant first |
| Serialization.Writer.WriteString | engine/core/src/serialization/Writer.cpp:59-67 | appends the length and the bytes, or an empty string when the length does not fit |
| Serialization.Reader.TakeRaw | engine/core/src/serialization/Reader.cpp:143-166 | takes the next bytes when there are enough; after the first failure neither position nor error moves again |
| Serialization.Reader.ReadNumber | engine/core/src/serialization/Reader.cpp:55-81 | the number whose digits to the base 256 are the next bytes, least significant first, and the bytes after it, or zero and a sticky error |
| Serialization.Reader.ReadSpan | engine/core/include/TechEngine/core/serialization/Reader.hpp:78-95 | a count and that many bytes, or an error that tells they were missing |
| Serialization.Reader.ReadHeader | engine/core/src/serialization/Reader.cpp:9-39 | magic first, then version, each with its own error |
| Serialization.HeaderWas | engine/core/src/serialization/Reader.cpp:9-39 | a header is accepted only if its bytes are the magic, the version and some flags |
| PackFormat.PayloadAt | engine/core/src/resources/PackWriter.cpp:83-86 | each payload lies at its offset in the finished pack |
| PackFormat.PayloadsApart | engine/core/src/resources/PackWriter.cpp:50-57 | payloads never overlap |
| PackWriters.PackWriter.Add | engine/core/src/resources/PackWriter.cpp:15-22 | keeps the ids distinct and not null |
| PackWriters.SortById | engine/core/src/resources/PackWriter.cpp:32-35 | strictly increasing ids, a permutation of the entries |
| PackWriters.PayloadOffsets | engine/core/src/resources/PackWriter.cpp:50-57 | the running position gives each payload its place in the layout |
| PackWriters.PackWriter.WritePayloads | engine/core/src/resources/PackWriter.cpp:83-86 | padding only ever lengthens the output, so nothing written is lost |
| PackWriters.PackWriter.Write | engine/core/src/resources/PackWriter.cpp:28-92 | what was in the output stays, followed by the image of the entries in id order |
| PackReaders.PackReader.Open | engine/core/src/resources/PackReader.cpp:21-103 | succeeds exactly on well-formed files, with exactly their entries; otherwise leaves nothing behind and tells what was wrong: cut off, another magic number, another version, or a table out of order |
| PackReaders.PackReader.ReadTable | engine/core/src/resources/PackReader.cpp:66-90 | accepts exactly tables whose rows are all in order |
| PackReaders.PackReader.Find | engine/core/src/resources/PackReader.cpp:105-112 | the bisection finds exactly the ids that are there |
| PackReaders.PackReader.Read | engine/core/src/resources/PackReader.cpp:126-129 | every listed entry and the boot record are read without fail: exactly as many bytes as the entry says, each the byte of the file at its offset |
| PackRoundTrips.ImageAccepted | engine/core/src/resources/PackReader.cpp:21-103 | a written pack is accepted |
| PackRoundTrips.PayloadReadBack | engine/core/src/resources/PackReader.cpp:126-129 | every payload is read back byte for byte |
| PackRoundTrips.EntriesApart | engine/core/src/resources/PackReader.cpp:80-87 | entries of a written pack lie in order without overlap |
| PackRoundTrips.BootReadBack | engine/core/src/resources/PackReader.cpp:114-120 | the boot record is read back byte for byte |
| PackRoundTrips.FindPayload | engine/core/src/resources/PackReader.cpp:105-129 | in an opened pack the entry found for an id gives that id's payload |
| PackRoundTrips.WriteAndFind | engine/core/src/resources/PackWriter.cpp:28-92 | writing, opening, finding and reading any entry gives its payload |
| PackRoundTrips.PackStart | engine/core/src/resources/PackWriter.cpp:63-68 | the first bytes of a pack, its counts, and the boot record at its aligned offset, by byte position |
| PackRoundTrips.PackLayout | engine/core/src/resources/PackWriter.cpp:70-86 | where in the file the id, type, offset and size of each entry stand, and that its payload and its name are there, by byte position |
| JobSystems.JobSystem.constructor | engine/core/src/jobs/JobSystem.cpp:20-44 | running, nothing accepted |
| JobSystems.JobSystem.Submit | engine/core/src/jobs/JobSystem.cpp:50-73 | a new batch pending with all its tasks, or nothing at all when empty or shut down |
| JobSystems.JobSystem.Take | engine/core/src/jobs/JobSystem.cpp:163-175 | the first task goes to the worker and stays outstanding; a worker returns only from an empty queue after shutdown |
| JobSystems.JobSystem.Finish | engine/core/src/jobs/JobSystem.cpp:189-204 | one more has run, and its batch, which is always found, counts one less |
| JobSystems.FinishedCounts | engine/core/src/jobs/JobSystem.cpp:192-199 | pending counts stay the number of queued and running tasks, and a batch goes exactly at zero |
| JobSystems.JobSystem.WaitReturns | engine/core/src/jobs/JobSystem.cpp:86-89 | when a batch is no longer pending, every task of it has run |
| JobSystems.JobSystem.Wait | engine/core/src/jobs/JobSystem.cpp:75-90 | whatever workers take and finish meanwhile, in any order and side by side, and whatever others submit, waiting ends, and only when the whole batch has run |
| JobSystems.JobSystem.RanOnce | engine/core/src/jobs/JobSystem.cpp:160-206 | no accepted task runs twice |
| JobSystems.JobSystem.Shutdown | engine/core/src/jobs/JobSystem.cpp:92-110 | with workers side by side in any order it ends with every accepted task run exactly once and nothing queued or running |

## Left out

- Wrap-around of the engine's counters (acquire counts, revisions, batch ids, generations of recovery, sequence numbers): they are unbounded here. Slot generations and slot limits do end, as in the engine.
- Rounding and the decomposition of matrices: `Geometry.relocate` stands for inverting, decomposing and refusing, and may refuse whatever it likes.
- Scenes.Scene.GetRoots: the order of the roots is any order of the storage; nothing in the model depends on it.
- Scenes.Scene.CreateEntity: the scene's rows are maps from entity to links and transform here; the columns they live in are modelled in `ArchetypeStorage`.
- Transforms not bound to a scene, names, events, command buffers, change ticks, access validation and the checks that forbid structural changes while systems run.
- SceneAssets.ComponentScene.Write: the encoding of a payload is not modelled, only that it decodes back to what was encoded but for handles. A payload too long for its block stops the engine and is an outcome here. Component types without a payload writer are not part of a registry here.
- EntitySlotsModule.EntitySlots.Create: the entity allocator also stands for the resource allocator, which differs in storing its entries in blocks; that entries keep their address is not modelled.
- ResourceCaches.ResourceCache.RunLoadTask: recognising a resource type by its magic number and type tags are part of `Source.load`; registering loaders, and the warnings at shutdown, are not modelled.
- ResourceCaches.ResourceCache.RunLoadingPhase: the source is finite, no load refers to the null id, and the job system is running.
- SceneLoads.Load: the payload of a resource is any type with bytes in it (`bytesOf`); the warnings are not modelled. The order in which references are collected is that of the walk, but only their set is in the contract.
- ScheduleAccesses.OrWord: a 64-bit word is the set of its bit numbers.
- TaskGraphs.Build: the two conditions that stop the engine, equal priorities and a cycle, are outcomes here. Names, event handlers, freezing the schedule and the text of the cycle message are not modelled.
- SerialExecutors.SerialExecutor.Execute: a system is a function on the component store; handlers, deferred commands, barriers and exceptions are not modelled.
- ArchetypeStorages.ArchetypeStorage.Move: rolling back after an exception is not modelled.
- Archetypes.Archetype.EraseSwap: a column is a sequence of values of one type; typed storage objects are not modelled.
- Queries.Query.Each: the callback is replaced by the list of what it is shown; writes through it are `WriteComponent`.
- InputBuffers.InputBuffer.Publish: keys and buttons are sets of numbers, look is a pair of reals and the clock is a parameter; one publisher at a time, as the sequence counter requires.
- PackWriters.PackWriter.Write: file sizes are bounded by 64 bits (`Fits`) where reading back needs it; entry names are written but, as in the engine, not read back.
- PackReaders.PackReader.Open: the file is a sequence of bytes; errors of the file system are not modelled.
- JobSystems.JobSystem.Wait: a call from a worker thread, which the engine refuses, is not represented; dedicated threads and the thread registry are not modelled.
- Rendering, windowing, the editor's panels apart from the drop, projects, logging and profiling.
