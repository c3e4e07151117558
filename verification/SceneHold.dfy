/** What loading a scene does to the resource cache: holding the scene alone, taking its payload, and making its
    entry keep what the scene refers to. */
module SceneHolds {
  import opened Entities
  import opened EntitySlotsModule
  import opened ResourceGraphs
  import opened ResourceStates
  import opened Sequences
  import opened Wrappers
  import opened ResourceCaches

  /** Why a scene is not taken: somebody keeps it already, it is not ready, or the cache refused. */
  datatype HoldFailure = AlreadyLoaded | NotReady | Refused(error: CacheError)

  // ----- What the scene's entry keeps -----

  /** The entry `s` keeps each of the `references` alive. */
  ghost predicate Keeps(g: Graph, s: Entity, references: seq<ResourceId>) {
    && s in g.entries
    && forall i :: 0 <= i < |references| ==> references[i] in g.byId && g.byId[references[i]] in g.entries[s].dependencies
  }

  /** `handles` has the entry of every reference, and nothing else. */
  ghost predicate Filled(byId: map<ResourceId, Entity>, references: seq<ResourceId>, handles: map<ResourceId, Entity>) {
    && (forall r :: r in handles <==> r in references)
    && (forall r :: r in handles ==> r in byId && byId[r] == handles[r])
  }

  lemma KeepsNothing(g: Graph, s: Entity)
    requires s in g.entries
    ensures Keeps(g, s, [])
  {
  }

  lemma KeepsMore<P>(c0: State<P>, c: State<P>, s: Entity, references: seq<ResourceId>, k: nat, out: Entity)
    requires k < |references| && Keeps(c0.graph, s, references[..k]) && Grown(c0, c)
    requires references[k] in c.graph.byId && c.graph.byId[references[k]] == out
    requires s in c.graph.entries && c.graph.entries[s].dependencies == c0.graph.entries[s].dependencies + [out]
    ensures Keeps(c.graph, s, references[..k + 1])
  {
    hide NoneForgotten;
    var next := references[..k + 1];
    forall i | 0 <= i < |next| ensures next[i] in c.graph.byId && c.graph.byId[next[i]] in c.graph.entries[s].dependencies {
      if i < k {
        assert next[i] == references[..k][i];
      }
    }
  }

  lemma FilledMore<P>(c0: State<P>, c: State<P>, references: seq<ResourceId>, k: nat, handles: map<ResourceId, Entity>)
    requires k < |references| && Filled(c0.graph.byId, references[..k], handles) && Grown(c0, c)
    requires references[k] in c.graph.byId
    ensures Filled(c.graph.byId, references[..k + 1], handles[references[k] := c.graph.byId[references[k]]])
    ensures references[k] in handles ==> handles[references[k] := c.graph.byId[references[k]]] == handles
  {
    hide NoneForgotten;
    assert references[..k + 1] == references[..k] + [references[k]];
  }

  lemma KeepsLater(g0: Graph, g: Graph, s: Entity, references: seq<ResourceId>, handles: map<ResourceId, Entity>)
    requires GraphOk(g0) && GraphOk(g) && Keeps(g0, s, references) && s in g.entries
    requires forall x :: x in g0.entries && x in g.entries ==> EntryKept(g0.entries[x], g.entries[x])
    ensures Keeps(g, s, references) && (Filled(g0.byId, references, handles) ==> Filled(g.byId, references, handles))
  {
    hide HoldersOk;
    hide CountsOk;
    forall i | 0 <= i < |references|
      ensures references[i] in g.byId && g.byId[references[i]] in g.entries[s].dependencies
      ensures references[i] in g0.byId && g.byId[references[i]] == g0.byId[references[i]]
    {
      var d := g0.byId[references[i]];
      assert d in g0.entries && g0.entries[d].id == references[i];
      assert EntryKept(g0.entries[s], g.entries[s]);
      assert EdgesDown(g.entries, g.rank, s);
      assert EntryKept(g0.entries[d], g.entries[d]);
    }
  }

  // ----- Who keeps the scene -----

  /** Somebody outside holds the entry of `id`, or an entry that is wanted itself depends on it. */
  ghost predicate KeptBySomebody(g: Graph, id: ResourceId)
    requires Ranked(g.entries, g.rank)
  {
    id in g.byId && g.byId[id] in g.entries
    && (g.byId[id] in g.holds || exists h :: h in g.entries && g.byId[id] in g.entries[h].dependencies && Wanted(g, h))
  }

  lemma HeldIsLive(g: Graph, s: Entity)
    requires GraphOk(g) && s in g.holds
    ensures s in g.entries && g.entries[s].acquires > 0
  {
    hide Ranked;
    hide HoldersOk;
    assert CountOk(g.entries, g.holds, g.holders, s);
  }

  lemma HeldIsWanted(g: Graph, s: Entity)
    requires GraphOk(g) && s in g.holds
    ensures Ranked(g.entries, g.rank) && Wanted(g, s)
  {
    hide HoldersOk;
    HeldIsLive(g, s);
    assert Root(g, s);
  }

  /** What a wanted entry depends on is wanted too, and counted. */
  lemma WantedEdge(g: Graph, h: Entity, d: Entity)
    requires GraphOk(g) && h in g.entries && d in g.entries[h].dependencies
    ensures d in g.entries && g.entries[d].acquires > 0 && (Wanted(g, h) ==> Wanted(g, d))
  {
    hide IdsOk;
    hide Reaches;
    assert EdgesDown(g.entries, g.rank, h);
    HoldersAt(g, d, h);
    assert h in g.holders[d];
    assert CountOk(g.entries, g.holds, g.holders, d);
    if Wanted(g, h) {
      var r :| Root(g, r) && Reaches(g.entries, g.rank, r, h);
      ReachesNext(g.entries, g.rank, r, h, d);
    }
  }

  /** After a drain the entry of `id` is counted exactly if somebody kept it before. */
  lemma StillCounted(g0: Graph, g1: Graph, id: ResourceId)
    requires GraphOk(g0) && GraphOk(g1) && Thinned(g0, g1) && Ranked(g0.entries, g0.rank)
    requires forall s :: s in g0.entries ==> (s in g1.entries <==> Wanted(g0, s))
    ensures KeptBySomebody(g0, id) <==> id in g1.byId && g1.byId[id] in g1.entries && g1.entries[g1.byId[id]].acquires > 0
  {
    hide HoldersOk;
    hide CountsOk;
    hide Wanted;
    if KeptBySomebody(g0, id) {
      KeptStays(g0, g1, id);
    }
    if id in g1.byId && g1.byId[id] in g1.entries && g1.entries[g1.byId[id]].acquires > 0 {
      CountedWasKept(g0, g1, id);
    }
  }

  lemma KeptStays(g0: Graph, g1: Graph, id: ResourceId)
    requires GraphOk(g0) && GraphOk(g1) && Thinned(g0, g1) && Ranked(g0.entries, g0.rank)
    requires forall s :: s in g0.entries ==> (s in g1.entries <==> Wanted(g0, s))
    requires KeptBySomebody(g0, id)
    ensures id in g1.byId && g1.byId[id] in g1.entries && g1.entries[g1.byId[id]].acquires > 0
  {
    hide HoldersOk;
    hide CountsOk;
    hide Wanted;
    var s := g0.byId[id];
    if s in g0.holds {
      HeldIsWanted(g0, s);
      HeldIsLive(g1, s);
    } else {
      var h :| h in g0.entries && s in g0.entries[h].dependencies && Wanted(g0, h);
      WantedEdge(g0, h, s);
      ThinnedEntry(g0, g1, h);
      WantedEdge(g1, h, s);
    }
    ThinnedEntry(g0, g1, s);
  }

  lemma CountedWasKept(g0: Graph, g1: Graph, id: ResourceId)
    requires GraphOk(g0) && GraphOk(g1) && Thinned(g0, g1) && Ranked(g0.entries, g0.rank)
    requires forall s :: s in g0.entries ==> (s in g1.entries <==> Wanted(g0, s))
    requires id in g1.byId && g1.byId[id] in g1.entries && g1.entries[g1.byId[id]].acquires > 0
    ensures KeptBySomebody(g0, id)
  {
    hide HoldersOk;
    hide CountsOk;
    hide Wanted;
    var s := g1.byId[id];
    ThinnedEntry(g0, g1, s);
    if s !in g1.holds {
      var h := SomeHolder(g1, s);
      ThinnedEntry(g0, g1, h);
    }
  }

  lemma ThinnedEntry(g0: Graph, g: Graph, s: Entity)
    requires Thinned(g0, g) && s in g.entries
    ensures s in g0.entries && SameEntry(g0.entries, g.entries[s], s)
  {
  }

  lemma ThinnedHolds(g0: Graph, g1: Graph)
    requires Thinned(g0, g1)
    ensures g1.holds == g0.holds
  {
  }

  // ----- The references of a scene -----

  /** The entry `s` keeps the references before number `k`, and that one was refused with `error`: there is no entry for
      it and the source does not know it, or depending on it would close a cycle. */
  ghost predicate StoppedAt<P>(source: Source<P>, g: Graph, s: Entity, references: seq<ResourceId>, k: nat, error: CacheError) {
    && k < |references| && Keeps(g, s, references[..k])
    && (error == UnknownResource || error == CyclicReference)
    && (error == UnknownResource <==> references[k] !in g.byId && source.find(references[k]) == Unknown)
    && (error == CyclicReference <==> LeadsTo(g, references[k], s))
  }

  /** Makes the entry of the scene keep everything the scene refers to, until one reference is refused. */
  method AddReferences<P(!new)>(cache: ResourceCache<P>, scene: Entity, references: seq<ResourceId>)
    returns (error: Option<CacheError>, handles: map<ResourceId, Entity>)
    requires cache.Valid() && cache.Room() && NULL_ID !in references
    requires scene in cache.entries && cache.entries[scene].state.Ready?
    modifies cache, cache.slots
    ensures cache.Valid() && cache.Room() && cache.graph.holds == old(cache.graph).holds && cache.emptied == old(cache.emptied)
    ensures scene in cache.entries && cache.entries[scene].id == old(cache.entries)[scene].id
    ensures error.None? ==> Keeps(cache.graph, scene, references) && Filled(cache.graph.byId, references, handles)
    ensures error.Some? ==> exists k: nat :: StoppedAt(cache.source, cache.graph, scene, references, k, error.value)
    ensures cache.log == old(cache.log)
    ensures Sane(cache.source, cache.order, old(cache.graph))
            && LeadDown(cache.source, cache.order, references, old(cache.entries)[scene].id) ==>
              error.None? && Sane(cache.source, cache.order, cache.graph)
  {
    hide ResourceCache.Valid;
    hide ResourceCache.Room;
    hide Grown;
    hide Keeps;
    hide Filled;
    hide GraphOk;
    hide Ranked;
    hide Sane;
    hide LeadDown;
    hide LeadsTo;
    cache.Mirrored();
    error, handles := None, map[];
    KeepsNothing(cache.graph, scene);
    assert references[..0] == [];
    FilledNothing(cache.graph.byId);
    ghost var down := Sane(cache.source, cache.order, cache.graph)
                      && LeadDown(cache.source, cache.order, references, cache.entries[scene].id);
    var k := 0;
    while k < |references|
      invariant k <= |references| && error.None?
      invariant cache.Valid() && cache.Room() && cache.graph.holds == old(cache.graph).holds && cache.emptied == old(cache.emptied)
      invariant scene in cache.entries && cache.entries[scene].state.Ready?
      invariant cache.entries[scene].id == old(cache.entries)[scene].id && cache.log == old(cache.log)
      invariant Keeps(cache.graph, scene, references[..k]) && Filled(cache.graph.byId, references[..k], handles)
      invariant down ==> Sane(cache.source, cache.order, cache.graph)
    {
      ghost var c0 := cache.S();
      cache.Mirrored();
      if down {
        LeadDownOne(cache.source, cache.order, references, k, cache.entries[scene].id);
      }
      var out;
      error, out := cache.AddDependency(scene, references[k]);
      if error.Some? {
        assert StoppedAt(cache.source, cache.graph, scene, references, k, error.value);
        return;
      }
      KeepsMore(c0, cache.S(), scene, references, k, out);
      FilledMore(c0, cache.S(), references, k, handles);
      handles := if references[k] in handles then handles else handles[references[k] := out];
      k := k + 1;
    }
    assert references[..k] == references;
  }

  lemma FilledNothing(byId: map<ResourceId, Entity>)
    ensures Filled(byId, [], map[])
  {
  }

  /** Makes the scene's entry keep its references, loads them, and gives back where they are. */
  method AcquireReferences<P(!new)>(cache: ResourceCache<P>, scene: Entity, references: seq<ResourceId>)
    returns (error: Option<CacheError>, handles: map<ResourceId, Entity>, ghost before: State<P>, ghost published: seq<Completion>)
    requires cache.Valid() && cache.Room() && NULL_ID !in references
    requires scene in cache.entries && cache.entries[scene].state.Ready? && scene in cache.graph.holds
    modifies cache, cache.slots
    ensures cache.Valid() && cache.graph.holds == old(cache.graph).holds && cache.emptied == old(cache.emptied)
    ensures scene in cache.entries && cache.entries[scene].id == old(cache.entries)[scene].id
    ensures error.None? ==> Keeps(cache.graph, scene, references) && Filled(cache.graph.byId, references, handles)
    ensures error.Some? ==>
              || (exists k: nat :: StoppedAt(cache.source, cache.graph, scene, references, k, error.value))
              || (FirstFailure(cache.source, before, published, error) && cache.log == old(cache.log) + published
                  && Thinned(before.graph, cache.graph))
    ensures error.None? ==> forall s :: s in cache.entries ==> !cache.entries[s].loading && !cache.entries[s].state.Pending?
    ensures Sane(cache.source, cache.order, old(cache.graph))
            && LeadDown(cache.source, cache.order, references, old(cache.entries)[scene].id) ==>
              error.None?
  {
    hide ResourceCache.Valid;
    hide ResourceCache.Room;
    hide Keeps;
    hide Filled;
    hide GraphOk;
    hide Ranked;
    hide Wanted;
    hide Thinned;
    hide Sane;
    hide LeadDown;
    hide Told;
    hide StoppedAt;
    hide FirstFailure;
    before, published := cache.S(), [];
    error, handles := AddReferences(cache, scene, references);
    if error.Some? {
      return;
    }
    ghost var g := cache.graph;
    cache.Mirrored();
    error, before, published := cache.RunLoadingPhase();
    cache.Mirrored();
    HeldIsLive(cache.graph, scene);
    KeepsLater(g, cache.graph, scene, references, handles);
  }

  // ----- Holding the scene -----

  /** Holds the scene unless somebody else does. */
  method HoldAlone<P(!new)>(cache: ResourceCache<P>, id: ResourceId) returns (failure: Option<HoldFailure>, scene: Entity)
    requires cache.Valid() && cache.Room() && id != NULL_ID
    modifies cache, cache.slots
    ensures cache.Valid() && |cache.slots.issued| <= old(|cache.slots.issued|) + 1 && cache.emptied == old(cache.emptied)
    ensures failure.Some? ==> cache.graph.holds == old(cache.graph).holds
    ensures failure.None? ==> cache.graph.holds == old(cache.graph).holds + multiset{scene}
    ensures failure.None? ==> scene in cache.entries && cache.entries[scene].id == id
    ensures failure.None? && scene in old(cache.entries) ==>
              old(cache.entries)[scene].acquires == 0 && cache.entries[scene].state == old(cache.entries)[scene].state
    ensures failure.None? && scene !in old(cache.entries) ==>
              scene !in old(cache.slots.issued) && !cache.entries[scene].state.Failed?
    ensures failure == Some(AlreadyLoaded) <==>
              id in old(cache.byId) && old(cache.byId)[id] in old(cache.entries)
              && old(cache.entries)[old(cache.byId)[id]].acquires > 0
    ensures failure.Some? ==> failure == Some(AlreadyLoaded) || failure == Some(Refused(UnknownResource))
    ensures failure == Some(Refused(UnknownResource)) <==> cache.source.find(id) == Unknown
    ensures failure.None? && Sane(cache.source, cache.order, old(cache.graph)) ==>
              Sane(cache.source, cache.order, cache.graph)
  {
    hide ResourceCache.Valid;
    hide ResourceCache.Room;
    hide GraphOk;
    hide Ranked;
    hide Sane;
    cache.Mirrored();
    cache.HeardHere(id);
    cache.RoomFor(id);
    var error;
    error, scene := cache.Request(id);
    if error.Some? {
      return Some(Refused(error.value)), NONE;
    }
    if cache.entries[scene].acquires > 1 {
      cache.Mirrored();
      cache.Release(scene);
      return Some(AlreadyLoaded), NONE;
    }
    failure := None;
  }

  /** Frees what nobody holds, and holds the scene unless somebody else does. What is held was not loaded
      before this call, so nobody can have moved its bytes out. */
  method HoldScene<P(!new)>(cache: ResourceCache<P>, id: ResourceId) returns (failure: Option<HoldFailure>, scene: Entity)
    requires cache.Valid() && id != NULL_ID && |cache.slots.issued| < cache.Capacity()
    modifies cache, cache.slots
    ensures cache.Valid() && |cache.slots.issued| <= old(|cache.slots.issued|) + 1 && cache.emptied == old(cache.emptied)
    ensures failure.Some? ==> cache.graph.holds == old(cache.graph).holds
    ensures failure.None? ==> cache.graph.holds == old(cache.graph).holds + multiset{scene}
    ensures failure.None? ==> scene in cache.entries && cache.entries[scene].id == id
    ensures failure.None? ==> scene !in cache.emptied && !cache.entries[scene].state.Failed?
    ensures failure.None? ==> scene !in old(cache.slots.issued) || (scene in old(cache.entries) && old(cache.entries)[scene].loading)
    ensures Ranked(old(cache.graph).entries, old(cache.graph).rank)
    ensures failure == Some(AlreadyLoaded) <==> KeptBySomebody(old(cache.graph), id)
    ensures failure.Some? ==> failure == Some(AlreadyLoaded) || failure == Some(Refused(UnknownResource))
    ensures failure == Some(Refused(UnknownResource)) <==> cache.source.find(id) == Unknown
    ensures failure.None? && Sane(cache.source, cache.order, old(cache.graph)) ==> Sane(cache.source, cache.order, cache.graph)
  {
    hide ResourceCache.Valid;
    hide ResourceCache.Room;
    hide GraphOk;
    hide Ranked;
    hide Wanted;
    hide Thinned;
    hide KeptBySomebody;
    hide Sane;
    ghost var g0 := cache.graph;
    cache.Mirrored();
    cache.LoadingNotEmptied();
    cache.DrainFrees();
    ghost var g1 := cache.graph;
    cache.Mirrored();
    StillCounted(g0, g1, id);
    ThinnedHolds(g0, g1);
    if Sane(cache.source, cache.order, g0) {
      SaneThinned(cache.source, cache.order, g0, g1);
    }
    cache.RoomFromIssued();
    failure, scene := HoldAlone(cache, id);
    if failure.None? && scene in g1.entries {
      ThinnedEntry(g0, g1, scene);
    }
  }

  // ----- Taking its payload -----

  /** Runs the loading phase and takes the payload of the scene. */
  method LoadPayload<P(!new)>(cache: ResourceCache<P>, scene: Entity)
    returns (failure: Option<HoldFailure>, payload: Option<P>, ghost before: State<P>, ghost published: seq<Completion>)
    requires cache.Valid() && cache.Room() && scene in cache.entries && scene in cache.graph.holds
    modifies cache, cache.slots
    ensures cache.Valid() && cache.graph.holds == old(cache.graph).holds
    ensures |cache.slots.issued| <= old(|cache.slots.issued|) + |cache.known|
    ensures scene in cache.entries && cache.entries[scene].id == old(cache.entries)[scene].id
    ensures failure != Some(AlreadyLoaded) && (failure.None? <==> payload.Some?)
    ensures forall e :: failure == Some(Refused(e)) ==> FirstFailure(cache.source, before, published, Some(e))
    ensures failure.None? || failure == Some(NotReady) ==> FirstFailure(cache.source, before, published, None)
    ensures failure == Some(NotReady) ==> cache.entries[scene].state.Failed? || cache.entries[scene].state.AbsentForRole?
    ensures cache.log == old(cache.log) + published && Thinned(before.graph, cache.graph)
    ensures payload.Some? ==> cache.entries[scene].state.Ready? && cache.source.load(cache.entries[scene].id).Loaded?
    ensures payload.Some? ==>
              payload.value ==
              if scene in old(cache.emptied) then cache.blank else cache.source.load(cache.entries[scene].id).payload
    ensures cache.emptied == if payload.Some? then old(cache.emptied) + {scene} else old(cache.emptied)
    ensures Sane(cache.source, cache.order, old(cache.graph)) ==> Sane(cache.source, cache.order, cache.graph)
    ensures Sane(cache.source, cache.order, old(cache.graph)) && !old(cache.entries)[scene].state.Failed? ==>
              (failure.None? <==> cache.source.find(cache.entries[scene].id) == Available)
  {
    hide ResourceCache.Valid;
    hide ResourceCache.Room;
    hide GraphOk;
    hide Ranked;
    hide Wanted;
    hide Thinned;
    hide Sane;
    hide FirstFailure;
    cache.Mirrored();
    ghost var g0 := cache.graph;
    var error;
    error, before, published := cache.RunLoadingPhase();
    Fewer(before.graph.byId.Keys, cache.known);
    cache.Mirrored();
    HeldIsLive(cache.graph, scene);
    ThinnedEntry(before.graph, cache.graph, scene);
    assert EntryKept(g0.entries[scene], cache.entries[scene]);
    if error.Some? {
      return Some(Refused(error.value)), None, before, published;
    }
    if Sane(cache.source, cache.order, g0) {
      SaneEntry(cache.source, cache.order, cache.graph, scene);
      assert scene in FailedIn(before.graph.entries) ==> scene in FailedIn(g0.entries);
    }
    payload := cache.TakePayload(scene);
    failure := if payload.None? then Some(NotReady) else None;
  }

  lemma SaneEntry<P>(source: Source<P>, order: ResourceId -> nat, g: Graph, s: Entity)
    requires Sane(source, order, g) && s in g.entries
    ensures source.find(g.entries[s].id) == if g.entries[s].state.AbsentForRole? then AbsentHere else Available
  {
    hide Healthy;
    assert EntrySane(source, order, g.entries, s);
  }
}
