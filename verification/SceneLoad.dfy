/** Loading a scene through the resource cache: when it succeeds, what the scene then holds, and what is held of
    the cache afterwards, on success and on every refusal. */
module SceneLoads {
  import opened Entities
  import opened EntitySlotsModule
  import opened Sequences
  import opened Wrappers
  import opened Forests
  import opened Rebuild
  import opened Scenes
  import opened Components
  import opened Serialization
  import opened SceneFiles
  import opened SceneAssets
  import opened ResourceGraphs
  import opened ResourceStates
  import opened ResourceCaches
  import opened SceneHolds

  datatype LoadFailure = NotHeld(why: HoldFailure) | Unreadable(reason: ReadError)

  // ----- Loading -----

  /** Some value in the rows refers to the resource. */
  ghost predicate RowsRefer<C>(records: seq<Record<C>>, rows: seq<Row>, reference: ResourceId) {
    exists i :: 0 <= i < |rows| && RefersToAsset(records, RowValues(records, rows[i]), reference)
  }

  /** What is behind `id` is here, can be loaded, and its bytes read as a scene. */
  ghost predicate IsScene<P(!new), C(!new)>(source: Source<P>, bytesOf: P -> seq<Byte>, records: seq<Record<C>>, id: ResourceId) {
    source.find(id) == Available && source.load(id).Loaded? && Outcome(records, bytesOf(source.load(id).payload)) == None
  }

  /** What is behind `id` was loaded, and reading its bytes as a scene ends with this error. */
  ghost predicate UnreadableFor<P(!new), C(!new)>(source: Source<P>, bytesOf: P -> seq<Byte>, records: seq<Record<C>>,
                                                  id: ResourceId, reason: ReadError)
  {
    source.load(id).Loaded? && Outcome(records, bytesOf(source.load(id).payload)) == Some(reason)
  }

  lemma UnreadableIs<P(!new), C(!new)>(source: Source<P>, bytesOf: P -> seq<Byte>, records: seq<Record<C>>,
                                       id: ResourceId, reason: ReadError)
    requires source.load(id).Loaded? && Outcome(records, bytesOf(source.load(id).payload)) == Some(reason)
    ensures UnreadableFor(source, bytesOf, records, id, reason)
  {
    hide Outcome;
  }

  /** What the scene behind `id` refers to is known and numbered below it. */
  ghost predicate SceneLeadsDown<P(!new), C(!new)>(source: Source<P>, order: ResourceId -> nat, bytesOf: P -> seq<Byte>,
                                                   records: seq<Record<C>>, id: ResourceId)
  {
    IsScene(source, bytesOf, records, id) ==>
      forall r :: RowsRefer(records, ScanFile(bytesOf(source.load(id).payload)).value.1, r) ==>
        source.find(r) != Unknown && order(r) < order(id)
  }

  /** The scene is what `rows` say, with the handles of the resources it refers to filled in. */
  ghost predicate Loaded<C(!new)>(records: seq<Record<C>>, f: Forest, vals: map<Entity, Values<C>>, rows: seq<Row>,
                                  list: seq<Entity>, read: map<Entity, Values<C>>, handles: map<ResourceId, Entity>)
  {
    && Rebuilt(records, f, read, rows, list) && RowsResolved(records, read, rows, list)
    && vals == ChangedAll(records, read, Filling(records, handles)) && AllFilled(records, read, vals, handles)
  }

  /** Beside every id that a value of the scene refers to stands the entry of that id in the cache. */
  ghost predicate HandlesLead<C(!new)>(records: seq<Record<C>>, vals: map<Entity, Values<C>>, byId: map<ResourceId, Entity>) {
    forall e, i, k {:trigger records[i].handles(vals[e][i])[k]} ::
      e in vals && i in vals[e] && 0 <= i < |records| && 0 <= k < |records[i].assets(vals[e][i])| ==>
        && |records[i].handles(vals[e][i])| == |records[i].assets(vals[e][i])|
        && records[i].assets(vals[e][i])[k] in byId
        && records[i].handles(vals[e][i])[k] == byId[records[i].assets(vals[e][i])[k]]
  }

  lemma FilledLeads<C(!new)>(records: seq<Record<C>>, f: Forest, vals: map<Entity, Values<C>>, rows: seq<Row>, list: seq<Entity>,
                             read: map<Entity, Values<C>>, handles: map<ResourceId, Entity>, byId: map<ResourceId, Entity>)
    requires RegistryOk(records) && Rebuilt(records, f, read, rows, list) && read.Keys == f.parent.Keys
    requires AllFilled(records, read, vals, handles)
    requires forall r :: RowsRefer(records, rows, r) ==> r in handles
    requires forall r :: r in handles ==> r in byId && byId[r] == handles[r]
    ensures HandlesLead(records, vals, byId)
  {
    hide RegistryOk;
    hide Rebuilt;
    hide RowsRefer;
    hide SameButHandles;
    forall e, i, k {:trigger records[i].handles(vals[e][i])[k]} |
      e in vals && i in vals[e] && 0 <= i < |records| && 0 <= k < |records[i].assets(vals[e][i])|
      ensures records[i].assets(vals[e][i])[k] in handles && |records[i].handles(vals[e][i])| == |records[i].assets(vals[e][i])|
      ensures records[i].handles(vals[e][i])[k] == handles[records[i].assets(vals[e][i])[k]]
    {
      var id := records[i].assets(vals[e][i])[k];
      assert ValuesFilled(records, read[e], vals[e], handles);
      assert ValueFilled(records[i], read[e][i], vals[e][i], handles);
      SameAssets(records[i], read[e][i], vals[e][i]);
      assert id in records[i].assets(read[e][i]);
      assert Referring(records, id)(i, read[e][i]);
      assert SomeAny(records, read, Referring(records, id));
      RebuiltRefers(records, f, read, rows, list, id);
    }
  }

  lemma SameAssets<C>(r: Record<C>, c: C, c': C)
    requires SameButHandles(r, c, c')
    ensures r.assets(c') == r.assets(c)
  {
  }

  /** `slot` is the entry of `id`, whose payload are the bytes of `rows`; it keeps all that `rows` refer to, and
      `handles` lead there. */
  ghost predicate HoldsScene<P(!new), C(!new)>(source: Source<P>, g: Graph, bytesOf: P -> seq<Byte>, records: seq<Record<C>>,
                                               slot: Entity, id: ResourceId, rows: seq<Row>, handles: map<ResourceId, Entity>)
  {
    && slot in g.entries && g.entries[slot].id == id
    && source.load(id).Loaded? && Outcome(records, bytesOf(source.load(id).payload)) == None
    && rows == ScanFile(bytesOf(source.load(id).payload)).value.1
    && (forall r :: r in handles <==> RowsRefer(records, rows, r))
    && (forall r :: r in handles ==> r in g.byId && g.byId[r] == handles[r] && handles[r] in g.entries[slot].dependencies)
  }

  lemma HeldScene<P(!new), C(!new)>(source: Source<P>, g: Graph, bytesOf: P -> seq<Byte>, records: seq<Record<C>>, slot: Entity,
                                    rows: seq<Row>, references: seq<ResourceId>, handles: map<ResourceId, Entity>)
    requires slot in g.entries && source.load(g.entries[slot].id).Loaded?
    requires Outcome(records, bytesOf(source.load(g.entries[slot].id).payload)) == None
    requires rows == ScanFile(bytesOf(source.load(g.entries[slot].id).payload)).value.1
    requires Keeps(g, slot, references) && Filled(g.byId, references, handles)
    requires forall r :: r in references <==> RowsRefer(records, rows, r)
    ensures HoldsScene(source, g, bytesOf, records, slot, g.entries[slot].id, rows, handles)
  {
    hide ScanFile;
    hide Outcome;
    hide RowsRefer;
    forall r | r in handles ensures r in g.byId && g.byId[r] == handles[r] && handles[r] in g.entries[slot].dependencies {
      var i :| 0 <= i < |references| && references[i] == r;
    }
  }

  /** Resolving the entity references leaves the resources referred to alone. */
  lemma RebuiltRefers<C(!new)>(records: seq<Record<C>>, f: Forest, vals: map<Entity, Values<C>>, rows: seq<Row>, list: seq<Entity>,
                               reference: ResourceId)
    requires RegistryOk(records) && Rebuilt(records, f, vals, rows, list) && vals.Keys == f.parent.Keys
    ensures SomeAny(records, vals, Referring(records, reference)) <==> RowsRefer(records, rows, reference)
    ensures RowsRefer(records, rows, reference) ==> reference != NULL_ID
  {
    hide RegistryOk;
    hide WellFormed;
    hide BuiltRow;
    hide MapValues;
    hide RowValues;
    hide SomeFirst;
    forall i | 0 <= i < |list|
      ensures list[i] in vals
      ensures SomeFirst(vals[list[i]], Referring(records, reference), |records|) <==>
              RefersToAsset(records, RowValues(records, rows[i]), reference)
      ensures RefersToAsset(records, RowValues(records, rows[i]), reference) ==> reference != NULL_ID
    {
      ReferringKept(records, RowValues(records, rows[i]), Reading(list), reference);
      ReferringMeans(records, vals[list[i]], reference);
    }
    if SomeAny(records, vals, Referring(records, reference)) {
      var e :| e in vals && SomeFirst(vals[e], Referring(records, reference), |records|);
      assert e in list;
    }
    if RowsRefer(records, rows, reference) {
      var i :| 0 <= i < |rows| && RefersToAsset(records, RowValues(records, rows[i]), reference);
      assert list[i] in vals;
    }
  }

  /** Reads the scene and lists the resources it refers to. */
  method ReadScene<C(!new), M(!new)>(scene: ComponentScene<C, M>, bytes: seq<Byte>)
    returns (error: Option<ReadError>, references: seq<ResourceId>, ghost rows: seq<Row>, ghost list: seq<Entity>)
    requires scene.Structure() && scene.scene.Stored() && scene.scene.forest == EMPTY && RoomFor(scene.scene.Spare(), bytes)
    modifies scene`values, scene.scene, scene.scene.slots
    ensures scene.Structure() && scene.scene.Stored() && scene.scene.Fresh() && error == Outcome(scene.records, bytes)
    ensures error.Some? ==> scene.scene.forest == EMPTY
    ensures error.None? ==>
              ScanFile(bytes).Got? && rows == ScanFile(bytes).value.1
              && Rebuilt(scene.records, scene.scene.forest, scene.AllValues(), rows, list)
              && RowsResolved(scene.records, scene.AllValues(), rows, list)
    ensures error.None? ==> Distinct(references) && NULL_ID !in references
    ensures error.None? ==> forall r :: r in references <==> RowsRefer(scene.records, rows, r)
  {
    hide *;
    references := [];
    var id;
    error, id, rows, list := scene.Read(bytes);
    if error.Some? {
      return;
    }
    ghost var vals := scene.AllValues();
    scene.Facts();
    scene.StoredOk();
    references := scene.CollectReferences();
    assert scene.AllValues() == vals;
    forall r
      ensures SomeAny(scene.records, vals, Referring(scene.records, r)) <==> RowsRefer(scene.records, rows, r)
      ensures RowsRefer(scene.records, rows, r) ==> r != NULL_ID
    {
      RebuiltRefers(scene.records, scene.scene.forest, vals, rows, list, r);
    }
  }

  /** Loads the bytes of a scene that is held, reads them, and makes the entry keep what the scene refers to. */
  method LoadHeld<P(!new), C(!new), M(!new)>(cache: ResourceCache<P>, slot: Entity, scene: ComponentScene<C, M>, bytesOf: P -> seq<Byte>)
    returns (failure: Option<LoadFailure>, handles: map<ResourceId, Entity>, ghost rows: seq<Row>, ghost list: seq<Entity>,
             ghost read: map<Entity, Values<C>>)
    requires cache.Valid() && slot in cache.entries && slot in cache.graph.holds && slot !in cache.emptied
    requires |cache.slots.issued| + |cache.known| < cache.Capacity() && cache.slots != scene.scene.slots
    requires scene.Structure() && scene.scene.Stored() && scene.scene.forest == EMPTY
    requires cache.source.load(cache.entries[slot].id).Loaded? ==>
               RoomFor(scene.scene.Spare(), bytesOf(cache.source.load(cache.entries[slot].id).payload))
    modifies cache, cache.slots, scene`values, scene.scene, scene.scene.slots
    ensures cache.Valid() && cache.graph.holds == old(cache.graph).holds
    ensures slot in cache.entries && cache.entries[slot].id == old(cache.entries)[slot].id
    ensures scene.Structure() && scene.scene.Stored()
    ensures failure != Some(NotHeld(AlreadyLoaded)) && (failure.Some? ==> scene.scene.forest == EMPTY)
    ensures forall reason :: failure == Some(Unreadable(reason)) ==>
              UnreadableFor(cache.source, bytesOf, scene.records, old(cache.entries)[slot].id, reason)
    ensures failure.None? ==>
              HoldsScene(cache.source, cache.graph, bytesOf, scene.records, slot, old(cache.entries)[slot].id, rows, handles)
    ensures failure.None? ==>
              scene.scene.Fresh() && Loaded(scene.records, scene.scene.forest, scene.AllValues(), rows, list, read, handles)
              && HandlesLead(scene.records, scene.AllValues(), cache.graph.byId)
    ensures failure.None? ==> forall s :: s in cache.entries ==> !cache.entries[s].loading && !cache.entries[s].state.Pending?
    ensures Sane(cache.source, cache.order, old(cache.graph)) && !old(cache.entries)[slot].state.Failed?
            && SceneLeadsDown(cache.source, cache.order, bytesOf, scene.records, old(cache.entries)[slot].id) ==>
              (failure.None? <==> IsScene(cache.source, bytesOf, scene.records, old(cache.entries)[slot].id))
  {
    hide *;
    handles, rows, list, read := map[], [], [], map[];
    ghost var id := cache.entries[slot].id;
    ghost var sane := Sane(cache.source, cache.order, cache.graph) && !cache.entries[slot].state.Failed?;
    SceneMeans(cache.source, cache.order, bytesOf, scene.records, id);
    cache.RoomFromIssued();
    var why, payload;
    ghost var before, published;
    why, payload, before, published := LoadPayload(cache, slot);
    if why.Some? {
      failure := Some(NotHeld(why.value));
      return;
    }
    var error, references;
    error, references, rows, list := ReadScene(scene, bytesOf(payload.value));
    if error.Some? {
      UnreadableIs(cache.source, bytesOf, scene.records, id, error.value);
      failure := Some(Unreadable(error.value));
      return;
    }
    cache.RoomFromIssued();
    ghost var f, vals := scene.scene.forest, scene.AllValues();
    var refused;
    refused, handles, before, published := AcquireReferences(cache, slot, references);
    if refused.Some? {
      scene.Fail();
      failure := Some(NotHeld(Refused(refused.value)));
      return;
    }
    assert scene.scene.forest == f && scene.AllValues() == vals;
    cache.Mirrored();
    HeldScene(cache.source, cache.graph, bytesOf, scene.records, slot, rows, references, handles);
    read := vals;
    scene.Facts();
    scene.StoredOk();
    scene.FillHandles(handles);
    failure := None;
    LoadedIs(scene.records, f, scene.AllValues(), rows, list, read, handles);
    HeldHandles(cache.source, cache.graph, bytesOf, scene.records, slot, id, rows, handles);
    FilledLeads(scene.records, f, scene.AllValues(), rows, list, read, handles, cache.graph.byId);
  }

  lemma HeldHandles<P(!new), C(!new)>(source: Source<P>, g: Graph, bytesOf: P -> seq<Byte>, records: seq<Record<C>>, slot: Entity,
                                      id: ResourceId, rows: seq<Row>, handles: map<ResourceId, Entity>)
    requires HoldsScene(source, g, bytesOf, records, slot, id, rows, handles)
    ensures forall r :: RowsRefer(records, rows, r) ==> r in handles
    ensures forall r :: r in handles ==> r in g.byId && g.byId[r] == handles[r]
  {
    hide RowsRefer;
    hide Outcome;
    hide ScanFile;
  }

  lemma LoadedIs<C(!new)>(records: seq<Record<C>>, f: Forest, vals: map<Entity, Values<C>>, rows: seq<Row>, list: seq<Entity>,
                          read: map<Entity, Values<C>>, handles: map<ResourceId, Entity>)
    requires Rebuilt(records, f, read, rows, list) && RowsResolved(records, read, rows, list)
    requires vals == ChangedAll(records, read, Filling(records, handles)) && AllFilled(records, read, vals, handles)
    ensures Loaded(records, f, vals, rows, list, read, handles)
  {
  }

  lemma SceneMeans<P(!new), C(!new)>(source: Source<P>, order: ResourceId -> nat, bytesOf: P -> seq<Byte>,
                                     records: seq<Record<C>>, id: ResourceId)
    ensures IsScene(source, bytesOf, records, id) <==>
            source.find(id) == Available && source.load(id).Loaded? && Outcome(records, bytesOf(source.load(id).payload)) == None
    ensures IsScene(source, bytesOf, records, id) && SceneLeadsDown(source, order, bytesOf, records, id) ==>
              forall references: seq<ResourceId> {:trigger LeadDown(source, order, references, id)} ::
                (forall r :: r in references ==> RowsRefer(records, ScanFile(bytesOf(source.load(id).payload)).value.1, r)) ==>
                  LeadDown(source, order, references, id)
  {
    hide ScanFile;
    hide RowsRefer;
  }

  /** Loads a scene into an empty one. Whatever refuses it, the scene is empty and the caller holds what it held
      before; on success the scene is what the bytes say, every handle filled in, and the caller holds its entry once
      more, which keeps everything the scene refers to. The bytes taken come from a load that ended during this call.
      From a healthy source every scene loads that nobody keeps already. */
  method Load<P(!new), C(!new), M(!new)>(cache: ResourceCache<P>, id: ResourceId, scene: ComponentScene<C, M>, bytesOf: P -> seq<Byte>)
    returns (failure: Option<LoadFailure>, slot: Entity, handles: map<ResourceId, Entity>, ghost rows: seq<Row>,
             ghost list: seq<Entity>, ghost read: map<Entity, Values<C>>)
    requires cache.Valid() && id != NULL_ID
    requires |cache.slots.issued| + |cache.known| + 1 < cache.Capacity() && cache.slots != scene.scene.slots
    requires scene.Structure() && scene.scene.Stored() && scene.scene.forest == EMPTY
    requires cache.source.load(id).Loaded? ==> RoomFor(scene.scene.Spare(), bytesOf(cache.source.load(id).payload))
    modifies cache, cache.slots, scene`values, scene.scene, scene.scene.slots
    ensures cache.Valid() && scene.Structure() && scene.scene.Stored()
    ensures failure.Some? ==> cache.graph.holds == old(cache.graph).holds && scene.scene.forest == EMPTY
    ensures failure.None? ==> cache.graph.holds == old(cache.graph).holds + multiset{slot}
    ensures failure.None? ==> HoldsScene(cache.source, cache.graph, bytesOf, scene.records, slot, id, rows, handles)
    ensures failure.None? ==>
              scene.scene.Fresh() && Loaded(scene.records, scene.scene.forest, scene.AllValues(), rows, list, read, handles)
              && HandlesLead(scene.records, scene.AllValues(), cache.graph.byId)
    ensures failure.None? ==> forall s :: s in cache.entries ==> !cache.entries[s].loading && !cache.entries[s].state.Pending?
    ensures failure.None? ==> slot !in old(cache.slots.issued) || (slot in old(cache.entries) && old(cache.entries)[slot].loading)
    ensures Ranked(old(cache.graph).entries, old(cache.graph).rank)
    ensures failure == Some(NotHeld(AlreadyLoaded)) <==> KeptBySomebody(old(cache.graph), id)
    ensures cache.source.find(id) == Unknown ==> failure == Some(NotHeld(Refused(UnknownResource)))
    ensures forall reason :: failure == Some(Unreadable(reason)) ==> UnreadableFor(cache.source, bytesOf, scene.records, id, reason)
    ensures Sane(cache.source, cache.order, old(cache.graph))
            && SceneLeadsDown(cache.source, cache.order, bytesOf, scene.records, id) ==>
              (failure.None? <==> !KeptBySomebody(old(cache.graph), id) && IsScene(cache.source, bytesOf, scene.records, id))
  {
    hide *;
    handles, rows, list, read := map[], [], [], map[];
    SceneMeans(cache.source, cache.order, bytesOf, scene.records, id);
    var why;
    why, slot := HoldScene(cache, id);
    if why.Some? {
      failure := Some(NotHeld(why.value));
      return;
    }
    ghost var holds := cache.graph.holds;
    assert slot in holds;
    failure, handles, rows, list, read := LoadHeld(cache, slot, scene, bytesOf);
    if failure.Some? {
      assert slot in cache.graph.holds;
      cache.Mirrored();
      HeldIsLive(cache.graph, slot);
      cache.Release(slot);
      return failure, NONE, map[], [], [], map[];
    }
  }
}
