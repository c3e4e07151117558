/** The resource cache: entries loaded by tasks, counted by their holders and by the entries that
    depend on them, and freed in batches. */
module ResourceCaches {
  import opened Entities
  import opened EntitySlotsModule
  import opened ResourceGraphs
  import opened ResourceStates
  import opened Wrappers
  import opened Sequences

  class ResourceCache<P(!new)> {
    const source: Source<P>
    const blank: P                    // what is left where a payload was moved out
    ghost const known: set<ResourceId>
    ghost const order: ResourceId -> nat
    const slots: EntitySlots<()>
    var entries: Entries
    var byId: map<ResourceId, Entity>
    var slates: map<Entity, Slate<P>>
    var pendingLoads: seq<Entity>
    var pendingFrees: seq<Entity>
    var running: set<Entity>          // tasks handed to the job system and not finished
    var inFlight: seq<set<Entity>>    // the batches they were handed over in
    var completions: seq<Completion>
    var emptied: set<Entity>          // the slots whose payload was moved out

    ghost var graph: Graph            // entries and byId again, with who holds what
    ghost var log: seq<Completion>    // everything published, in order

    ghost function S(): State<P>
      reads this
    {
      State(graph, slates, pendingLoads, pendingFrees, running, inFlight, completions, emptied)
    }

    /** The allocator calls exactly `live` live. */
    ghost predicate Stored(live: set<Entity>)
      reads slots
    {
      slots.Valid() && slots.Live() == live
    }

    ghost predicate Consistent(taken: seq<Completion>)
      reads this, slots
    {
      && entries == graph.entries && byId == graph.byId
      && Stored(graph.entries.Keys) && emptied <= slots.issued
      && StateIsOk(source, known, S(), taken)
    }

    ghost predicate Valid()
      reads this, slots
    {
      Consistent([]) && NoneForgotten(entries, pendingFrees) && ReferencesKept(source, S(), {})
    }

    /** There are slots enough for every resource, those that will never be used again aside. */
    ghost predicate Room()
      reads slots
    {
      |known| + |slots.Retired()| <= slots.slotLimit
    }

    /** The handles whose issuing leaves Room, however they are spread over the slots. */
    ghost function Capacity(): int {
      (slots.slotLimit + 1 - |known|) * (slots.generationLimit + 1)
    }

    /** The handles issued that no id leads to. */
    ghost function Unindexed(): int
      reads this`byId, slots
    {
      |slots.issued| - |byId|
    }

    /** `order` numbers the resources, for what is promised when references only lead down. */
    constructor (source: Source<P>, blank: P, ghost known: set<ResourceId>, ghost order: ResourceId -> nat)
      requires FiniteSource(source, known)
      ensures Valid() && entries.Keys == {} && graph.holds == multiset{} && emptied == {}
      ensures this.source == source && this.known == known && this.order == order && this.blank == blank
      ensures fresh(slots)
    {
      this.source, this.known, this.blank, this.order := source, known, blank, order;
      slots := new EntitySlots(NULL_INDEX, 0xFFFF_FFFF, ());
      entries, byId, slates := map[], map[], map[];
      pendingLoads, pendingFrees, running, inFlight, completions, emptied := [], [], {}, [], [], {};
      graph, log := NOTHING, [];
      new;
      hide EntitySlots.Valid;
      hide EntitySlots.Live;
      hide StateIsOk;
      hide NoneForgotten;
      hide ReferencesKept;
      hide FiniteSource;
      NothingYet(source, known, S());
    }

    lemma Fields()
      ensures S() == State(graph, slates, pendingLoads, pendingFrees, running, inFlight, completions, emptied)
    {
    }

    // ----- Holding and letting go -----

    method RequestEntry(id: ResourceId, ghost taken: seq<Completion>) returns (error: Option<CacheError>, slot: Entity)
      requires Consistent(taken) && id != NULL_ID
      requires id !in byId && source.find(id) != Unknown ==> slots.CanCreate()
      modifies this`entries, this`byId, this`pendingLoads, this`graph, slots
      ensures Consistent(taken)
      ensures error == if id in old(byId) || source.find(id) != Unknown then None else Some(UnknownResource)
      ensures error.None? ==> Requested(source, old(S()), S(), id, slot)
      ensures error.Some? ==> S() == old(S())
      ensures id !in old(byId) && error.None? ==> slot !in old(slots.issued)
      ensures slots.issued == old(slots.issued) + (if id !in old(byId) && error.None? then {slot} else {})
      ensures slots.Retired() == old(slots.Retired()) && (old(Room()) ==> Room())
      ensures Unindexed() == old(Unindexed())
    {
      hide StateIsOk;
      hide ResourceCache.Stored;
      if id in byId {
        slot := byId[id];
        AcquiredState(source, known, S(), taken, id);
        entries := entries[slot := entries[slot].(acquires := entries[slot].acquires + 1)];
        graph := Acquired(S(), slot).graph;
        assert entries.Keys == old(entries).Keys;
        return None, slot;
      }
      if source.find(id).Unknown? {
        return Some(UnknownResource), NONE;
      }
      slot := CreateEntry(id, taken);
      error := None;
    }

    /** The part of RequestEntry that makes a new entry. */
    method CreateEntry(id: ResourceId, ghost taken: seq<Completion>) returns (slot: Entity)
      requires Consistent(taken) && id !in byId && source.find(id) != Unknown && slots.CanCreate()
      modifies this`entries, this`byId, this`pendingLoads, this`graph, slots
      ensures Consistent(taken)
      ensures slot !in old(slots.issued) && slot !in old(entries) && slots.issued == old(slots.issued) + {slot}
      ensures S() == Created(old(S()), slot, NewEntry(id, source.find(id)))
      ensures slots.Retired() == old(slots.Retired())
    {
      hide StateIsOk;
      hide ResourceCache.Stored;
      hide Added;
      hide NewEntry;
      slot := TakeSlot(entries.Keys);
      var entry := NewEntry(id, source.find(id));
      NewEntryShape(graph, slot, id, source.find(id));
      CreatedState(source, known, S(), taken, slot, id);
      entries, byId := entries[slot := entry], byId[id := slot];
      graph := Added(graph, slot, entry);
      pendingLoads := if source.find(id) == AbsentHere then pendingLoads else pendingLoads + [slot];
      assert entries.Keys == old(entries).Keys + {slot};
    }

    method TakeSlot(ghost live: set<Entity>) returns (slot: Entity)
      requires Stored(live) && slots.CanCreate()
      modifies slots
      ensures Stored(live + {slot}) && slot !in live
      ensures slot !in old(slots.issued) && slots.issued == old(slots.issued) + {slot}
      ensures slots.Retired() == old(slots.Retired())
    {
      slot := slots.Create();
    }

    /** The engine checks that the count is positive. The cache stays in order exactly if whoever lets go of the
        entry is one of those who hold it: if not, some entry has lost what keeps its dependency alive. */
    method ReleaseEntry(slot: Entity, ghost taken: seq<Completion>)
      requires Consistent(taken) && (slot in entries ==> entries[slot].acquires > 0)
      modifies this`entries, this`pendingFrees, this`graph
      ensures S() == Released(old(S()), slot)
      ensures slot !in old(entries) ==> entries == old(entries)
      ensures slot in old(entries) ==>
                entries == old(entries)[slot := old(entries)[slot].(acquires := old(entries)[slot].acquires - 1)]
      ensures Consistent(taken) <==> slot !in old(entries) || slot in old(graph).holds
    {
      hide StateIsOk;
      hide ResourceCache.Stored;
      hide GraphOk;
      ReleaseState(source, known, S(), taken, slot);
      if slot !in entries {
        return;
      }
      entries := entries[slot := entries[slot].(acquires := entries[slot].acquires - 1)];
      graph := Released(S(), slot).graph;
      if entries[slot].acquires == 0 {
        pendingFrees := pendingFrees + [slot];
      }
      assert entries.Keys == old(entries).Keys;
    }

    // ----- What callers do -----

    lemma Mirrored()
      requires Valid()
      ensures graph.entries == entries && graph.byId == byId && GraphOk(graph) && Ranked(graph.entries, graph.rank)
      ensures graph.byId.Keys <= known
    {
      hide ResourceCache.Consistent;
      hide ReferencesKept;
      Facts([]);
    }

    lemma Facts(taken: seq<Completion>)
      requires Consistent(taken)
      ensures graph.entries == entries && graph.byId == byId && GraphOk(graph) && Ranked(graph.entries, graph.rank)
      ensures graph.byId.Keys <= known && Heard(source, graph)
    {
      hide StateIsOk;
      hide ResourceCache.Stored;
      hide Heard;
      StateGraph(source, known, S(), taken);
      StateHeard(source, known, S(), taken);
    }

    lemma HeldHere(slot: Entity, taken: seq<Completion>)
      requires Consistent(taken) && slot in graph.holds
      ensures slot in entries && entries[slot].acquires > 0
    {
      hide ResourceCache.Consistent;
      hide GraphOk;
      Facts(taken);
      HeldLive(graph, slot);
    }

    lemma KnownHere(id: ResourceId, taken: seq<Completion>)
      requires Consistent(taken)
      ensures source.find(id) != Unknown ==> id in known
    {
      hide StateIsOk;
      hide ResourceCache.Stored;
      KnownIdIn(source, known, S(), taken, id);
    }

    lemma HeardHere(id: ResourceId)
      requires Valid()
      ensures id in byId ==> source.find(id) != Unknown
    {
      hide ResourceCache.Consistent;
      hide ReferencesKept;
      Facts([]);
    }

    lemma RoomFor(id: ResourceId)
      requires Valid() && Room()
      ensures id !in byId && source.find(id) != Unknown ==> slots.CanCreate()
    {
      hide ResourceCache.Consistent;
      hide ResourceCache.Room;
      hide ReferencesKept;
      KnownHere(id, []);
      RoomForOne(id, []);
    }

    /** What is loading has not been moved out. */
    lemma LoadingNotEmptied()
      requires Valid()
      ensures emptied <= slots.issued && forall s :: s in entries && entries[s].loading ==> entries[s].state.Pending? && s !in emptied
    {
      hide ReferencesKept;
      hide ResourceCache.Stored;
      LoadingPending(source, known, S());
    }

    /** However much was freed since, there is room for what was never issued. */
    lemma RoomFromIssued()
      requires Valid() && |slots.issued| < Capacity()
      ensures Room()
    {
      hide StateIsOk;
      hide ReferencesKept;
      hide EntitySlots.Retired;
      hide EntitySlots.Valid;
      slots.RetiringTakesLong();
      Quotient(|slots.Retired()|, slots.generationLimit + 1, slots.slotLimit + 1 - |known|);
    }

    method Request(id: ResourceId) returns (error: Option<CacheError>, slot: Entity)
      requires Valid() && id != NULL_ID
      requires id !in byId && source.find(id) != Unknown ==> slots.CanCreate()
      modifies this`entries, this`byId, this`pendingLoads, this`graph, slots
      ensures Valid()
      ensures error == if id in old(byId) || source.find(id) != Unknown then None else Some(UnknownResource)
      ensures error.Some? ==> S() == old(S())
      ensures error.None? ==> slot in entries && entries[slot].id == id && graph.holds == old(graph).holds + multiset{slot}
      ensures error.None? ==> entries.Keys == old(entries).Keys + {slot}
      ensures error.None? ==> forall s :: s in old(entries) && s != slot ==> s in entries && entries[s] == old(entries)[s]
      ensures error.None? && id in old(byId) ==>
                slot == old(byId)[id] && slot in old(entries) && entries[slot].acquires == old(entries)[slot].acquires + 1
                && entries[slot].state == old(entries)[slot].state && entries[slot].loading == old(entries)[slot].loading
      ensures error.None? && id !in old(byId) ==>
                slot !in old(slots.issued) && slot !in old(entries) && entries[slot] == NewEntry(id, source.find(id))
      ensures error.None? && Sane(source, order, old(graph)) ==> Sane(source, order, graph)
      ensures |slots.issued| <= |old(slots.issued)| + 1
    {
      hide StateIsOk;
      hide ResourceCache.Stored;
      hide Requested;
      hide NoneForgotten;
      hide ReferencesKept;
      hide ResourceCache.Consistent;
      hide Sane;
      Mirrored();
      hide EntitySlots.Valid;
      hide EntitySlots.CanCreate;
      hide EntitySlots.Retired;
      ghost var c0, before := S(), slots.issued;
      error, slot := RequestEntry(id, []);
      OneMore(before, slot);
      Facts([]);
      if error.None? {
        RequestedMeans(source, c0, S(), id, slot);
        RequestedReferences(source, c0, S(), id, slot);
        if Sane(source, order, c0.graph) {
          SaneRequest(source, order, c0, S(), id, slot);
        }
      }
    }

    method Release(slot: Entity)
      requires Valid() && (slot in entries ==> entries[slot].acquires > 0)
      modifies this`entries, this`pendingFrees, this`graph
      ensures entries.Keys == old(entries).Keys
      ensures slot in entries ==> graph.holds == old(graph).holds - multiset{slot}
      ensures slot in entries ==>
                entries == old(entries)[slot := old(entries)[slot].(acquires := old(entries)[slot].acquires - 1)]
      ensures Valid() <==> slot !in old(entries) || slot in old(graph).holds
    {
      hide StateIsOk;
      hide ResourceCache.Stored;
      hide ResourceCache.Consistent;
      hide GraphOk;
      hide NoneForgotten;
      hide ReferencesKept;
      Mirrored();
      ReleasedMeans(S(), slot);
      ReleasedReferences(source, S(), slot);
      ReleaseEntry(slot, []);
    }

    // ----- Dependencies -----

    lemma LiveIndices(live: set<Entity>)
      requires Stored(live)
      ensures OnePerIndex(live)
    {
    }

    /** Whether `target` is `from` or something it depends on, directly or not. Visited entries are told
        apart by their index alone. */
    method ReachesTarget(from: Entity, target: Entity, ghost taken: seq<Completion>) returns (found: bool)
      requires Consistent(taken) && from in entries
      ensures Ranked(graph.entries, graph.rank)
      ensures found <==> Reaches(graph.entries, graph.rank, from, target)
    {
      hide StateIsOk;
      hide ResourceCache.Stored;
      hide Searching;
      hide Reaches;
      hide Ranked;
      hide OnePerIndex;
      hide IndicesOf;
      ghost var g := graph;
      StateGraph(source, known, S(), taken);
      LiveIndices(g.entries.Keys);
      SearchStarts(g, from, target);
      var pending := [from];
      var visited: set<nat> := {};
      ghost var seen: set<Entity> := {};
      NoIndices();
      while pending != []
        invariant seen <= g.entries.Keys
        invariant Searching(g, from, target, pending, seen)
        invariant IndicesOf(visited, seen)
        decreases |g.entries.Keys - seen|, |pending|
      {
        var slot := pending[|pending| - 1];
        SearchTop(g, from, target, pending, seen);
        if slot == target {
          return true;
        }
        VisitedMeansSeen(visited, seen, g.entries.Keys, slot);
        if slot.index in visited {
          SearchSkips(g, from, target, pending, seen);
          pending := pending[..|pending| - 1];
          continue;
        }
        SearchVisits(g, from, target, pending, seen);
        FewerLeft(g.entries.Keys, seen, slot);
        visited := visited + {slot.index};
        seen := seen + {slot};
        pending := pending[..|pending| - 1] + entries[slot].dependencies;
      }
      SearchEnds(g, from, target, seen);
      found := false;
    }

    lemma RoomForOne(id: ResourceId, taken: seq<Completion>)
      requires Consistent(taken) && Room()
      ensures id in known && id !in byId ==> slots.CanCreate()
    {
      hide StateIsOk;
      hide EntitySlots.Retired;
      hide EntitySlots.CanCreate;
      hide EntitySlots.Valid;
      if id in known && id !in byId {
        StateGraph(source, known, S(), taken);
        OneEntryPerId(graph);
        Fewer(byId.Keys, known - {id});
        slots.CanCreateMore();
      }
    }

    /** Makes `dependency` one of the things the entry at `holder` keeps alive, unless that closed a cycle. */
    method AddEntryDependency(holder: Entity, dependency: ResourceId, ghost taken: seq<Completion>)
      returns (error: Option<CacheError>, out: Entity)
      requires Consistent(taken) && Room()
      requires holder in entries && entries[holder].state.Ready? && dependency != NULL_ID
      modifies this`entries, this`byId, this`pendingLoads, this`pendingFrees, this`graph, slots
      ensures Consistent(taken) && Room() && Grown(old(S()), S())
      ensures Ranked(old(graph).entries, old(graph).rank)
      ensures error == Some(UnknownResource) <==> dependency !in old(byId) && source.find(dependency) == Unknown
      ensures error == Some(CyclicReference) <==>
                dependency in old(byId) && old(byId)[dependency] in old(graph).entries
                && Reaches(old(graph).entries, old(graph).rank, old(byId)[dependency], holder)
      ensures error.Some? ==> (error == Some(UnknownResource) || error == Some(CyclicReference)) && graph == old(graph)
      ensures error.None? ==> holder in entries && entries[holder].dependencies == old(entries)[holder].dependencies + [out]
      ensures error.None? ==> dependency in byId && byId[dependency] == out
      ensures Sane(source, order, old(graph)) && LeadDown(source, order, [dependency], old(entries)[holder].id) ==>
                error.None? && Sane(source, order, graph)
      ensures Unindexed() == old(Unindexed())
    {
      hide ResourceCache.Consistent;
      hide ResourceCache.Room;
      hide ResourceCache.Unindexed;
      hide EntitySlots.Valid;
      hide Reaches;
      hide Ranked;
      hide GraphOk;
      hide Grown;
      hide Linked;
      hide Acquired;
      hide Created;
      hide Released;
      hide Depended;
      hide Requested;
      hide Sane;
      hide LeadDown;
      hide EntitySlots.Retired;
      hide EntitySlots.CanCreate;
      ghost var c0 := S();
      Facts(taken);
      GrownSame(c0);
      KnownHere(dependency, taken);
      RoomForOne(dependency, taken);
      ghost var down := Sane(source, order, c0.graph) && LeadDown(source, order, [dependency], c0.graph.entries[holder].id);
      if down {
        DownIsKnown(source, order, dependency, c0.graph.entries[holder].id);
      }
      error, out := RequestEntry(dependency, taken);
      Facts(taken);
      if error.Some? {
        return;
      }
      ghost var c1 := S();
      AfterRequest(source, c0, c1, holder, dependency, out);
      if down {
        SaneHolder(source, order, c0, c1, holder, dependency, out);
      }
      var cyclic := ReachesTarget(out, holder, taken);
      if cyclic {
        assert dependency in c0.graph.byId;
        HeldHere(out, taken);
        ReleaseEntry(out, taken);
        AfterRefusal(source, c0, c1, out, dependency);
        return Some(CyclicReference), out;
      }
      AfterLink(source, c0, c1, holder, dependency, out);
      LinkDependency(holder, out, taken);
      Facts(taken);
      if down {
        SaneMore(source, order, c1.graph, graph, holder, out);
      }
    }

    /** Turns the hold on `out` into a dependency of `holder`. */
    method LinkDependency(holder: Entity, out: Entity, ghost taken: seq<Completion>)
      requires Consistent(taken) && holder in entries && out in entries && out in graph.holds && !entries[holder].state.Pending?
      requires Ranked(graph.entries, graph.rank) && out in graph.entries && !Reaches(graph.entries, graph.rank, out, holder)
      modifies this`entries, this`graph
      ensures Consistent(taken) && GraphOk(old(graph)) && holder in old(graph).entries && out in old(graph).entries
      ensures S() == Depended(old(S()), holder, out)
    {
      hide StateIsOk;
      hide ResourceCache.Stored;
      hide Reaches;
      hide Ranked;
      hide GraphOk;
      hide Linked;
      Facts(taken);
      DependedState(source, known, S(), taken, holder, out);
      LinkShape(graph, holder, out);
      entries := entries[holder := entries[holder].(dependencies := entries[holder].dependencies + [out])];
      graph := Linked(graph, holder, out);
      assert entries.Keys == old(entries).Keys;
    }

    method AddDependency(holder: Entity, dependency: ResourceId) returns (error: Option<CacheError>, out: Entity)
      requires Valid() && Room() && dependency != NULL_ID
      requires holder in entries && entries[holder].state.Ready?
      modifies this`entries, this`byId, this`pendingLoads, this`pendingFrees, this`graph, slots
      ensures Valid() && Room() && Grown(old(S()), S()) && graph.holds == old(graph).holds
      ensures holder in entries && entries[holder].state.Ready? && entries[holder].id == old(entries)[holder].id
      ensures error.None? ==> entries[holder].dependencies == old(entries)[holder].dependencies + [out]
      ensures error.None? ==> dependency in byId && byId[dependency] == out
      ensures FailedIn(entries) == old(FailedIn(entries))
      ensures error.Some? ==> graph == old(graph)
      ensures error == Some(UnknownResource) <==> dependency !in old(byId) && source.find(dependency) == Unknown
      ensures error == Some(CyclicReference) <==> LeadsTo(old(graph), dependency, holder)
      ensures error.None? || error == Some(UnknownResource) || error == Some(CyclicReference)
      ensures Sane(source, order, old(graph)) && LeadDown(source, order, [dependency], old(entries)[holder].id) ==>
                error.None? && Sane(source, order, graph)
      ensures holder in graph.entries && graph.entries[holder] == entries[holder] && graph.byId == byId
    {
      hide StateIsOk;
      hide ResourceCache.Stored;
      hide ResourceCache.Consistent;
      hide Grown;
      hide Reaches;
      hide Ranked;
      hide NoneForgotten;
      hide ReferencesKept;
      hide Sane;
      Mirrored();
      ghost var c0 := S();
      LeadsReaches(c0.graph, dependency, holder);
      error, out := AddEntryDependency(holder, dependency, []);
      Facts([]);
      GrownMeans(c0, S(), holder);
      GrownReferences(source, c0, S(), {});
      GrownFailed(c0, S());
    }

    // ----- Loading -----

    /** A task of the job system: it reads the resource and leaves a completion behind. */
    method RunLoadTask(slot: Entity, ghost taken: seq<Completion>)
      requires Consistent(taken) && slot in running
      modifies this`slates, this`running, this`completions
      ensures Consistent(taken)
      ensures slot in entries && S() == TaskDone(source, old(S()), slot)
    {
      hide StateIsOk;
      hide ResourceCache.Stored;
      TaskDoneState(source, known, S(), taken, slot);
      var result := source.load(entries[slot].id);
      slates := slates[slot := SlateOf(result)];
      completions := completions + [Completion(slot, ReferencesOf(result))];
      running := running - {slot};
    }

    /** Any number of tasks finish, in any order, while the owner is busy. */
    method WorkersMayRun(ghost taken: seq<Completion>)
      requires Consistent(taken)
      modifies this`slates, this`running, this`completions
      ensures Consistent(taken) && running <= old(running) && old(completions) <= completions
      ensures old(running) == {} ==> completions == old(completions)
      ensures Settled(old(S()), S(), {})
    {
      hide StateIsOk;
      hide ResourceCache.Stored;
      hide Settled;
      ghost var c0 := S();
      SettledSame(c0, c0);
      while *
        invariant Consistent(taken) && running <= old(running) && old(completions) <= completions
        invariant old(running) == {} ==> completions == old(completions)
        invariant Settled(c0, S(), {})
        decreases |running|
      {
        if running == {} {
          break;
        }
        var slot :| slot in running;
        ghost var c1 := S();
        SettledTask(source, known, c1, taken, slot);
        RunLoadTask(slot, taken);
        SettledChain(c0, c1, S(), {});
      }
    }

    /** Ends the load of an entry and requests what it depends on. The slot of a completion is always live. */
    method PublishCompletion(completion: Completion, ghost rest: seq<Completion>) returns (error: Option<CacheError>)
      requires Consistent([completion] + rest) && Room()
      modifies this`entries, this`byId, this`slates, this`pendingLoads, this`pendingFrees, this`graph, this`log, slots
      ensures Consistent(rest) && Room() && Progress(old(S()), S())
      ensures completion.slot in entries
      ensures entries[completion.slot].state == if error.Some? then Failed else Ready
      ensures completion.slot in slates && slates[completion.slot].error == error
      ensures Settled(old(S()), S(), {})
      ensures ReferencesKept(source, old(S()), {}) ==> ReferencesKept(source, S(), {})
      ensures Told(error, old(entries), entries)
      ensures log == old(log) + [completion] && completion.slot in graph.entries
      ensures error.Some? ==> FailedFor(source, graph, completion.slot, error.value)
      ensures error.None? ==>
                source.load(entries[completion.slot].id).Loaded?
                && RefersTo(graph, completion.slot, source.load(entries[completion.slot].id).references)
      ensures Sane(source, order, old(graph)) ==> error.None? && Sane(source, order, graph)
      ensures Unindexed() == old(Unindexed())
    {
      hide ResourceCache.Consistent;
      hide ResourceCache.Room;
      hide ResourceCache.Unindexed;
      hide RefusedAt;
      hide Heard;
      hide Progress;
      hide ReferencesKept;
      hide RefersTo;
      hide GraphOk;
      hide Ranked;
      hide Told;
      hide Sane;
      hide LeadDown;
      hide Settled;
      var slot := completion.slot;
      ghost var c0 := S();
      EndLoad(completion, rest);
      Facts(rest);
      ghost var c1 := S();
      if slates[slot].error.Some? {
        return slates[slot].error;
      }
      error := AddDependencies(slot, completion.dependencies, rest);
      ProgressChain(c0, c1, S());
      SettledAround(c0, c1, S(), slot);
      Facts(rest);
      ToldChain(None, error, c0.graph.entries, c1.graph.entries, entries);
      ProgressIds(c1, S(), slot);
      if error.None? && ReferencesKept(source, c0, {}) {
        ReferencesDone(source, S(), slot);
      }
    }

    /** The entry of a finished load is ready, its dependencies still to be requested, or it has failed. */
    method EndLoad(completion: Completion, ghost rest: seq<Completion>)
      requires Consistent([completion] + rest)
      modifies this`entries, this`graph, this`log
      ensures Consistent(rest) && Progress(old(S()), S()) && old(entries) == old(graph).entries
      ensures completion.slot in entries && completion.slot in slates && entries[completion.slot].dependencies == []
      ensures completion.slot in old(entries) && old(entries)[completion.slot].state.Pending?
      ensures Settled(old(S()), S(), {}) && slates == old(slates)
      ensures entries[completion.slot].id == old(entries)[completion.slot].id
      ensures entries[completion.slot].state == if slates[completion.slot].error.Some? then Failed else Ready
      ensures completion.dependencies == ReferencesOf(source.load(entries[completion.slot].id)) && NULL_ID !in completion.dependencies
      ensures ReferencesKept(source, old(S()), {}) ==>
                ReferencesKept(source, S(), if slates[completion.slot].error.Some? then {} else {completion.slot})
      ensures Told(slates[completion.slot].error, old(entries), entries)
      ensures entries == graph.entries && log == old(log) + [completion]
      ensures slates[completion.slot].error ==
              match source.load(entries[completion.slot].id)
              case Loaded(_, _) => None
              case LoadFailed(error) => Some(error)
      ensures Sane(source, order, old(graph)) ==>
                slates[completion.slot].error.None? && Sane(source, order, graph)
                && LeadDown(source, order, completion.dependencies, entries[completion.slot].id)
    {
      hide StateIsOk;
      hide ResourceCache.Stored;
      hide Progress;
      hide ReferencesKept;
      hide CompletionOk;
      hide Sane;
      hide LeadDown;
      hide Settled;
      var slot := completion.slot;
      ghost var c := S();
      PublishedState(source, known, c, completion, rest);
      CompletionMeans(source, known, c, completion, rest);
      var state := if slates[slot].error.Some? then Failed else Ready;
      PublishedProgress(c, slot, state);
      SettledPublished(c, slot, state);
      FailedUpdate(entries, slot, entries[slot].(loading := false, state := state));
      if ReferencesKept(source, c, {}) {
        PublishedReferences(source, c, slot, state);
      }
      entries := entries[slot := entries[slot].(loading := false, state := state)];
      graph := Published(c, slot, state).graph;
      log := log + [completion];
      assert entries.Keys == old(entries).Keys;
      if Sane(source, order, c.graph) {
        SaneCompletion(source, known, order, c, completion, rest);
        SaneUpdate(source, order, c.graph, graph, slot, entries[slot]);
      }
    }

    /** Requests what a loaded entry depends on, until one request is refused. */
    method AddDependencies(slot: Entity, dependencies: seq<ResourceId>, ghost rest: seq<Completion>) returns (error: Option<CacheError>)
      requires Consistent(rest) && Room() && NULL_ID !in dependencies
      requires slot in entries && entries[slot].state.Ready? && entries[slot].dependencies == []
      modifies this`entries, this`byId, this`slates, this`pendingLoads, this`pendingFrees, this`graph, slots
      ensures Consistent(rest) && Room() && Progress(old(S()), S())
      ensures slot in entries
      ensures error.None? ==> entries[slot].state.Ready? && slot in graph.entries && RefersTo(graph, slot, dependencies)
      ensures error.None? ==> slates == old(slates)
      ensures Settled(old(S()), S(), {slot})
      ensures error.Some? ==> entries[slot].state.Failed? && slot in slates && slates[slot].error == error
      ensures error.Some? ==> slot in graph.entries && exists k: nat :: RefusedAt(source, graph, slot, dependencies, k, error.value)
      ensures ReferencesKept(source, old(S()), {slot}) ==> ReferencesKept(source, S(), if error.None? then {slot} else {})
      ensures Told(error, old(entries), entries)
      ensures Sane(source, order, old(graph)) && LeadDown(source, order, dependencies, old(entries)[slot].id) ==>
                error.None? && Sane(source, order, graph)
      ensures Unindexed() == old(Unindexed())
    {
      hide ResourceCache.Consistent;
      hide ResourceCache.Room;
      hide ResourceCache.Unindexed;
      hide Progress;
      hide Grown;
      hide Reaches;
      hide Ranked;
      hide GraphOk;
      hide ReferencesKept;
      hide RefersTo;
      hide Told;
      hide Sane;
      hide LeadDown;
      hide Settled;
      hide RefusedAt;
      hide Later;
      hide Heard;
      ghost var c0 := S();
      Facts(rest);
      ProgressSame(c0);
      GrownSame(c0);
      SettledGrown(c0, c0, {slot});
      NoReferences(c0.graph, slot);
      ToldNothing(entries, entries);
      error := None;
      var k := 0;
      assert dependencies[..0] == [];
      ghost var down := Sane(source, order, c0.graph) && LeadDown(source, order, dependencies, c0.graph.entries[slot].id);
      while k < |dependencies|
        invariant k <= |dependencies| && error.None?
        invariant Consistent(rest) && Room() && Progress(c0, S()) && entries == graph.entries && byId == graph.byId
        invariant slot in entries && entries[slot].state.Ready? && |entries[slot].dependencies| == k
        invariant entries[slot].id == c0.graph.entries[slot].id
        invariant RefersTo(graph, slot, dependencies[..k])
        invariant ReferencesKept(source, c0, {slot}) ==> ReferencesKept(source, S(), {slot})
        invariant Told(None, old(entries), entries)
        invariant slates == old(slates) && Settled(c0, S(), {slot})
        invariant down ==> Sane(source, order, graph)
        invariant Unindexed() == old(Unindexed())
      {
        ghost var c1 := S();
        if down {
          LeadDownOne(source, order, dependencies, k, entries[slot].id);
        }
        var out;
        error, out := AddEntryDependency(slot, dependencies[k], rest);
        Facts(rest);
        AfterDependency(source, c0, c1, S(), slot);
        SettledGrown(c1, S(), {slot});
        SettledBut(c0, c1, S(), slot);
        if error.Some? {
          ghost var c2 := S();
          RefusedHere(source, c2.graph, slot, dependencies, k, error.value);
          FailEntry(slot, error.value, rest);
          Facts(rest);
          ProgressLater(c2, S());
          RefusedStill(source, c2.graph, graph, slot, dependencies, k, error.value);
          ProgressChain(c0, c2, S());
          SettledBut(c0, c2, S(), slot);
          ToldChain(None, error, c0.graph.entries, c2.graph.entries, entries);
          return;
        }
        OneMoreReference(c1, S(), slot, dependencies, k, out);
        k := k + 1;
      }
      assert dependencies[..k] == dependencies;
    }

    method FailEntry(slot: Entity, error: CacheError, ghost rest: seq<Completion>)
      requires Consistent(rest) && slot in entries && entries[slot].state.Ready?
      modifies this`entries, this`slates, this`graph
      ensures Consistent(rest) && Progress(old(S()), S()) && slot in entries && slot in slates
      ensures entries[slot].state.Failed? && slates[slot].error == Some(error)
      ensures Settled(old(S()), S(), {slot})
      ensures byId == old(byId) && Told(Some(error), old(entries), entries)
      ensures ReferencesKept(source, old(S()), {slot}) ==> ReferencesKept(source, S(), {})
    {
      hide StateIsOk;
      hide ResourceCache.Stored;
      hide Progress;
      hide ReferencesKept;
      hide Settled;
      ghost var c := S();
      FailedState(source, known, c, rest, slot, error);
      FailedProgress(c, slot, error);
      SettledFailed(c, slot, error);
      FailedUpdate(entries, slot, entries[slot].(state := Failed));
      if ReferencesKept(source, c, {slot}) {
        FailedReferences(source, c, slot, error);
      }
      entries := entries[slot := entries[slot].(state := Failed)];
      slates := slates[slot := slates[slot].(error := Some(error))];
      graph := FailedWith(c, slot, error).graph;
      assert entries.Keys == old(entries).Keys;
    }

    /** Hands every pending load to the job system, in one batch. */
    method SubmitLoads()
      requires Consistent([])
      modifies this`entries, this`pendingLoads, this`running, this`inFlight, this`graph
      ensures Consistent([]) && pendingLoads == [] && Submitted(old(S()), S())
    {
      hide StateIsOk;
      hide ResourceCache.Stored;
      hide Submitted;
      ghost var c0 := S();
      SubmitStarts(source, known, c0);
      var pending := pendingLoads;
      pendingLoads := [];
      var tasks: set<Entity> := {};
      SubmittedNone(c0, S());
      var i := 0;
      assert pending[0..] == pending;
      while i < |pending|
        invariant i <= |pending| && pendingLoads == []
        invariant entries == graph.entries && byId == graph.byId && Stored(graph.entries.Keys)
        invariant StateIsOk(source, known, Submitting(S(), tasks, pending[i..]), [])
        invariant Submitted(c0, S())
        invariant inFlight == c0.inFlight
      {
        var slot := pending[i];
        assert pending[i..][1..] == pending[i + 1..];
        if slot in entries && entries[slot].state.Pending? && !entries[slot].loading {
          ghost var c := S();
          SubmitMarks(source, known, c, tasks, pending[i..]);
          SubmittedMore(c0, c, slot);
          entries := entries[slot := entries[slot].(loading := true)];
          graph := Marked(c, slot).graph;
          assert entries.Keys == c.graph.entries.Keys;
          tasks := tasks + {slot};
        } else {
          SubmitSkips(source, known, S(), tasks, pending[i..]);
        }
        i := i + 1;
      }
      assert pending[i..] == [];
      SubmitEnds(source, known, S(), tasks);
      SubmittedRunning(c0, S());
      running := running + tasks;
      if tasks != {} {
        inFlight := inFlight + [tasks];
      }
    }

    /** Waits for every batch handed over. */
    method WaitForBatches()
      requires Consistent([])
      modifies this`slates, this`running, this`completions, this`inFlight
      ensures Consistent([]) && running == {} && inFlight == [] && Settled(old(S()), S(), {})
    {
      hide StateIsOk;
      hide ResourceCache.Stored;
      hide Settled;
      ghost var c0 := S();
      SettledSame(c0, c0);
      var batches := inFlight;
      var i := 0;
      while i < |batches|
        invariant i <= |batches| && Consistent([]) && inFlight == batches && Settled(c0, S(), {})
        invariant forall k :: 0 <= k < i ==> running * inFlight[k] == {}
      {
        while running * batches[i] != {}
          invariant Consistent([]) && inFlight == batches && Settled(c0, S(), {})
          invariant forall k :: 0 <= k < i ==> running * inFlight[k] == {}
          decreases |running|
        {
          var slot :| slot in running * batches[i];
          ghost var before, c1 := running, S();
          SettledTask(source, known, c1, [], slot);
          RunLoadTask(slot, []);
          SettledChain(c0, c1, S(), {});
          assert running == before - {slot};
        }
        i := i + 1;
      }
      AllWaited(source, known, S());
      ghost var c2 := S();
      inFlight := [];
      SettledSame(c2, S());
      SettledChain(c0, c2, S(), {});
    }

    /** Publishes one completion; tasks may finish before it. */
    method PublishNext(completion: Completion, ghost rest: seq<Completion>) returns (error: Option<CacheError>)
      requires Consistent([completion] + rest) && Room()
      modifies this`entries, this`byId, this`slates, this`pendingLoads, this`pendingFrees, this`running, this`completions, this`graph, this`log, slots
      ensures Consistent(rest) && Room() && Progress(old(S()), S())
      ensures old(running) == {} ==> running == {} && completions == old(completions)
      ensures ReferencesKept(source, old(S()), {}) ==> ReferencesKept(source, S(), {})
      ensures Told(error, old(entries), entries)
      ensures Settled(old(S()), S(), {}) && Ended(S(), completion) && slates[completion.slot].error == error
      ensures Explained(source, S(), completion) && log == old(log) + [completion]
      ensures Sane(source, order, old(graph)) ==> error.None? && Sane(source, order, graph)
      ensures Unindexed() == old(Unindexed())
    {
      hide *;
      ghost var c1 := S();
      Fields();
      WorkersMayRun([completion] + rest);
      Fields();
      WorkersProgress(source, c1, S());
      ghost var c2 := S();
      error := PublishCompletion(completion, rest);
      ProgressChain(c1, c2, S());
      SettledChain(c1, c2, S(), {});
      Facts(rest);
      Fields();
      PublishedOne(source, S(), completion, error);
    }

    /** Takes the completions that are there; later ones stay for the next time. */
    method TakeCompletions() returns (taken: seq<Completion>)
      requires Consistent([])
      modifies this`completions
      ensures Consistent(taken) && taken == old(completions) && completions == [] && Progress(old(S()), S())
      ensures ReferencesKept(source, old(S()), {}) ==> ReferencesKept(source, S(), {})
      ensures old(Room()) ==> Room() && Settled(old(S()), S(), {})
    {
      hide StateIsOk;
      hide ResourceCache.Stored;
      hide Progress;
      ghost var c0 := S();
      taken := completions;
      CompletionsTaken(source, known, c0);
      completions := [];
      TakenProgress(source, c0, S());
      SettledSame(c0, S());
    }

    /** Publishes the completions that are there, in order, while further tasks finish. The error that comes back is
        that of the first of them that failed. */
    method RemoveCompletions() returns (firstError: Option<CacheError>)
      requires Consistent([]) && Room()
      modifies this`entries, this`byId, this`slates, this`pendingLoads, this`pendingFrees, this`running, this`completions, this`graph, this`log, slots
      ensures Consistent([]) && Room() && Progress(old(S()), S())
      ensures old(running) == {} ==> running == {} && completions == []
      ensures ReferencesKept(source, old(S()), {}) ==> ReferencesKept(source, S(), {})
      ensures Told(firstError, old(entries), entries) && Settled(old(S()), S(), {})
      ensures AllEnded(S(), old(completions)) && firstError == FirstError(old(completions), slates)
      ensures AllExplained(source, S(), old(completions)) && log == old(log) + old(completions)
      ensures FirstFailure(source, S(), old(completions), firstError)
      ensures Sane(source, order, old(graph)) ==> firstError.None? && Sane(source, order, graph)
      ensures Unindexed() == old(Unindexed())
    {
      hide *;
      ghost var c0 := S();
      var taken := TakeCompletions();
      firstError := None;
      ToldNothing(entries, entries);
      var i := 0;
      assert taken[0..] == taken;
      Fields();
      NothingEnded(S(), taken);
      NothingExplained(source, S(), taken);
      while i < |taken|
        invariant i <= |taken|
        invariant Consistent(taken[i..]) && Room() && Progress(c0, S())
        invariant old(running) == {} ==> running == {} && completions == []
        invariant ReferencesKept(source, c0, {}) ==> ReferencesKept(source, S(), {})
        invariant Told(firstError, old(entries), entries) && Settled(c0, S(), {})
        invariant AllEnded(S(), taken[..i]) && firstError == FirstError(taken[..i], slates)
        invariant AllExplained(source, S(), taken[..i]) && log == old(log) + taken[..i]
        invariant Sane(source, order, old(graph)) ==> firstError.None? && Sane(source, order, graph)
        invariant Unindexed() == old(Unindexed())
      {
        ghost var c1, e1 := S(), entries;
        Fields();
        assert taken[i..] == [taken[i]] + taken[i + 1..];
        var publishError := PublishNext(taken[i], taken[i + 1..]);
        Fields();
        ProgressChain(c0, c1, S());
        ToldChain(firstError, publishError, old(entries), e1, entries);
        SettledChain(c0, c1, S(), {});
        EndedStay(c1, S(), taken[..i]);
        OneMoreEnded(S(), taken[..i], taken[i]);
        Facts(taken[i + 1..]);
        ConcatAssociative(old(log), taken[..i], [taken[i]]);
        ProgressLater(c1, S());
        ExplainedStay(source, c1, S(), taken[..i]);
        OneMoreExplained(source, S(), taken[..i], taken[i]);
        assert taken[..i + 1] == taken[..i] + [taken[i]];
        if firstError.None? && publishError.Some? {
          firstError := publishError;
        }
        i := i + 1;
      }
      assert taken[i..] == [] && taken[..i] == taken;
      Fields();
      FirstErrorMeans(source, S(), taken);
    }

    // ----- Freeing -----

    /** Frees an entry nobody holds and nothing is loading, and lets go of what it depends on. */
    method FreeEntry(slot: Entity)
      requires Consistent([]) && slot in entries && !entries[slot].loading
      modifies this`entries, this`byId, this`slates, this`pendingFrees, this`graph, slots
      ensures Consistent([]) && Freeing(old(S()), S()) && graph.holds == old(graph).holds
      ensures entries.Keys == if old(entries)[slot].acquires > 0 then old(entries).Keys else old(entries).Keys - {slot}
      ensures slots.issued == old(slots.issued)
    {
      hide ResourceCache.Consistent;
      hide GraphOk;
      hide Ranked;
      hide Freeing;
      hide Released;
      hide FreedFrom;
      ghost var c0 := S();
      Facts([]);
      FreeingSame(c0);
      if entries[slot].acquires > 0 {
        return;
      }
      var dependencies := entries[slot].dependencies;
      ghost var holds := graph.holds;
      DropEntry(slot);
      assert dependencies[0..] == dependencies;
      var k := 0;
      while k < |dependencies|
        invariant k <= |dependencies|
        invariant Consistent([]) && Freeing(c0, S())
        invariant entries.Keys == old(entries).Keys - {slot}
        invariant graph.holds == holds + multiset(dependencies[k..])
        invariant slots.issued == old(slots.issued)
      {
        ghost var c := S();
        Facts([]);
        ReleaseNext(c, holds, dependencies, k);
        ReleasedFreeing(c, dependencies[k]);
        HeldHere(dependencies[k], []);
        ReleaseEntry(dependencies[k], []);
        Facts([]);
        FreeingChain(c0, c, S());
        k := k + 1;
      }
      assert dependencies[k..] == [];
    }

    /** The entry at `slot` gone; the caller still holds what it depended on. */
    method DropEntry(slot: Entity)
      requires Consistent([]) && slot in entries && entries[slot].acquires == 0 && !entries[slot].loading
      modifies this`entries, this`byId, this`slates, this`graph, slots
      ensures Consistent([]) && slot in old(graph).entries && old(graph).holders.Keys == old(graph).entries.Keys
      ensures Freeing(old(S()), S()) && entries.Keys == old(entries).Keys - {slot}
      ensures graph.holds == old(graph).holds + multiset(old(entries)[slot].dependencies)
      ensures slots.issued == old(slots.issued)
    {
      hide StateIsOk;
      hide ResourceCache.Stored;
      hide Freeing;
      ghost var c0 := S();
      FreedState(source, known, c0, [], slot);
      FreedFreeing(c0, slot);
      DropSlot(slot, entries.Keys);
      byId := byId - {entries[slot].id};
      entries := entries - {slot};
      slates := slates - {slot};
      graph := FreedFrom(c0, slot).graph;
    }

    method DropSlot(slot: Entity, ghost live: set<Entity>)
      requires Stored(live) && slot in live
      modifies slots
      ensures Stored(live - {slot}) && slots.issued == old(slots.issued)
    {
      var destroyed := slots.Destroy(slot);
    }

    /** Frees everything that nobody holds, directly or through what holds it; what is loading stays for
        the next drain. */
    method DrainFrees()
      requires Valid()
      modifies this`entries, this`byId, this`slates, this`pendingFrees, this`running, this`completions, this`graph, slots
      ensures Valid() && slots.issued == old(slots.issued)
      ensures GraphOk(old(graph)) && Thinned(old(graph), graph)
      ensures forall s :: s in old(entries) ==> (s in entries <==> Wanted(old(graph), s))
      ensures forall s :: s in entries ==> entries[s].acquires > 0 || entries[s].loading
      ensures old(graph).holds == multiset{} && (forall s :: s in old(entries) ==> !old(entries)[s].loading) ==>
                entries == map[] && byId == map[]
      ensures old(running) == {} ==> running == {} && completions == old(completions)
    {
      hide ResourceCache.Consistent;
      hide ReferencesKept;
      hide NoneForgotten;
      hide Draining;
      hide GraphOk;
      hide Ranked;
      hide Wanted;
      hide Thinned;
      ghost var c0 := S();
      Mirrored();
      DrainStarts(c0);
      var deferred: seq<Entity> := [];
      while pendingFrees != []
        invariant Consistent([]) && Draining(c0.graph, S(), [], deferred)
        invariant old(running) == {} ==> running == {} && completions == old(completions)
        invariant slots.issued == old(slots.issued)
        decreases entries.Keys, |pendingFrees|
      {
        DrainSwaps(c0.graph, S(), deferred);
        var draining := SetQueue([]);
        ghost var keys := entries.Keys;
        assert draining[0..] == draining;
        var i := 0;
        while i < |draining|
          invariant i <= |draining|
          invariant Consistent([]) && Draining(c0.graph, S(), draining[i..], deferred)
          invariant entries.Keys <= keys && (entries.Keys == keys ==> pendingFrees == [])
          invariant old(running) == {} ==> running == {} && completions == old(completions)
          invariant slots.issued == old(slots.issued)
        {
          deferred := DrainOne(c0.graph, draining[i], draining[i..], deferred);
          assert draining[i..][1..] == draining[i + 1..];
          i := i + 1;
        }
        assert draining[i..] == [];
      }
      Facts([]);
      DrainEnds(c0.graph, S(), deferred);
      DrainedEmpty(c0.graph, graph);
      ThinnedReferences(source, c0, S());
      RestoredReferences(source, S(), deferred);
      var none := SetQueue(pendingFrees + deferred);
      Facts([]);
    }

    /** The queue of frees swapped for another. */
    method SetQueue(queue: seq<Entity>) returns (was: seq<Entity>)
      requires Consistent([])
      modifies this`pendingFrees
      ensures Consistent([]) && was == old(pendingFrees) && S() == old(S()).(pendingFrees := queue)
    {
      hide StateIsOk;
      hide ResourceCache.Stored;
      QueueSwapped(source, known, S(), queue);
      was := pendingFrees;
      pendingFrees := queue;
    }

    /** One slot of the queue: gone already, put off, or freed. */
    method DrainOne(ghost g0: Graph, slot: Entity, ghost rest: seq<Entity>, deferred: seq<Entity>) returns (deferred': seq<Entity>)
      requires Consistent([]) && GraphOk(g0) && rest != [] && rest[0] == slot && Draining(g0, S(), rest, deferred)
      modifies this`entries, this`byId, this`slates, this`pendingFrees, this`running, this`completions, this`graph, slots
      ensures Consistent([]) && Draining(g0, S(), rest[1..], deferred')
      ensures entries.Keys <= old(entries).Keys
      ensures entries.Keys == old(entries).Keys ==> pendingFrees == old(pendingFrees)
      ensures old(running) == {} ==> running == {} && completions == old(completions)
      ensures slots.issued == old(slots.issued)
    {
      hide ResourceCache.Consistent;
      hide Draining;
      hide GraphOk;
      hide Ranked;
      hide Freeing;
      ghost var c := S();
      WorkersMayRun([]);
      WorkersDrain(g0, c, S(), rest, deferred);
      ghost var c1 := S();
      deferred' := deferred;
      Facts([]);
      if slot !in entries {
        DrainPasses(g0, c1, rest, deferred);
        return;
      }
      if entries[slot].loading || entries[slot].acquires > 0 {
        DrainDefers(g0, c1, rest, deferred);
        deferred' := deferred + [slot];
        return;
      }
      FreeEntry(slot);
      Facts([]);
      DrainDrops(g0, c1, S(), rest, deferred);
    }

    // ----- The loading phase -----

    /** Submits what is pending and waits until it is done. */
    method SubmitAndWait()
      requires Consistent([])
      modifies this`entries, this`slates, this`pendingLoads, this`running, this`inFlight, this`completions, this`graph
      ensures Consistent([]) && Phase(old(S()), S()) && running == {} && pendingLoads == [] && byId == old(byId)
      ensures old(byId) == old(graph).byId
      ensures ReferencesKept(source, old(S()), {}) ==> ReferencesKept(source, S(), {})
      ensures Told(None, old(entries), entries) && Settled(old(S()), S(), {})
      ensures Sane(source, order, old(graph)) ==> Sane(source, order, graph)
    {
      hide *;
      ghost var c0 := S();
      Fields();
      Facts([]);
      SubmitLoads();
      Facts([]);
      ghost var c1 := S();
      Fields();
      WaitForBatches();
      Facts([]);
      Fields();
      SubmittedMeans(source, order, c0, c1, S());
      SettledSubmitted(c0, c1);
      SettledChain(c0, c1, S(), {});
    }

    /** One round: submit what is pending, wait for it, publish it. */
    method RunRound() returns (error: Option<CacheError>, ghost published: seq<Completion>)
      requires Consistent([]) && Room()
      modifies this`entries, this`byId, this`slates, this`pendingLoads, this`pendingFrees, this`running, this`inFlight,
               this`completions, this`graph, this`log, slots
      ensures Consistent([]) && Room() && Phase(old(S()), S())
      ensures running == {} && completions == []
      ensures pendingLoads != [] ==> |known - byId.Keys| < |known - old(byId).Keys|
      ensures ReferencesKept(source, old(S()), {}) ==> ReferencesKept(source, S(), {})
      ensures Told(error, old(entries), entries) && Settled(old(S()), S(), {})
      ensures AllEnded(S(), published) && error == FirstError(published, slates)
      ensures AllExplained(source, S(), published) && log == old(log) + published
      ensures Sane(source, order, old(graph)) ==> error.None? && Sane(source, order, graph)
      ensures Unindexed() == old(Unindexed())
    {
      hide *;
      ghost var c0 := S();
      SubmitAndWait();
      ghost var c1 := S();
      Fields();
      Facts([]);
      published := completions;
      error := RemoveCompletions();
      Fields();
      Facts([]);
      SettledChain(c0, c1, S(), {});
      ProgressPhase(c0, c1, S());
      ToldChain(None, error, old(entries), c1.graph.entries, entries);
      if pendingLoads != [] {
        FewerUnindexed(known, c1, S());
      }
    }

    /** Rounds of loading until nothing is pending. The error that comes back is that of the first entry that failed,
        in the order of the completions, round after round. */
    method LoadAll() returns (firstError: Option<CacheError>, ghost published: seq<Completion>)
      requires Consistent([]) && Room()
      modifies this`entries, this`byId, this`slates, this`pendingLoads, this`pendingFrees, this`running, this`inFlight,
               this`completions, this`graph, this`log, slots
      ensures Consistent([]) && Phase(old(S()), S())
      ensures running == {} && completions == [] && pendingLoads == []
      ensures ReferencesKept(source, old(S()), {}) ==> ReferencesKept(source, S(), {})
      ensures Told(firstError, old(entries), entries) && Settled(old(S()), S(), {})
      ensures AllEnded(S(), published) && firstError == FirstError(published, slates)
      ensures AllExplained(source, S(), published) && log == old(log) + published
      ensures FirstFailure(source, S(), published, firstError)
      ensures Sane(source, order, old(graph)) ==> firstError.None? && Sane(source, order, graph)
      ensures Unindexed() == old(Unindexed())
    {
      hide ResourceCache.Consistent;
      hide ResourceCache.Room;
      hide ResourceCache.Unindexed;
      hide GraphOk;
      hide Ranked;
      hide Phase;
      hide ReferencesKept;
      hide Told;
      hide Sane;
      hide Settled;
      hide Explained;
      hide AllExplained;
      hide FirstFailure;
      hide Later;
      hide Heard;
      hide Ended;
      hide AllEnded;
      hide FirstError;
      ghost var c0 := S();
      PhaseSame(c0);
      SettledSame(c0, c0);
      firstError, published := None, [];
      NothingEnded(c0, []);
      NothingExplained(source, c0, []);
      ToldNothing(entries, entries);
      while true
        invariant Consistent([]) && Room() && Phase(c0, S())
        invariant ReferencesKept(source, c0, {}) ==> ReferencesKept(source, S(), {})
        invariant Told(firstError, old(entries), entries) && Settled(c0, S(), {})
        invariant AllEnded(S(), published) && firstError == FirstError(published, slates)
        invariant AllExplained(source, S(), published) && log == old(log) + published
        invariant Sane(source, order, old(graph)) ==> firstError.None? && Sane(source, order, graph)
        invariant Unindexed() == old(Unindexed())
        decreases |known - byId.Keys|
      {
        ghost var c1, e1 := S(), entries;
        var error;
        ghost var more;
        error, more := RunRound();
        PhaseChain(c0, c1, S());
        ToldChain(firstError, error, old(entries), e1, entries);
        SettledChain(c0, c1, S(), {});
        EndedStay(c1, S(), published);
        MoreEnded(S(), published, more);
        Facts([]);
        PhaseLater(c1, S());
        ExplainedStay(source, c1, S(), published);
        MoreExplained(source, S(), published, more);
        ConcatAssociative(old(log), published, more);
        published := published + more;
        if firstError.None? {
          firstError := error;
        }
        NoneLoading();
        var loading := exists id :: id in byId && entries[byId[id]].loading;
        if !loading && pendingLoads == [] {
          break;
        }
      }
      FirstErrorMeans(source, S(), published);
    }

    lemma NoneLoading()
      requires Consistent([]) && running == {} && completions == []
      ensures forall id :: id in byId ==> byId[id] in entries
      ensures forall s :: s in entries ==> !entries[s].loading
      ensures pendingLoads == [] ==> forall s :: s in entries ==> !entries[s].state.Pending?
    {
      hide StateIsOk;
      hide ResourceCache.Stored;
      NothingLoading(source, known, S());
      StateGraph(source, known, S(), []);
    }

    /** Loads everything requested and everything that refers to, then frees what nobody holds. `before` is the
        state as it was before the frees, and `published` are the completions published, in order. */
    method RunLoadingPhase() returns (firstError: Option<CacheError>, ghost before: State<P>, ghost published: seq<Completion>)
      requires Valid() && Room()
      modifies this`entries, this`byId, this`slates, this`pendingLoads, this`pendingFrees, this`running, this`inFlight,
               this`completions, this`graph, this`log, slots
      ensures Valid() && running == {} && completions == [] && pendingLoads == []
      ensures graph.holds == old(graph).holds
      ensures forall s :: s in old(entries) && s in entries ==> EntryKept(old(entries)[s], entries[s])
      ensures forall s :: s in entries ==> !entries[s].loading && !entries[s].state.Pending? && entries[s].acquires > 0
      ensures GraphOk(before.graph) && Thinned(before.graph, graph)
      ensures forall s :: s in before.graph.entries ==> (s in entries <==> Wanted(before.graph, s))
      ensures GraphOk(graph) && forall s :: s in entries ==> Wanted(graph, s)
      ensures Told(firstError, old(entries), before.graph.entries)
      ensures AllEnded(before, published) && firstError == FirstError(published, before.slates)
      ensures AllExplained(source, before, published) && log == old(log) + published
      ensures FirstFailure(source, before, published, firstError)
      ensures Sane(source, order, old(graph)) ==> firstError.None? && Sane(source, order, graph)
      ensures old(byId).Keys <= before.graph.byId.Keys <= known && byId.Keys <= before.graph.byId.Keys
      ensures |slots.issued| - |old(slots.issued)| == |before.graph.byId| - |old(byId)|
    {
      hide ResourceCache.Consistent;
      hide ResourceCache.Room;
      hide GraphOk;
      hide Ranked;
      hide Phase;
      hide Wanted;
      hide Thinned;
      hide NoneForgotten;
      hide ReferencesKept;
      hide Told;
      hide Sane;
      hide Settled;
      hide Explained;
      hide AllExplained;
      hide FirstFailure;
      hide Later;
      hide Heard;
      hide AllEnded;
      hide FirstError;
      ghost var c0 := S();
      Mirrored();
      firstError, published := LoadAll();
      ghost var c := S();
      before := c;
      Facts([]);
      NoneLoading();
      PhaseMeans(c0, c);
      DrainFrees();
      Mirrored();
      ThinnedStates(c.graph, graph);
      KeptThroughout(c0, c, graph);
      AllWanted(graph);
      ThinnedIds(c.graph, graph);
      if Sane(source, order, c0.graph) {
        SaneThinned(source, order, c.graph, graph);
      }
    }

    // ----- Resolving -----

    /** The payload behind a slot: there is one exactly once the entry is ready, and it is what the source
        holds for the entry's own id, until it is moved out. */
    method ResolvePayload(slot: Entity) returns (payload: Option<P>)
      requires Valid()
      ensures payload.Some? <==> slot in entries && entries[slot].state.Ready?
      ensures payload.Some? ==>
                source.load(entries[slot].id).Loaded?
                && payload.value == if slot in emptied then blank else source.load(entries[slot].id).payload
    {
      hide StateIsOk;
      hide ResourceCache.Stored;
      if slot !in entries || !entries[slot].state.Ready? {
        return None;
      }
      ReadyPayload(source, known, S(), slot);
      payload := if slot in emptied then Some(blank) else slates[slot].payload;
    }

    /** Moves the payload out. Whoever does it first gets what the source holds. */
    method TakePayload(slot: Entity) returns (payload: Option<P>)
      requires Valid()
      modifies this`emptied
      ensures Valid() && emptied == if payload.Some? then old(emptied) + {slot} else old(emptied)
      ensures payload.Some? <==> slot in entries && entries[slot].state.Ready?
      ensures payload.Some? ==>
                source.load(entries[slot].id).Loaded?
                && payload.value == if slot in old(emptied) then blank else source.load(entries[slot].id).payload
    {
      hide StateIsOk;
      hide EntitySlots.Valid;
      hide EntitySlots.Live;
      payload := ResolvePayload(slot);
      if payload.Some? {
        EmptiedState(source, known, S(), slot);
        EmptiedReferences(source, S(), slot);
        LiveIssued(entries.Keys);
        emptied := emptied + {slot};
      }
    }

    lemma LiveIssued(live: set<Entity>)
      requires Stored(live)
      ensures live <= slots.issued
    {
    }
  }

  lemma Quotient(a: nat, b: nat, c: int)
    requires a * b < c * b
    ensures a < c
  {
    assert a >= c ==> a * b >= c * b;
  }

  lemma OneEntryPerId(g: Graph)
    requires GraphOk(g)
    ensures |g.entries.Keys| <= |g.byId.Keys|
  {
    hide Ranked;
    hide HoldersOk;
    hide CountsOk;
    forall s | s in g.entries.Keys ensures s in g.byId.Values {
      assert g.byId[g.entries[s].id] == s;
    }
    Fewer(g.entries.Keys, g.byId.Values);
    FewerValues(g.byId);
  }
}
