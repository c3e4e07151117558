/** What the fields of a resource cache say together, and what each step does to them. */
module ResourceStates {
  import opened Entities
  import opened Sequences
  import opened ResourceGraphs
  import opened Wrappers

  datatype Availability = Available | AbsentHere | Unknown

  datatype CacheError = UnknownResource | CyclicReference | LoadError(code: nat)

  /** What loading a resource gives: a payload and the ids it refers to, or an error. */
  datatype LoadResult<+P> = Loaded(payload: P, references: seq<ResourceId>) | LoadFailed(error: CacheError)

  datatype Source<!P> = Source(find: ResourceId -> Availability, load: ResourceId -> LoadResult<P>)

  /** The part of an entry that its load task writes. */
  datatype Slate<+P> = Slate(payload: Option<P>, error: Option<CacheError>)

  datatype Completion = Completion(slot: Entity, dependencies: seq<ResourceId>)

  /** The finitely many resources the source knows, and no load refers to the null id. */
  ghost predicate FiniteSource<P>(source: Source<P>, known: set<ResourceId>) {
    && (forall id {:trigger source.find(id)} {:trigger id in known} :: source.find(id) != Unknown <==> id in known)
    && (forall id {:trigger source.load(id)} :: source.load(id).Loaded? ==> NULL_ID !in source.load(id).references)
  }

  // ----- Loads in flight -----

  ghost predicate CompletionOk<P>(source: Source<P>, entries: Entries, slates: map<Entity, Slate<P>>, c: Completion) {
    && c.slot in entries && entries[c.slot].loading && c.slot in slates
    && match source.load(entries[c.slot].id)
       case Loaded(payload, references) => slates[c.slot] == Slate(Some(payload), None) && c.dependencies == references
       case LoadFailed(error) => slates[c.slot] == Slate(None, Some(error)) && c.dependencies == []
  }

  ghost predicate RunningOk(entries: Entries, running: set<Entity>) {
    forall s :: s in running ==> s in entries && entries[s].loading
  }

  ghost predicate CompletionsOk<P>(source: Source<P>, entries: Entries, slates: map<Entity, Slate<P>>,
                                   running: set<Entity>, completions: seq<Completion>) {
    forall i :: 0 <= i < |completions| ==>
      CompletionOk(source, entries, slates, completions[i]) && completions[i].slot !in running
  }

  ghost predicate DistinctSlots(completions: seq<Completion>) {
    forall i, j :: 0 <= i < j < |completions| ==> completions[i].slot != completions[j].slot
  }

  ghost predicate HasSlot(completions: seq<Completion>, s: Entity) {
    exists i :: 0 <= i < |completions| && completions[i].slot == s
  }

  ghost predicate Tracked(entries: Entries, running: set<Entity>, completions: seq<Completion>) {
    forall s :: s in entries && entries[s].loading ==> s in running || HasSlot(completions, s)
  }

  /** The entries that are loading are exactly those with a task under way or a completion not yet published. */
  ghost predicate LoadsOk<P>(source: Source<P>, entries: Entries, slates: map<Entity, Slate<P>>,
                             running: set<Entity>, completions: seq<Completion>) {
    && RunningOk(entries, running)
    && CompletionsOk(source, entries, slates, running, completions)
    && DistinctSlots(completions)
    && Tracked(entries, running, completions)
  }

  lemma InsertedSlots(cs: seq<Completion>, n: nat, x: Completion)
    requires n <= |cs|
    ensures forall s :: HasSlot(Insert(cs, n, x), s) <==> HasSlot(cs, s) || s == x.slot
    ensures DistinctSlots(Insert(cs, n, x)) <==> DistinctSlots(cs) && !HasSlot(cs, x.slot)
  {
    hide HasSlot;
    hide DistinctSlots;
    hide Insert;
    forall s ensures HasSlot(Insert(cs, n, x), s) <==> HasSlot(cs, s) || s == x.slot {
      InsertedHas(cs, n, x, s);
    }
    InsertKeepsDistinct(cs, n, x);
    InsertWasDistinct(cs, n, x);
  }

  lemma InsertedHas(cs: seq<Completion>, n: nat, x: Completion, s: Entity)
    requires n <= |cs|
    ensures HasSlot(Insert(cs, n, x), s) <==> HasSlot(cs, s) || s == x.slot
  {
    var t := Insert(cs, n, x);
    assert t[n] == x;
    if HasSlot(cs, s) {
      var i :| 0 <= i < |cs| && cs[i].slot == s;
      assert t[if i < n then i else i + 1].slot == s;
    }
    if HasSlot(t, s) && s != x.slot {
      var i :| 0 <= i < |t| && t[i].slot == s;
      assert cs[if i < n then i else i - 1].slot == s;
    }
  }

  lemma InsertKeepsDistinct(cs: seq<Completion>, n: nat, x: Completion)
    requires n <= |cs|
    ensures DistinctSlots(cs) && !HasSlot(cs, x.slot) ==> DistinctSlots(Insert(cs, n, x))
  {
    var t := Insert(cs, n, x);
    if DistinctSlots(cs) && !HasSlot(cs, x.slot) {
      forall i, j | 0 <= i < j < |t| ensures t[i].slot != t[j].slot {
        assert i != n ==> t[i] == cs[if i < n then i else i - 1];
        assert j != n ==> t[j] == cs[if j < n then j else j - 1];
      }
    }
  }

  lemma InsertWasDistinct(cs: seq<Completion>, n: nat, x: Completion)
    requires n <= |cs|
    ensures DistinctSlots(Insert(cs, n, x)) ==> DistinctSlots(cs) && !HasSlot(cs, x.slot)
  {
    var t := Insert(cs, n, x);
    if DistinctSlots(t) {
      assert t[n] == x;
      forall i, j | 0 <= i < j < |cs| ensures cs[i].slot != cs[j].slot {
        assert cs[i] == t[if i < n then i else i + 1] && cs[j] == t[if j < n then j else j + 1];
      }
      forall i | 0 <= i < |cs| ensures cs[i].slot != x.slot {
        assert cs[i] == t[if i < n then i else i + 1];
      }
    }
  }

  lemma InsertedCompletions<P>(source: Source<P>, entries: Entries, slates: map<Entity, Slate<P>>,
                               running: set<Entity>, cs: seq<Completion>, n: nat, x: Completion)
    requires n <= |cs| && CompletionsOk(source, entries, slates, running, cs)
    requires CompletionOk(source, entries, slates, x) && x.slot !in running
    ensures CompletionsOk(source, entries, slates, running, Insert(cs, n, x))
  {
    hide CompletionOk;
    var t := Insert(cs, n, x);
    forall i | 0 <= i < |t| ensures CompletionOk(source, entries, slates, t[i]) && t[i].slot !in running {
      assert i != n ==> t[i] == cs[if i < n then i else i - 1];
    }
  }

  lemma WithoutCompletion<P>(source: Source<P>, entries: Entries, slates: map<Entity, Slate<P>>,
                             running: set<Entity>, cs: seq<Completion>, n: nat, x: Completion)
    requires n <= |cs| && CompletionsOk(source, entries, slates, running, Insert(cs, n, x))
    ensures CompletionsOk(source, entries, slates, running, cs)
    ensures CompletionOk(source, entries, slates, x) && x.slot !in running
  {
    hide CompletionOk;
    var t := Insert(cs, n, x);
    assert t[n] == x;
    forall i | 0 <= i < |cs| ensures CompletionOk(source, entries, slates, cs[i]) && cs[i].slot !in running {
      assert cs[i] == t[if i < n then i else i + 1];
    }
  }

  /** What the state of an entry means. */
  ghost predicate StateOk<P>(source: Source<P>, entries: Entries, slates: map<Entity, Slate<P>>, pendingLoads: seq<Entity>, s: Entity)
    requires s in entries
  {
    var e := entries[s];
    && (e.loading ==> e.state.Pending?)
    && (e.state.Pending? ==> e.dependencies == [])
    && (e.state.Pending? && !e.loading ==> s in pendingLoads)
    && (e.state.Ready? ==> source.load(e.id).Loaded? && s in slates && slates[s].payload == Some(source.load(e.id).payload))
  }

  ghost predicate StatesOk<P>(source: Source<P>, entries: Entries, slates: map<Entity, Slate<P>>, pendingLoads: seq<Entity>) {
    forall s :: s in entries ==> StateOk(source, entries, slates, pendingLoads, s)
  }

  /** Every entry nobody holds waits to be freed. */
  ghost predicate NoneForgotten(entries: Entries, queue: seq<Entity>) {
    forall s :: s in entries && entries[s].acquires == 0 ==> s in queue
  }

  ghost predicate IdsKnown(byId: map<ResourceId, Entity>, known: set<ResourceId>) {
    byId.Keys <= known
  }

  /** Every task under way belongs to a batch that can be waited for. */
  ghost predicate InFlightOk(running: set<Entity>, inFlight: seq<set<Entity>>) {
    forall s :: s in running ==> exists i :: 0 <= i < |inFlight| && s in inFlight[i]
  }

  /** Only what was loaded has had its payload moved out. */
  ghost predicate EmptiedOk(entries: Entries, emptied: set<Entity>) {
    forall s :: s in emptied && s in entries ==> !entries[s].state.Pending?
  }

  /** The fields of a cache, the allocator's aside. `emptied` are the slots whose payload was moved out. */
  datatype State<+P> = State(
    graph: Graph,
    slates: map<Entity, Slate<P>>,
    pendingLoads: seq<Entity>,
    pendingFrees: seq<Entity>,
    running: set<Entity>,
    inFlight: seq<set<Entity>>,
    completions: seq<Completion>,
    emptied: set<Entity>)

  /** All but the queue of frees is in order; `taken` are the completions being published. */
  ghost predicate StateIsOk<P>(source: Source<P>, known: set<ResourceId>, c: State<P>, taken: seq<Completion>) {
    && FiniteSource(source, known)
    && GraphOk(c.graph)
    && LoadsOk(source, c.graph.entries, c.slates, c.running, c.completions + taken)
    && StatesOk(source, c.graph.entries, c.slates, c.pendingLoads)
    && IdsKnown(c.graph.byId, known)
    && InFlightOk(c.running, c.inFlight)
    && EmptiedOk(c.graph.entries, c.emptied)
  }

  function NewEntry(id: ResourceId, availability: Availability): ResourceEntry {
    ResourceEntry(id, 1, [], if availability == AbsentHere then AbsentForRole else Pending, false)
  }

  lemma NewEntryShape(g: Graph, s: Entity, id: ResourceId, availability: Availability)
    ensures var entry := NewEntry(id, availability);
            && entry.id == id && (entry.state.Pending? <==> availability != AbsentHere)
            && Added(g, s, entry).entries == g.entries[s := entry] && Added(g, s, entry).byId == g.byId[id := s]
            && Added(g, s, entry).entries.Keys == g.entries.Keys + {s}
  {
  }

  // ----- Steps -----

  ghost function Acquired<P>(c: State<P>, s: Entity): State<P>
    requires s in c.graph.entries
  {
    c.(graph := Recounted(c.graph, s, c.graph.entries[s].acquires + 1, c.graph.holds + multiset{s}))
  }

  ghost function Created<P>(c: State<P>, s: Entity, entry: ResourceEntry): State<P> {
    c.(graph := Added(c.graph, s, entry), pendingLoads := if entry.state.Pending? then c.pendingLoads + [s] else c.pendingLoads)
  }

  ghost function Released<P>(c: State<P>, s: Entity): State<P> {
    if s in c.graph.entries && c.graph.entries[s].acquires > 0 then
      c.(graph := Recounted(c.graph, s, c.graph.entries[s].acquires - 1, c.graph.holds - multiset{s}),
         pendingFrees := if c.graph.entries[s].acquires == 1 then c.pendingFrees + [s] else c.pendingFrees)
    else c
  }

  lemma AcquiredState<P>(source: Source<P>, known: set<ResourceId>, c: State<P>, taken: seq<Completion>, id: ResourceId)
    requires StateIsOk(source, known, c, taken) && id in c.graph.byId
    ensures var s := c.graph.byId[id];
            s in c.graph.entries && c.graph.entries[s].id == id && StateIsOk(source, known, Acquired(c, s), taken)
  {
    hide GraphOk;
    hide LoadsOk;
    hide StatesOk;
    hide FiniteSource;
    hide InFlightOk;
    IndexedLive(c.graph, id);
    AcquiredOk(c.graph, c.graph.byId[id]);
    RecountedLoads(source, c.graph.entries, Acquired(c, c.graph.byId[id]).graph.entries, c.slates, c.running,
                   c.completions + taken, c.pendingLoads);
  }

  lemma CreatedState<P>(source: Source<P>, known: set<ResourceId>, c: State<P>, taken: seq<Completion>, s: Entity, id: ResourceId)
    requires StateIsOk(source, known, c, taken) && id !in c.graph.byId && source.find(id) != Unknown && s !in c.graph.entries
    requires s !in c.emptied
    ensures StateIsOk(source, known, Created(c, s, NewEntry(id, source.find(id))), taken)
  {
    hide GraphOk;
    hide LoadsOk;
    hide StatesOk;
    hide FiniteSource;
    hide InFlightOk;
    KnownId(source, known, id);
    AddedOk(c.graph, s, NewEntry(id, source.find(id)));
    AddedLoads(source, c.graph.entries, s, NewEntry(id, source.find(id)), c.slates, c.running, c.completions + taken, c.pendingLoads);
  }

  /** One acquisition less leaves the state in order exactly if somebody outside held the entry. */
  lemma ReleaseState<P>(source: Source<P>, known: set<ResourceId>, c: State<P>, taken: seq<Completion>, s: Entity)
    requires StateIsOk(source, known, c, taken) && (s in c.graph.entries ==> c.graph.entries[s].acquires > 0)
    ensures StateIsOk(source, known, Released(c, s), taken) <==> s !in c.graph.entries || s in c.graph.holds
  {
    hide GraphOk;
    hide LoadsOk;
    hide StatesOk;
    hide FiniteSource;
    hide InFlightOk;
    if s !in c.graph.entries || s in c.graph.holds {
      ReleasedState(source, known, c, taken, s);
    } else {
      ReleaseExactly(c.graph, s);
      assert !AccountedFor(c.graph, s, c.graph.holds - multiset{s});
    }
  }

  lemma ReleasedState<P>(source: Source<P>, known: set<ResourceId>, c: State<P>, taken: seq<Completion>, s: Entity)
    requires StateIsOk(source, known, c, taken) && (s in c.graph.entries ==> s in c.graph.holds)
    ensures s in c.graph.entries ==> c.graph.entries[s].acquires > 0
    ensures StateIsOk(source, known, Released(c, s), taken)
  {
    hide GraphOk;
    hide LoadsOk;
    hide StatesOk;
    hide FiniteSource;
    hide InFlightOk;
    if s in c.graph.entries {
      ReleasedOk(c.graph, s);
      RecountedLoads(source, c.graph.entries, Released(c, s).graph.entries, c.slates, c.running, c.completions + taken, c.pendingLoads);
    }
  }

  /** After a successful request the caller holds the entry of the id, one more time than before. */
  lemma RequestedMeans<P>(source: Source<P>, c0: State<P>, c: State<P>, id: ResourceId, out: Entity)
    requires GraphOk(c0.graph) && Requested(source, c0, c, id, out)
    ensures out in c.graph.entries && c.graph.entries[out].id == id && c.graph.holds == c0.graph.holds + multiset{out}
    ensures c.graph.entries.Keys == c0.graph.entries.Keys + {out}
    ensures forall s :: s in c0.graph.entries && s != out ==> c.graph.entries[s] == c0.graph.entries[s]
    ensures id in c0.graph.byId ==>
              out == c0.graph.byId[id] && out in c0.graph.entries
              && c.graph.entries == c0.graph.entries[out := c0.graph.entries[out].(acquires := c0.graph.entries[out].acquires + 1)]
    ensures id !in c0.graph.byId ==>
              out !in c0.graph.entries && c.graph.entries == c0.graph.entries[out := NewEntry(id, source.find(id))]
    ensures NoneForgotten(c0.graph.entries, c0.pendingFrees) ==> NoneForgotten(c.graph.entries, c.pendingFrees)
  {
    hide Ranked;
    hide HoldersOk;
    hide CountsOk;
  }

  /** The fields of a new cache. */
  lemma NothingYet<P>(source: Source<P>, known: set<ResourceId>, c: State<P>)
    requires FiniteSource(source, known)
    requires c.graph == NOTHING && c.slates.Keys == {} && c.pendingLoads == [] && c.pendingFrees == []
    requires c.running == {} && c.inFlight == [] && c.completions == [] && c.emptied == {}
    ensures StateIsOk(source, known, c, []) && NoneForgotten(c.graph.entries, c.pendingFrees) && ReferencesKept(source, c, {})
  {
    hide FiniteSource;
  }

  /** A request takes no reference away. */
  lemma RequestedReferences<P>(source: Source<P>, c0: State<P>, c: State<P>, id: ResourceId, out: Entity)
    requires Requested(source, c0, c, id, out) && ReferencesKept(source, c0, {})
    ensures ReferencesKept(source, c, {})
  {
    forall s | s in c.graph.entries && c.graph.entries[s].state.Ready?
      ensures RefersTo(c.graph, s, ReferencesOf(source.load(c.graph.entries[s].id)))
    {
      assert s in c0.graph.entries && RefersTo(c0.graph, s, ReferencesOf(source.load(c.graph.entries[s].id)));
    }
  }

  lemma ReleasedReferences<P>(source: Source<P>, c: State<P>, s: Entity)
    requires ReferencesKept(source, c, {})
    ensures ReferencesKept(source, Released(c, s), {})
  {
    var c' := Released(c, s);
    forall x | x in c'.graph.entries && c'.graph.entries[x].state.Ready?
      ensures RefersTo(c'.graph, x, ReferencesOf(source.load(c'.graph.entries[x].id)))
    {
      assert RefersTo(c.graph, x, ReferencesOf(source.load(c'.graph.entries[x].id)));
    }
  }

  lemma ReleasedMeans<P>(c: State<P>, s: Entity)
    requires NoneForgotten(c.graph.entries, c.pendingFrees)
    ensures NoneForgotten(Released(c, s).graph.entries, Released(c, s).pendingFrees)
  {
  }

  lemma GrownMeans<P>(c0: State<P>, c: State<P>, s: Entity)
    requires Grown(c0, c) && s in c0.graph.entries
    ensures NoneForgotten(c0.graph.entries, c0.pendingFrees) ==> NoneForgotten(c.graph.entries, c.pendingFrees)
    ensures c.graph.holds == c0.graph.holds
    ensures s in c.graph.entries && EntryGrown(c0.graph.entries[s], c.graph.entries[s])
    ensures forall id :: id in c0.graph.byId ==> id in c.graph.byId && c.graph.byId[id] == c0.graph.byId[id]
  {
  }

  lemma GrownFailed<P>(c0: State<P>, c: State<P>)
    requires Grown(c0, c)
    ensures FailedIn(c.graph.entries) == FailedIn(c0.graph.entries)
  {
    hide NoneForgotten;
    forall s | s in c.graph.entries ensures s in FailedIn(c.graph.entries) <==> s in FailedIn(c0.graph.entries) {
      if s in c0.graph.entries {
        assert EntryGrown(c0.graph.entries[s], c.graph.entries[s]);
      } else {
        assert EntryNew(c0.graph, c.graph.entries[s]);
      }
    }
  }

  /** An error came up exactly if more entries failed than before. */
  ghost predicate Told(error: Option<CacheError>, before: Entries, after: Entries) {
    FailedIn(before) <= FailedIn(after) && (error.None? <==> FailedIn(after) == FailedIn(before))
  }

  lemma ToldChain(first: Option<CacheError>, next: Option<CacheError>, before: Entries, between: Entries, after: Entries)
    requires Told(first, before, between) && Told(next, between, after)
    ensures Told(if first.None? then next else first, before, after)
  {
    hide FailedIn;
  }

  lemma ToldNothing(before: Entries, after: Entries)
    requires FailedIn(after) == FailedIn(before)
    ensures Told(None, before, after)
  {
  }

  lemma NoIndices()
    ensures IndicesOf({}, {})
  {
  }

  lemma FewerLeft<T>(all: set<T>, seen: set<T>, e: T)
    requires e in all && e !in seen
    ensures |all - (seen + {e})| < |all - seen|
  {
    assert all - seen == (all - (seen + {e})) + {e};
  }

  ghost function Depended<P>(c: State<P>, h: Entity, d: Entity): State<P>
    requires GraphOk(c.graph) && h in c.graph.entries && d in c.graph.entries
  {
    c.(graph := Linked(c.graph, h, d))
  }

  lemma DependedState<P>(source: Source<P>, known: set<ResourceId>, c: State<P>, taken: seq<Completion>, h: Entity, d: Entity)
    requires StateIsOk(source, known, c, taken) && GraphOk(c.graph) && h in c.graph.entries && d in c.graph.entries
    requires d in c.graph.holds && !Reaches(c.graph.entries, c.graph.rank, d, h) && !c.graph.entries[h].state.Pending?
    ensures StateIsOk(source, known, Depended(c, h, d), taken)
  {
    hide GraphOk;
    hide LoadsOk;
    hide StatesOk;
    hide FiniteSource;
    hide InFlightOk;
    hide Reaches;
    LinkedOk(c.graph, h, d);
    RecountedLoads(source, c.graph.entries, Depended(c, h, d).graph.entries, c.slates, c.running, c.completions + taken, c.pendingLoads);
  }

  /** The same id in the same slot, in the same state, with the same dependencies and perhaps more. */
  ghost predicate EntryGrown(e0: ResourceEntry, e: ResourceEntry) {
    e.id == e0.id && e.loading == e0.loading && e.state == e0.state && e0.dependencies <= e.dependencies
  }

  ghost predicate EntryNew(g: Graph, e: ResourceEntry) {
    e.id !in g.byId && !e.loading && !e.state.Ready? && !e.state.Failed?
  }

  /** `c` is `c0` with more entries and more dependencies; nothing was let go of and nothing forgotten. */
  ghost predicate Grown<P>(c0: State<P>, c: State<P>) {
    && (forall id :: id in c0.graph.byId ==> id in c.graph.byId && c.graph.byId[id] == c0.graph.byId[id])
    && (forall s :: s in c0.graph.entries ==> s in c.graph.entries && EntryGrown(c0.graph.entries[s], c.graph.entries[s]))
    && (forall s :: s in c.graph.entries && s !in c0.graph.entries ==> EntryNew(c0.graph, c.graph.entries[s]))
    && c.graph.holds == c0.graph.holds
    && (c.pendingLoads != c0.pendingLoads ==> c0.graph.byId.Keys < c.graph.byId.Keys)
    && (NoneForgotten(c0.graph.entries, c0.pendingFrees) ==> NoneForgotten(c.graph.entries, c.pendingFrees))
    && c.slates == c0.slates && c.running == c0.running && c.inFlight == c0.inFlight && c.completions == c0.completions
  }

  lemma GrownSame<P>(c: State<P>)
    ensures Grown(c, c)
  {
  }

  lemma PrefixChain(a: seq<Entity>, b: seq<Entity>, c: seq<Entity>)
    requires a <= b <= c
    ensures a <= c
  {
  }

  /** Holding an entry and letting go of it again, as on a refused dependency. */
  lemma RefusedGrows<P>(c: State<P>, d: Entity)
    requires d in c.graph.entries
    ensures Released(Acquired(c, d), d).graph == c.graph
    ensures Grown(c, Released(Acquired(c, d), d))
  {
    var c' := Released(Acquired(c, d), d);
    assert c'.graph.entries == c.graph.entries;
    assert c'.graph.holds == c.graph.holds;
  }

  lemma LinkShape(g: Graph, h: Entity, d: Entity)
    requires GraphOk(g) && h in g.entries && d in g.entries
    ensures var g' := Linked(g, h, d);
            && g'.entries == g.entries[h := g.entries[h].(dependencies := g.entries[h].dependencies + [d])]
            && g'.byId == g.byId && g'.holds == g.holds - multiset{d}
  {
  }

  /** Holding an entry, or making it, and turning the hold into a dependency. */
  lemma DependedGrows<P>(c: State<P>, h: Entity, d: Entity, id: ResourceId)
    requires GraphOk(c.graph) && h in c.graph.entries && id in c.graph.byId && c.graph.byId[id] == d
    requires d in c.graph.entries && GraphOk(Acquired(c, d).graph)
    ensures Grown(c, Depended(Acquired(c, d), h, d))
  {
    hide GraphOk;
    hide Linked;
    var c' := Depended(Acquired(c, d), h, d);
    LinkShape(Acquired(c, d).graph, h, d);
    assert c'.graph.holds == c.graph.holds;
  }

  lemma CreatedGrows<P>(c: State<P>, h: Entity, d: Entity, entry: ResourceEntry)
    requires GraphOk(c.graph) && h in c.graph.entries && d !in c.graph.entries && EntryNew(c.graph, entry) && entry.acquires == 1
    requires GraphOk(Created(c, d, entry).graph) && h != d
    ensures Grown(c, Depended(Created(c, d, entry), h, d))
  {
    hide GraphOk;
    hide Linked;
    hide NoneForgotten;
    var c' := Depended(Created(c, d, entry), h, d);
    LinkShape(Created(c, d, entry).graph, h, d);
    assert c'.graph.holds == c.graph.holds;
    assert entry.id in c'.graph.byId.Keys;
    CreatedNoneForgotten(c.graph.entries, c.pendingFrees, d, entry, h);
  }

  lemma CreatedNoneForgotten(entries: Entries, queue: seq<Entity>, d: Entity, entry: ResourceEntry, h: Entity)
    requires h in entries && d !in entries && entry.acquires == 1
    ensures var e := entries[d := entry][h := entries[h].(dependencies := entries[h].dependencies + [d])];
            NoneForgotten(entries, queue) ==> NoneForgotten(e, queue)
  {
  }

  lemma StateGraph<P>(source: Source<P>, known: set<ResourceId>, c: State<P>, taken: seq<Completion>)
    requires StateIsOk(source, known, c, taken)
    ensures GraphOk(c.graph) && Ranked(c.graph.entries, c.graph.rank) && c.graph.byId.Keys <= known
    ensures forall id :: id in c.graph.byId ==> c.graph.byId[id] in c.graph.entries
  {
    hide LoadsOk;
    hide StatesOk;
    hide FiniteSource;
    hide InFlightOk;
  }

  lemma KnownIdIn<P>(source: Source<P>, known: set<ResourceId>, c: State<P>, taken: seq<Completion>, id: ResourceId)
    requires StateIsOk(source, known, c, taken)
    ensures source.find(id) != Unknown ==> id in known
  {
    hide LoadsOk;
    hide StatesOk;
    hide GraphOk;
    hide InFlightOk;
  }

  /** What a request for `id` leaves: the entry held once more, or made. */
  ghost predicate Requested<P>(source: Source<P>, c0: State<P>, c: State<P>, id: ResourceId, out: Entity) {
    if id in c0.graph.byId then out == c0.graph.byId[id] && out in c0.graph.entries && c == Acquired(c0, out)
    else out !in c0.graph.entries && c == Created(c0, out, NewEntry(id, source.find(id)))
  }

  lemma AfterRequest<P>(source: Source<P>, c0: State<P>, c: State<P>, h: Entity, id: ResourceId, out: Entity)
    requires GraphOk(c0.graph) && GraphOk(c.graph) && h in c0.graph.entries && Requested(source, c0, c, id, out)
    requires Ranked(c0.graph.entries, c0.graph.rank) && Ranked(c.graph.entries, c.graph.rank)
    ensures out in c.graph.entries && out in c.graph.holds && h in c.graph.entries
    ensures c.graph.entries[h].dependencies == c0.graph.entries[h].dependencies
    ensures c.graph.entries[h].state == c0.graph.entries[h].state
    ensures id in c0.graph.byId ==> out == c0.graph.byId[id] && out in c0.graph.entries
    ensures if id in c0.graph.byId then c.graph.byId == c0.graph.byId else c.graph.byId == c0.graph.byId[id := out]
    ensures Reaches(c.graph.entries, c.graph.rank, out, h) <==>
              id in c0.graph.byId && Reaches(c0.graph.entries, c0.graph.rank, c0.graph.byId[id], h)
  {
    hide GraphOk;
    hide Ranked;
    if id in c0.graph.byId {
      ReachesSame(c0.graph.entries, c.graph.entries, c.graph.rank, out, h);
    }
  }

  lemma AfterRefusal<P>(source: Source<P>, c0: State<P>, c: State<P>, out: Entity, id: ResourceId)
    requires Requested(source, c0, c, id, out) && id in c0.graph.byId
    ensures Released(c, out).graph == c0.graph && Grown(c0, Released(c, out))
  {
    RefusedGrows(c0, out);
  }

  lemma AfterLink<P>(source: Source<P>, c0: State<P>, c: State<P>, h: Entity, id: ResourceId, out: Entity)
    requires GraphOk(c0.graph) && GraphOk(c.graph) && h in c0.graph.entries && Requested(source, c0, c, id, out)
    requires out in c.graph.entries && h in c.graph.entries
    ensures Grown(c0, Depended(c, h, out))
    ensures Depended(c, h, out) == c.(graph := Linked(c.graph, h, out))
    ensures Linked(c.graph, h, out).byId == c.graph.byId && id in c.graph.byId && c.graph.byId[id] == out
    ensures Linked(c.graph, h, out).entries ==
            c.graph.entries[h := c.graph.entries[h].(dependencies := c.graph.entries[h].dependencies + [out])]
    ensures Linked(c.graph, h, out).entries.Keys == c.graph.entries.Keys
  {
    hide GraphOk;
    hide Grown;
    hide Reaches;
    if id in c0.graph.byId {
      DependedGrows(c0, h, out, id);
    } else {
      CreatedGrows(c0, h, out, NewEntry(id, source.find(id)));
    }
  }

  /** The same id in the same slot with at least the same dependencies, loading only if it was. */
  ghost predicate EntryProgress(e0: ResourceEntry, e: ResourceEntry) {
    e.id == e0.id && (e.loading ==> e0.loading) && e0.dependencies <= e.dependencies
  }

  /** `c` is `c0` after some publishing: entries were made and loads ended, but nothing was let go of and nothing forgotten. */
  ghost predicate Progress<P>(c0: State<P>, c: State<P>) {
    && (forall id :: id in c0.graph.byId ==> id in c.graph.byId && c.graph.byId[id] == c0.graph.byId[id])
    && (forall s :: s in c0.graph.entries ==> s in c.graph.entries && EntryProgress(c0.graph.entries[s], c.graph.entries[s]))
    && (forall s :: s in c.graph.entries && s !in c0.graph.entries ==> EntryNew(c0.graph, c.graph.entries[s].(state := Pending)))
    && c.graph.holds == c0.graph.holds
    && (c.pendingLoads != c0.pendingLoads ==> c0.graph.byId.Keys < c.graph.byId.Keys)
    && (NoneForgotten(c0.graph.entries, c0.pendingFrees) ==> NoneForgotten(c.graph.entries, c.pendingFrees))
    && c.running <= c0.running && c.inFlight == c0.inFlight
  }

  lemma GrownProgress<P>(c0: State<P>, c: State<P>)
    requires Grown(c0, c)
    ensures Progress(c0, c)
  {
    hide NoneForgotten;
    forall s | s in c0.graph.entries ensures EntryProgress(c0.graph.entries[s], c.graph.entries[s]) {
      assert EntryGrown(c0.graph.entries[s], c.graph.entries[s]);
    }
    forall s | s in c.graph.entries && s !in c0.graph.entries ensures EntryNew(c0.graph, c.graph.entries[s].(state := Pending)) {
      assert EntryNew(c0.graph, c.graph.entries[s]);
    }
  }

  lemma ProgressSame<P>(c: State<P>)
    ensures Progress(c, c)
  {
  }

  lemma ProgressChain<P>(c0: State<P>, c1: State<P>, c2: State<P>)
    requires Progress(c0, c1) && Progress(c1, c2)
    ensures Progress(c0, c2)
  {
    hide NoneForgotten;
    forall s | s in c0.graph.entries
      ensures s in c2.graph.entries && EntryProgress(c0.graph.entries[s], c2.graph.entries[s])
    {
      assert EntryProgress(c0.graph.entries[s], c1.graph.entries[s]) && EntryProgress(c1.graph.entries[s], c2.graph.entries[s]);
      PrefixChain(c0.graph.entries[s].dependencies, c1.graph.entries[s].dependencies, c2.graph.entries[s].dependencies);
    }
    forall s | s in c2.graph.entries && s !in c0.graph.entries
      ensures EntryNew(c0.graph, c2.graph.entries[s].(state := Pending))
    {
      if s in c1.graph.entries {
        assert EntryProgress(c1.graph.entries[s], c2.graph.entries[s]);
      }
    }
  }

  /** A loaded entry depends on what its payload refers to, in that order, and perhaps on more. */
  ghost predicate RefersTo(g: Graph, s: Entity, references: seq<ResourceId>)
    requires s in g.entries
  {
    var deps := g.entries[s].dependencies;
    && |references| <= |deps|
    && forall i :: 0 <= i < |references| ==> references[i] in g.byId && g.byId[references[i]] == deps[i]
  }

  ghost predicate ReferencesKept<P>(source: Source<P>, c: State<P>, but: set<Entity>) {
    forall s :: s in c.graph.entries && c.graph.entries[s].state.Ready? && s !in but ==>
      RefersTo(c.graph, s, ReferencesOf(source.load(c.graph.entries[s].id)))
  }

  lemma GrownReferences<P>(source: Source<P>, c0: State<P>, c: State<P>, but: set<Entity>)
    requires Grown(c0, c) && ReferencesKept(source, c0, but)
    ensures ReferencesKept(source, c, but)
  {
    hide NoneForgotten;
    forall s | s in c.graph.entries && c.graph.entries[s].state.Ready? && s !in but
      ensures RefersTo(c.graph, s, ReferencesOf(source.load(c.graph.entries[s].id)))
    {
      if s in c0.graph.entries {
        assert EntryGrown(c0.graph.entries[s], c.graph.entries[s]);
        assert RefersTo(c0.graph, s, ReferencesOf(source.load(c.graph.entries[s].id)));
      }
    }
  }

  // ----- Steps of loading -----

  function SlateOf<P>(result: LoadResult<P>): Slate<P> {
    match result
    case Loaded(payload, _) => Slate(Some(payload), None)
    case LoadFailed(error) => Slate(None, Some(error))
  }

  function ReferencesOf<P>(result: LoadResult<P>): seq<ResourceId> {
    match result
    case Loaded(_, references) => references
    case LoadFailed(_) => []
  }

  /** The load task of `s` finished. */
  ghost function TaskDone<P>(source: Source<P>, c: State<P>, s: Entity): State<P>
    requires s in c.graph.entries
  {
    var result := source.load(c.graph.entries[s].id);
    c.(running := c.running - {s}, slates := c.slates[s := SlateOf(result)],
       completions := c.completions + [Completion(s, ReferencesOf(result))])
  }

  lemma TaskDoneState<P>(source: Source<P>, known: set<ResourceId>, c: State<P>, taken: seq<Completion>, s: Entity)
    requires StateIsOk(source, known, c, taken) && s in c.running
    ensures s in c.graph.entries && StateIsOk(source, known, TaskDone(source, c, s), taken)
  {
    hide GraphOk;
    hide FiniteSource;
    var c' := TaskDone(source, c, s);
    TaskDoneLoads(source, c, taken, s);
    forall x | x in c.graph.entries ensures StateOk(source, c.graph.entries, c'.slates, c.pendingLoads, x) {
      assert StateOk(source, c.graph.entries, c.slates, c.pendingLoads, x);
    }
  }

  lemma TaskDoneLoads<P>(source: Source<P>, c: State<P>, taken: seq<Completion>, s: Entity)
    requires LoadsOk(source, c.graph.entries, c.slates, c.running, c.completions + taken) && s in c.running
    ensures s in c.graph.entries
    ensures var c' := TaskDone(source, c, s);
            LoadsOk(source, c.graph.entries, c'.slates, c'.running, c'.completions + taken)
  {
    hide Insert;
    hide DistinctSlots;
    hide HasSlot;
    var c' := TaskDone(source, c, s);
    var x, cs, n := Completion(s, ReferencesOf(source.load(c.graph.entries[s].id))), c.completions + taken, |c.completions|;
    assert c'.completions + taken == Insert(cs, n, x) by { MidInsert(c.completions, x, taken); }
    InsertedSlots(cs, n, x);
    NotYetDone(source, c.graph.entries, c.slates, c.running, cs, s);
    TaskDoneOthers(source, c, cs, s);
    InsertedCompletions(source, c.graph.entries, c'.slates, c'.running, cs, n, x);
  }

  lemma TaskDoneOthers<P>(source: Source<P>, c: State<P>, cs: seq<Completion>, s: Entity)
    requires CompletionsOk(source, c.graph.entries, c.slates, c.running, cs) && s in c.graph.entries && s in c.running
    ensures CompletionsOk(source, c.graph.entries, TaskDone(source, c, s).slates, TaskDone(source, c, s).running, cs)
  {
    var c' := TaskDone(source, c, s);
    forall i | 0 <= i < |cs| ensures CompletionOk(source, c.graph.entries, c'.slates, cs[i]) && cs[i].slot !in c'.running {
      assert CompletionOk(source, c.graph.entries, c.slates, cs[i]);
      assert cs[i].slot != s;
    }
  }

  lemma NotYetDone<P>(source: Source<P>, entries: Entries, slates: map<Entity, Slate<P>>, running: set<Entity>,
                      cs: seq<Completion>, s: Entity)
    requires CompletionsOk(source, entries, slates, running, cs) && s in running
    ensures !HasSlot(cs, s)
  {
  }

  lemma MidInsert(a: seq<Completion>, x: Completion, b: seq<Completion>)
    ensures (a + [x]) + b == Insert(a + b, |a|, x) == a + ([x] + b)
  {
  }

  /** The entry of a finished load, its dependencies still to be requested. */
  ghost function Published<P>(c: State<P>, s: Entity, state: ResourceState): State<P>
    requires s in c.graph.entries
  {
    c.(graph := Restated(c.graph, s, c.graph.entries[s].(loading := false, state := state)))
  }

  /** `s` in another state, its id, count and edges unchanged. */
  ghost function Restated(g: Graph, s: Entity, entry: ResourceEntry): Graph {
    g.(entries := g.entries[s := entry])
  }

  lemma RestatedOk(g: Graph, s: Entity, entry: ResourceEntry)
    requires GraphOk(g) && s in g.entries
    requires entry.id == g.entries[s].id && entry.acquires == g.entries[s].acquires && entry.dependencies == g.entries[s].dependencies
    ensures GraphOk(Restated(g, s, entry))
  {
    hide IdsOk;
    hide Ranked;
    hide HoldersOk;
    var g' := Restated(g, s, entry);
    SameEdges(g, g'.entries);
    forall x | x in g'.entries ensures CountOk(g'.entries, g.holds, g.holders, x) {
      assert CountOk(g.entries, g.holds, g.holders, x);
    }
  }

  lemma PublishedState<P>(source: Source<P>, known: set<ResourceId>, c: State<P>, x: Completion, rest: seq<Completion>)
    requires StateIsOk(source, known, c, [x] + rest)
    ensures x.slot in c.graph.entries && x.slot in c.slates && CompletionOk(source, c.graph.entries, c.slates, x)
    ensures StateIsOk(source, known, Published(c, x.slot, if c.slates[x.slot].error.Some? then Failed else Ready), rest)
  {
    hide GraphOk;
    hide FiniteSource;
    hide InFlightOk;
    hide StatesOk;
    hide LoadsOk;
    PublishedSlot(source, c, x, rest);
    var state := if c.slates[x.slot].error.Some? then Failed else Ready;
    RestatedOk(c.graph, x.slot, c.graph.entries[x.slot].(loading := false, state := state));
    PublishedLoads(source, c, x, rest, state);
    PublishedStates(source, c, x, state);
  }

  lemma PublishedSlot<P>(source: Source<P>, c: State<P>, x: Completion, rest: seq<Completion>)
    requires LoadsOk(source, c.graph.entries, c.slates, c.running, c.completions + ([x] + rest))
    ensures x.slot in c.graph.entries && x.slot in c.slates && CompletionOk(source, c.graph.entries, c.slates, x)
  {
    assert (c.completions + ([x] + rest))[|c.completions|] == x;
  }

  lemma PublishedLoads<P>(source: Source<P>, c: State<P>, x: Completion, rest: seq<Completion>, state: ResourceState)
    requires LoadsOk(source, c.graph.entries, c.slates, c.running, c.completions + ([x] + rest)) && x.slot in c.graph.entries
    ensures LoadsOk(source, Published(c, x.slot, state).graph.entries, c.slates, c.running, c.completions + rest)
  {
    hide Insert;
    hide DistinctSlots;
    hide HasSlot;
    var c' := Published(c, x.slot, state);
    var cs, n := c.completions + rest, |c.completions|;
    assert c.completions + ([x] + rest) == Insert(cs, n, x) by { MidInsert(c.completions, x, rest); }
    InsertedSlots(cs, n, x);
    WithoutCompletion(source, c.graph.entries, c.slates, c.running, cs, n, x);
    OthersLoading(source, c, cs, x.slot, state);
  }

  lemma OthersLoading<P>(source: Source<P>, c: State<P>, cs: seq<Completion>, s: Entity, state: ResourceState)
    requires s in c.graph.entries && CompletionsOk(source, c.graph.entries, c.slates, c.running, cs) && !HasSlot(cs, s)
    ensures CompletionsOk(source, Published(c, s, state).graph.entries, c.slates, c.running, cs)
  {
    forall i | 0 <= i < |cs| ensures CompletionOk(source, Published(c, s, state).graph.entries, c.slates, cs[i]) {
      assert CompletionOk(source, c.graph.entries, c.slates, cs[i]);
      assert cs[i].slot != s;
    }
  }

  lemma PublishedStates<P>(source: Source<P>, c: State<P>, x: Completion, state: ResourceState)
    requires StatesOk(source, c.graph.entries, c.slates, c.pendingLoads)
    requires CompletionOk(source, c.graph.entries, c.slates, x)
    requires state == if c.slates[x.slot].error.Some? then Failed else Ready
    ensures StatesOk(source, Published(c, x.slot, state).graph.entries, c.slates, c.pendingLoads)
  {
    var c' := Published(c, x.slot, state);
    forall s | s in c'.graph.entries ensures StateOk(source, c'.graph.entries, c.slates, c.pendingLoads, s) {
      assert StateOk(source, c.graph.entries, c.slates, c.pendingLoads, s);
    }
  }

  /** A loaded entry one of whose dependencies was refused. */
  ghost function FailedWith<P>(c: State<P>, s: Entity, error: CacheError): State<P>
    requires s in c.graph.entries && s in c.slates
  {
    c.(graph := Restated(c.graph, s, c.graph.entries[s].(state := Failed)),
       slates := c.slates[s := c.slates[s].(error := Some(error))])
  }

  lemma FailedState<P>(source: Source<P>, known: set<ResourceId>, c: State<P>, taken: seq<Completion>, s: Entity, error: CacheError)
    requires StateIsOk(source, known, c, taken) && s in c.graph.entries && c.graph.entries[s].state.Ready?
    ensures s in c.slates && !c.graph.entries[s].loading
    ensures StateIsOk(source, known, FailedWith(c, s, error), taken)
  {
    hide GraphOk;
    hide FiniteSource;
    hide InFlightOk;
    assert StateOk(source, c.graph.entries, c.slates, c.pendingLoads, s);
    RestatedOk(c.graph, s, c.graph.entries[s].(state := Failed));
    var c' := FailedWith(c, s, error);
    forall x | x in c'.graph.entries ensures StateOk(source, c'.graph.entries, c'.slates, c'.pendingLoads, x) {
      assert StateOk(source, c.graph.entries, c.slates, c.pendingLoads, x);
    }
    var cs := c.completions + taken;
    forall i | 0 <= i < |cs| ensures CompletionOk(source, c'.graph.entries, c'.slates, cs[i]) && cs[i].slot !in c'.running {
      assert CompletionOk(source, c.graph.entries, c.slates, cs[i]);
    }
  }

  lemma FailedProgress<P>(c: State<P>, s: Entity, error: CacheError)
    requires s in c.graph.entries && s in c.slates && !c.graph.entries[s].loading
    ensures Progress(c, FailedWith(c, s, error))
  {
  }

  lemma FailedReferences<P>(source: Source<P>, c: State<P>, s: Entity, error: CacheError)
    requires s in c.graph.entries && s in c.slates && ReferencesKept(source, c, {s})
    ensures ReferencesKept(source, FailedWith(c, s, error), {})
  {
    var c' := FailedWith(c, s, error);
    forall x | x in c'.graph.entries && c'.graph.entries[x].state.Ready?
      ensures RefersTo(c'.graph, x, ReferencesOf(source.load(c'.graph.entries[x].id)))
    {
      assert x != s && RefersTo(c.graph, x, ReferencesOf(source.load(c.graph.entries[x].id)));
    }
  }

  lemma PublishedProgress<P>(c: State<P>, s: Entity, state: ResourceState)
    requires s in c.graph.entries
    ensures Progress(c, Published(c, s, state))
  {
  }

  lemma PublishedReferences<P>(source: Source<P>, c: State<P>, s: Entity, state: ResourceState)
    requires s in c.graph.entries && ReferencesKept(source, c, {})
    ensures ReferencesKept(source, Published(c, s, state), if state.Ready? then {s} else {})
  {
    var c' := Published(c, s, state);
    forall x | x in c'.graph.entries && c'.graph.entries[x].state.Ready? && x !in (if state.Ready? then {s} else {})
      ensures RefersTo(c'.graph, x, ReferencesOf(source.load(c'.graph.entries[x].id)))
    {
      assert x != s && RefersTo(c.graph, x, ReferencesOf(source.load(c.graph.entries[x].id)));
    }
  }

  lemma ReferencesDone<P>(source: Source<P>, c: State<P>, s: Entity)
    requires ReferencesKept(source, c, {s})
    requires s in c.graph.entries ==> RefersTo(c.graph, s, ReferencesOf(source.load(c.graph.entries[s].id)))
    ensures ReferencesKept(source, c, {})
  {
  }

  lemma NoReferences(g: Graph, s: Entity)
    requires s in g.entries
    ensures RefersTo(g, s, [])
  {
  }

  lemma GrownSlot<P>(c0: State<P>, c: State<P>, s: Entity)
    requires Grown(c0, c) && s in c0.graph.entries
    ensures s in c.graph.entries && c.graph.entries[s].state == c0.graph.entries[s].state && c.graph.entries[s].id == c0.graph.entries[s].id
  {
    assert EntryGrown(c0.graph.entries[s], c.graph.entries[s]);
  }

  /** What one more dependency of `s`, or a refused one, means for the publishing that began at `c0`. */
  lemma AfterDependency<P>(source: Source<P>, c0: State<P>, c1: State<P>, c: State<P>, s: Entity)
    requires Progress(c0, c1) && Grown(c1, c) && s in c0.graph.entries && s in c1.graph.entries
    ensures Progress(c0, c) && s in c.graph.entries
    ensures c.graph.entries[s].state == c1.graph.entries[s].state && c.graph.entries[s].id == c1.graph.entries[s].id
    ensures ReferencesKept(source, c1, {s}) ==> ReferencesKept(source, c, {s})
    ensures FailedIn(c.graph.entries) == FailedIn(c1.graph.entries)
    ensures forall error :: Told(error, c0.graph.entries, c1.graph.entries) ==> Told(error, c0.graph.entries, c.graph.entries)
  {
    hide Progress;
    hide Grown;
    hide ReferencesKept;
    GrownProgress(c1, c);
    ProgressChain(c0, c1, c);
    GrownSlot(c1, c, s);
    GrownFailed(c1, c);
    if ReferencesKept(source, c1, {s}) {
      GrownReferences(source, c1, c, {s});
    }
  }

  lemma OneMoreReference<P>(c0: State<P>, c: State<P>, s: Entity, references: seq<ResourceId>, k: nat, out: Entity)
    requires Grown(c0, c) && s in c0.graph.entries && s in c.graph.entries && k < |references|
    requires |c0.graph.entries[s].dependencies| == k && c.graph.entries[s].dependencies == c0.graph.entries[s].dependencies + [out]
    requires references[k] in c.graph.byId && c.graph.byId[references[k]] == out
    requires RefersTo(c0.graph, s, references[..k])
    ensures RefersTo(c.graph, s, references[..k + 1])
  {
    hide NoneForgotten;
    forall i | 0 <= i < k
      ensures references[i] in c.graph.byId && c.graph.byId[references[i]] == c.graph.entries[s].dependencies[i]
    {
      assert references[..k][i] == references[i];
    }
  }

  lemma ProgressIds<P>(c0: State<P>, c: State<P>, s: Entity)
    requires Progress(c0, c) && s in c0.graph.entries
    ensures s in c.graph.entries && c.graph.entries[s].id == c0.graph.entries[s].id
  {
    assert EntryProgress(c0.graph.entries[s], c.graph.entries[s]);
  }

  /** What a completion hands over. */
  lemma CompletionMeans<P>(source: Source<P>, known: set<ResourceId>, c: State<P>, x: Completion, rest: seq<Completion>)
    requires StateIsOk(source, known, c, [x] + rest)
    requires x.slot in c.graph.entries && x.slot in c.slates && CompletionOk(source, c.graph.entries, c.slates, x)
    ensures x.dependencies == ReferencesOf(source.load(c.graph.entries[x.slot].id)) && NULL_ID !in x.dependencies
    ensures c.graph.entries[x.slot].dependencies == [] && c.graph.entries[x.slot].state.Pending?
    ensures c.slates[x.slot].error ==
            match source.load(c.graph.entries[x.slot].id)
            case Loaded(_, _) => None
            case LoadFailed(error) => Some(error)
  {
    hide GraphOk;
    hide LoadsOk;
    hide InFlightOk;
    assert StateOk(source, c.graph.entries, c.slates, c.pendingLoads, x.slot);
  }

  // ----- Steps of submitting -----

  /** The state as it will be once the tasks collected so far are handed over. */
  ghost function Submitting<P>(c: State<P>, tasks: set<Entity>, rest: seq<Entity>): State<P> {
    c.(running := c.running + tasks, inFlight := c.inFlight + [tasks], pendingLoads := rest)
  }

  lemma SubmitStarts<P>(source: Source<P>, known: set<ResourceId>, c: State<P>)
    requires StateIsOk(source, known, c, [])
    ensures StateIsOk(source, known, Submitting(c, {}, c.pendingLoads), [])
  {
    hide GraphOk;
    hide LoadsOk;
    hide StatesOk;
    hide FiniteSource;
    assert c.running + {} == c.running;
    BatchAdded(c.running, c.inFlight, {});
  }

  lemma BatchAdded(running: set<Entity>, inFlight: seq<set<Entity>>, tasks: set<Entity>)
    requires InFlightOk(running, inFlight)
    ensures InFlightOk(running + tasks, inFlight + [tasks])
  {
    var all := inFlight + [tasks];
    forall s | s in running + tasks ensures exists i :: 0 <= i < |all| && s in all[i] {
      if s in running {
        var i :| 0 <= i < |inFlight| && s in inFlight[i];
        assert s in all[i];
      } else {
        assert s in all[|inFlight|];
      }
    }
  }

  lemma BatchGrows(running: set<Entity>, inFlight: seq<set<Entity>>, tasks: set<Entity>, s: Entity)
    requires InFlightOk(running + tasks, inFlight + [tasks])
    ensures InFlightOk(running + (tasks + {s}), inFlight + [tasks + {s}])
  {
    var all, all' := inFlight + [tasks], inFlight + [tasks + {s}];
    forall x | x in running + (tasks + {s}) ensures exists i :: 0 <= i < |all'| && x in all'[i] {
      if x == s {
        assert x in all'[|inFlight|];
      } else {
        var i :| 0 <= i < |all| && x in all[i];
        assert x in all'[i];
      }
    }
  }

  lemma EmptyBatch(running: set<Entity>, inFlight: seq<set<Entity>>)
    requires InFlightOk(running + {}, inFlight + [{}])
    ensures InFlightOk(running, inFlight)
  {
    var all := inFlight + [{}];
    forall x | x in running ensures exists i :: 0 <= i < |inFlight| && x in inFlight[i] {
      assert x in running + {};
      var i :| 0 <= i < |all| && x in all[i];
      assert x in inFlight[i];
    }
  }

  /** A slot that needs no load, because it is gone, loaded or loading, is passed over. */
  lemma SubmitSkips<P>(source: Source<P>, known: set<ResourceId>, c: State<P>, tasks: set<Entity>, rest: seq<Entity>)
    requires StateIsOk(source, known, Submitting(c, tasks, rest), []) && rest != []
    requires var s := rest[0]; !(s in c.graph.entries && c.graph.entries[s].state.Pending? && !c.graph.entries[s].loading)
    ensures StateIsOk(source, known, Submitting(c, tasks, rest[1..]), [])
  {
    hide GraphOk;
    hide LoadsOk;
    hide FiniteSource;
    hide InFlightOk;
    forall x | x in c.graph.entries ensures StateOk(source, c.graph.entries, c.slates, rest[1..], x) {
      assert StateOk(source, c.graph.entries, c.slates, rest, x);
      assert rest == [rest[0]] + rest[1..];
    }
  }

  ghost function Marked<P>(c: State<P>, s: Entity): State<P>
    requires s in c.graph.entries
  {
    c.(graph := Restated(c.graph, s, c.graph.entries[s].(loading := true)))
  }

  lemma SubmitMarks<P>(source: Source<P>, known: set<ResourceId>, c: State<P>, tasks: set<Entity>, rest: seq<Entity>)
    requires StateIsOk(source, known, Submitting(c, tasks, rest), []) && rest != []
    requires rest[0] in c.graph.entries && c.graph.entries[rest[0]].state.Pending? && !c.graph.entries[rest[0]].loading
    ensures StateIsOk(source, known, Submitting(Marked(c, rest[0]), tasks + {rest[0]}, rest[1..]), [])
  {
    hide GraphOk;
    hide LoadsOk;
    hide StatesOk;
    hide FiniteSource;
    hide InFlightOk;
    var s := rest[0];
    RestatedOk(c.graph, s, c.graph.entries[s].(loading := true));
    BatchGrows(c.running, c.inFlight, tasks, s);
    MarkedLoads(source, c, tasks, s);
    MarkedStates(source, c, rest);
  }

  lemma MarkedLoads<P>(source: Source<P>, c: State<P>, tasks: set<Entity>, s: Entity)
    requires LoadsOk(source, c.graph.entries, c.slates, c.running + tasks, c.completions + [])
    requires s in c.graph.entries && !c.graph.entries[s].loading
    ensures LoadsOk(source, Marked(c, s).graph.entries, c.slates, c.running + (tasks + {s}), c.completions + [])
  {
    var c', cs := Marked(c, s), c.completions + [];
    forall i | 0 <= i < |cs|
      ensures CompletionOk(source, c'.graph.entries, c.slates, cs[i]) && cs[i].slot !in c.running + (tasks + {s})
    {
      assert CompletionOk(source, c.graph.entries, c.slates, cs[i]);
    }
  }

  lemma MarkedStates<P>(source: Source<P>, c: State<P>, rest: seq<Entity>)
    requires rest != [] && StatesOk(source, c.graph.entries, c.slates, rest)
    requires rest[0] in c.graph.entries && c.graph.entries[rest[0]].state.Pending?
    ensures StatesOk(source, Marked(c, rest[0]).graph.entries, c.slates, rest[1..])
  {
    var c' := Marked(c, rest[0]);
    forall x | x in c'.graph.entries ensures StateOk(source, c'.graph.entries, c.slates, rest[1..], x) {
      assert StateOk(source, c.graph.entries, c.slates, rest, x);
      assert rest == [rest[0]] + rest[1..];
    }
  }

  lemma SubmitEnds<P>(source: Source<P>, known: set<ResourceId>, c: State<P>, tasks: set<Entity>)
    requires StateIsOk(source, known, Submitting(c, tasks, []), [])
    ensures StateIsOk(source, known, c.(running := c.running + tasks, pendingLoads := [],
                                        inFlight := if tasks == {} then c.inFlight else c.inFlight + [tasks]), [])
  {
    hide GraphOk;
    hide LoadsOk;
    hide StatesOk;
    hide FiniteSource;
    hide InFlightOk;
    if tasks == {} {
      EmptyBatch(c.running, c.inFlight);
      assert c.running + {} == c.running;
    }
  }

  /** Only load flags were set; `c` is `c0` with its pending loads on their way. */
  ghost predicate Submitted<P>(c0: State<P>, c: State<P>) {
    && c.graph == c0.graph.(entries := c.graph.entries)
    && c.graph.entries.Keys == c0.graph.entries.Keys
    && (forall s :: s in c.graph.entries ==> c.graph.entries[s] == c0.graph.entries[s].(loading := c.graph.entries[s].loading))
    && c.slates == c0.slates && c.pendingFrees == c0.pendingFrees && c.completions == c0.completions
  }

  lemma SubmittedNone<P>(c0: State<P>, c: State<P>)
    requires c == c0.(pendingLoads := [])
    ensures Submitted(c0, c)
  {
  }

  lemma SubmittedMore<P>(c0: State<P>, c: State<P>, s: Entity)
    requires Submitted(c0, c) && s in c.graph.entries
    ensures Submitted(c0, Marked(c, s))
  {
  }

  lemma SubmittedRunning<P>(c0: State<P>, c: State<P>)
    requires Submitted(c0, c)
    ensures forall running, inFlight :: Submitted(c0, c.(running := running, inFlight := inFlight))
  {
  }

  lemma SubmittedFailed<P>(source: Source<P>, order: ResourceId -> nat, c0: State<P>, c: State<P>)
    requires Submitted(c0, c)
    ensures FailedIn(c.graph.entries) == FailedIn(c0.graph.entries)
    ensures Sane(source, order, c0.graph) ==> Sane(source, order, c.graph)
  {
    hide Healthy;
    if Sane(source, order, c0.graph) {
      forall s | s in c.graph.entries ensures EntrySane(source, order, c.graph.entries, s) {
        assert EntrySane(source, order, c0.graph.entries, s);
      }
    }
  }

  lemma AllWaited<P>(source: Source<P>, known: set<ResourceId>, c: State<P>)
    requires StateIsOk(source, known, c, [])
    requires forall k :: 0 <= k < |c.inFlight| ==> c.running * c.inFlight[k] == {}
    ensures c.running == {} && StateIsOk(source, known, c.(inFlight := []), [])
  {
    hide GraphOk;
    hide LoadsOk;
    hide StatesOk;
    hide FiniteSource;
    forall k, s | 0 <= k < |c.inFlight| && s in c.inFlight[k] ensures s !in c.running {
      assert s in c.running * c.inFlight[k] <==> s in c.running;
    }
  }

  lemma CompletionsTaken<P>(source: Source<P>, known: set<ResourceId>, c: State<P>)
    requires StateIsOk(source, known, c, [])
    ensures StateIsOk(source, known, c.(completions := []), c.completions)
  {
    hide GraphOk;
    hide LoadsOk;
    hide StatesOk;
    hide FiniteSource;
    hide InFlightOk;
    assert c.completions + [] == c.completions == [] + c.completions;
  }

  lemma TakenProgress<P>(source: Source<P>, c0: State<P>, c: State<P>)
    requires c == c0.(completions := [])
    ensures Progress(c0, c)
    ensures ReferencesKept(source, c0, {}) <==> ReferencesKept(source, c, {})
  {
  }

  lemma WorkersProgress<P>(source: Source<P>, c0: State<P>, c: State<P>)
    requires c == c0.(slates := c.slates, running := c.running, completions := c.completions) && c.running <= c0.running
    ensures Progress(c0, c)
    ensures ReferencesKept(source, c0, {}) <==> ReferencesKept(source, c, {})
  {
  }

  // ----- Steps of freeing -----

  ghost function FreedFrom<P>(c: State<P>, s: Entity): State<P>
    requires s in c.graph.entries && c.graph.holders.Keys == c.graph.entries.Keys
  {
    c.(graph := Freed(c.graph, s), slates := c.slates - {s})
  }

  lemma FreedState<P>(source: Source<P>, known: set<ResourceId>, c: State<P>, taken: seq<Completion>, s: Entity)
    requires StateIsOk(source, known, c, taken) && s in c.graph.entries
    requires c.graph.entries[s].acquires == 0 && !c.graph.entries[s].loading
    ensures c.graph.holders.Keys == c.graph.entries.Keys
    ensures StateIsOk(source, known, FreedFrom(c, s), taken)
  {
    hide LoadsOk;
    hide StatesOk;
    hide FiniteSource;
    hide InFlightOk;
    hide Ranked;
    hide IdsOk;
    hide CountsOk;
    FreedOk(c.graph, s);
    FreedLoads(source, c, taken, s);
    FreedStates(source, c, s);
    FreedKnown(c.graph, s, known);
  }

  lemma FreedKnown(g: Graph, s: Entity, known: set<ResourceId>)
    requires s in g.entries && g.holders.Keys == g.entries.Keys && IdsKnown(g.byId, known)
    ensures IdsKnown(Freed(g, s).byId, known)
  {
  }

  lemma FreedLoads<P>(source: Source<P>, c: State<P>, taken: seq<Completion>, s: Entity)
    requires LoadsOk(source, c.graph.entries, c.slates, c.running, c.completions + taken)
    requires s in c.graph.entries && !c.graph.entries[s].loading
    ensures LoadsOk(source, c.graph.entries - {s}, c.slates - {s}, c.running, c.completions + taken)
  {
    var cs := c.completions + taken;
    forall i | 0 <= i < |cs|
      ensures CompletionOk(source, c.graph.entries - {s}, c.slates - {s}, cs[i]) && cs[i].slot !in c.running
    {
      assert CompletionOk(source, c.graph.entries, c.slates, cs[i]);
    }
  }

  lemma FreedStates<P>(source: Source<P>, c: State<P>, s: Entity)
    requires StatesOk(source, c.graph.entries, c.slates, c.pendingLoads) && s in c.graph.entries
    ensures StatesOk(source, c.graph.entries - {s}, c.slates - {s}, c.pendingLoads)
  {
    forall x | x in c.graph.entries - {s} ensures StateOk(source, c.graph.entries - {s}, c.slates - {s}, c.pendingLoads, x) {
      assert StateOk(source, c.graph.entries, c.slates, c.pendingLoads, x);
    }
  }

  /** `c` is `c0` with entries freed: those left are the same but for their counts, and an entry that lost
      its last holder on the way waits to be freed. The caller's holds are a separate matter. */
  ghost predicate Freeing<P>(c0: State<P>, c: State<P>) {
    && (forall s :: s in c.graph.entries ==> SameEntry(c0.graph.entries, c.graph.entries[s], s))
    && (forall s :: s in c.graph.entries && c.graph.entries[s].acquires == 0 ==>
          (s in c0.graph.entries && c0.graph.entries[s].acquires == 0) || s in c.pendingFrees)
    && (forall id :: id in c.graph.byId ==> id in c0.graph.byId && c.graph.byId[id] == c0.graph.byId[id])
    && c0.pendingFrees <= c.pendingFrees && c.graph.rank == c0.graph.rank
    && c.pendingLoads == c0.pendingLoads && c.running <= c0.running && c.inFlight == c0.inFlight
  }

  lemma FreeingSame<P>(c: State<P>)
    ensures Freeing(c, c)
  {
  }

  lemma FreeingChain<P>(c0: State<P>, c1: State<P>, c2: State<P>)
    requires Freeing(c0, c1) && Freeing(c1, c2)
    ensures Freeing(c0, c2)
  {
    forall s | s in c2.graph.entries ensures SameEntry(c0.graph.entries, c2.graph.entries[s], s) {
      assert SameEntry(c1.graph.entries, c2.graph.entries[s], s);
      assert SameEntry(c0.graph.entries, c1.graph.entries[s], s);
    }
  }

  lemma FreedFreeing<P>(c: State<P>, s: Entity)
    requires s in c.graph.entries && c.graph.holders.Keys == c.graph.entries.Keys
    ensures Freeing(c, FreedFrom(c, s))
    ensures FreedFrom(c, s).graph.entries.Keys == c.graph.entries.Keys - {s}
  {
  }

  lemma ReleasedFreeing<P>(c: State<P>, s: Entity)
    ensures Freeing(c, Released(c, s))
    ensures Released(c, s).graph.entries.Keys == c.graph.entries.Keys
  {
  }

  /** What lets the loop of releases go on: each dependency of the freed entry is a hold of the caller. */
  lemma ReleaseNext<P>(c: State<P>, holds: multiset<Entity>, dependencies: seq<Entity>, k: nat)
    requires GraphOk(c.graph) && k < |dependencies| && c.graph.holds == holds + multiset(dependencies[k..])
    ensures dependencies[k] in c.graph.holds && dependencies[k] in c.graph.entries
    ensures Released(c, dependencies[k]).graph.holds == holds + multiset(dependencies[k + 1..])
  {
    hide IdsOk;
    hide Ranked;
    hide HoldersOk;
    assert dependencies[k..] == [dependencies[k]] + dependencies[k + 1..];
    HeldLive(c.graph, dependencies[k]);
  }

  // ----- Steps of draining -----

  /** A drain that began at `g0`: nothing wanted is gone, and what may be freed is queued, to be looked at
      still, or put off because it is loading. */
  ghost predicate Draining<P>(g0: Graph, c: State<P>, rest: seq<Entity>, deferred: seq<Entity>)
    requires GraphOk(g0)
  {
    && Thinned(g0, c.graph)
    && (forall x :: x in g0.entries && Wanted(g0, x) ==> x in c.graph.entries)
    && (forall s :: s in c.graph.entries && c.graph.entries[s].acquires == 0 ==>
          s in c.pendingFrees || s in rest || (s in deferred && c.graph.entries[s].loading))
  }

  lemma DrainStarts<P>(c: State<P>)
    requires GraphOk(c.graph) && NoneForgotten(c.graph.entries, c.pendingFrees)
    ensures Draining(c.graph, c, [], [])
  {
  }

  lemma DrainSwaps<P>(g0: Graph, c: State<P>, deferred: seq<Entity>)
    requires GraphOk(g0) && Draining(g0, c, [], deferred)
    ensures Draining(g0, c.(pendingFrees := []), c.pendingFrees, deferred)
  {
    hide GraphOk;
    hide Wanted;
  }

  lemma DrainPasses<P>(g0: Graph, c: State<P>, rest: seq<Entity>, deferred: seq<Entity>)
    requires GraphOk(g0) && rest != [] && Draining(g0, c, rest, deferred) && rest[0] !in c.graph.entries
    ensures Draining(g0, c, rest[1..], deferred)
  {
    hide GraphOk;
    hide Wanted;
    hide Thinned;
    assert rest == [rest[0]] + rest[1..];
  }

  lemma DrainDefers<P>(g0: Graph, c: State<P>, rest: seq<Entity>, deferred: seq<Entity>)
    requires GraphOk(g0) && rest != [] && Draining(g0, c, rest, deferred) && rest[0] in c.graph.entries
    requires c.graph.entries[rest[0]].loading || c.graph.entries[rest[0]].acquires > 0
    ensures Draining(g0, c, rest[1..], deferred + [rest[0]])
  {
    hide GraphOk;
    hide Wanted;
    hide Thinned;
    assert rest == [rest[0]] + rest[1..];
  }

  lemma DrainDrops<P>(g0: Graph, c: State<P>, c': State<P>, rest: seq<Entity>, deferred: seq<Entity>)
    requires GraphOk(g0) && GraphOk(c.graph) && rest != [] && Draining(g0, c, rest, deferred) && rest[0] in c.graph.entries
    requires !c.graph.entries[rest[0]].loading && c.graph.entries[rest[0]].acquires == 0
    requires Freeing(c, c') && c'.graph.holds == c.graph.holds
    requires c'.graph.entries.Keys == c.graph.entries.Keys - {rest[0]}
    ensures Draining(g0, c', rest[1..], deferred)
  {
    hide GraphOk;
    hide Wanted;
    assert rest == [rest[0]] + rest[1..];
    FreeableUnwanted(g0, c.graph, rest[0]);
    forall s | s in c'.graph.entries ensures SameEntry(g0.entries, c'.graph.entries[s], s) {
      assert SameEntry(c.graph.entries, c'.graph.entries[s], s);
      assert SameEntry(g0.entries, c.graph.entries[s], s);
    }
  }

  lemma DrainEnds<P>(g0: Graph, c: State<P>, deferred: seq<Entity>)
    requires GraphOk(g0) && GraphOk(c.graph) && Draining(g0, c, [], deferred) && c.pendingFrees == []
    ensures NoneForgotten(c.graph.entries, c.pendingFrees + deferred)
    ensures forall s :: s in c.graph.entries ==> c.graph.entries[s].acquires > 0 || c.graph.entries[s].loading
    ensures forall s :: s in g0.entries ==> (s in c.graph.entries <==> Wanted(g0, s))
    ensures Thinned(g0, c.graph)
  {
    hide GraphOk;
    hide Wanted;
    ExactlyWanted(g0, c.graph);
  }

  lemma DrainedEmpty(g0: Graph, g: Graph)
    requires GraphOk(g0) && GraphOk(g) && Thinned(g0, g)
    requires forall s :: s in g0.entries ==> (s in g.entries <==> Wanted(g0, s))
    ensures g0.holds == multiset{} && (forall s :: s in g0.entries ==> !g0.entries[s].loading) ==>
              g.entries == map[] && g.byId == map[]
  {
    if g0.holds == multiset{} && forall s :: s in g0.entries ==> !g0.entries[s].loading {
      forall s | s in g0.entries ensures s !in g.entries {
        NothingWanted(g0, s);
      }
      assert forall s :: s in g.entries ==> s in g0.entries;
      assert g.entries.Keys == {};
      assert g.byId.Keys == {};
    }
  }

  lemma WorkersDrain<P>(g0: Graph, c0: State<P>, c: State<P>, rest: seq<Entity>, deferred: seq<Entity>)
    requires GraphOk(g0) && Draining(g0, c0, rest, deferred)
    requires c == c0.(slates := c.slates, running := c.running, completions := c.completions)
    ensures Draining(g0, c, rest, deferred)
  {
    hide GraphOk;
    hide Wanted;
  }

  lemma QueueSwapped<P>(source: Source<P>, known: set<ResourceId>, c: State<P>, queue: seq<Entity>)
    requires StateIsOk(source, known, c, [])
    ensures StateIsOk(source, known, c.(pendingFrees := queue), [])
  {
  }

  lemma RestoredReferences<P>(source: Source<P>, c: State<P>, queue: seq<Entity>)
    requires ReferencesKept(source, c, {})
    ensures ReferencesKept(source, c.(pendingFrees := c.pendingFrees + queue), {})
  {
  }

  // ----- What has ended -----

  /** What had ended before, but for `but`, is as it was, with the error it ended with. */
  ghost predicate Settled<P>(c0: State<P>, c: State<P>, but: set<Entity>) {
    forall s :: s in c0.graph.entries && !c0.graph.entries[s].state.Pending? && s !in but ==> SettledAt(c0, c, s)
  }

  ghost predicate SettledAt<P>(c0: State<P>, c: State<P>, s: Entity)
    requires s in c0.graph.entries
  {
    && s in c.graph.entries && c.graph.entries[s].state == c0.graph.entries[s].state
    && (s in c0.slates ==> s in c.slates && c.slates[s].error == c0.slates[s].error)
  }

  lemma SettledSame<P>(c0: State<P>, c: State<P>)
    requires c.graph == c0.graph && c.slates == c0.slates
    ensures Settled(c0, c, {})
  {
  }

  lemma SettledChain<P>(c0: State<P>, c1: State<P>, c2: State<P>, but: set<Entity>)
    requires Settled(c0, c1, {}) && Settled(c1, c2, but)
    ensures Settled(c0, c2, but)
  {
    forall s | s in c0.graph.entries && !c0.graph.entries[s].state.Pending? && s !in but ensures SettledAt(c0, c2, s) {
      assert SettledAt(c0, c1, s);
      assert SettledAt(c1, c2, s);
    }
  }

  lemma SettledGrown<P>(c0: State<P>, c: State<P>, but: set<Entity>)
    requires Grown(c0, c)
    ensures Settled(c0, c, but)
  {
    hide NoneForgotten;
    forall s | s in c0.graph.entries && !c0.graph.entries[s].state.Pending? && s !in but ensures SettledAt(c0, c, s) {
      assert EntryGrown(c0.graph.entries[s], c.graph.entries[s]);
    }
  }

  /** What happens to `s` after its load has ended happens to nothing that had ended before. */
  lemma SettledAround<P>(c0: State<P>, c1: State<P>, c2: State<P>, s: Entity)
    requires Settled(c0, c1, {}) && Settled(c1, c2, {s}) && s in c0.graph.entries && c0.graph.entries[s].state.Pending?
    ensures Settled(c0, c2, {})
  {
    forall x | x in c0.graph.entries && !c0.graph.entries[x].state.Pending? ensures SettledAt(c0, c2, x) {
      assert SettledAt(c0, c1, x);
      assert SettledAt(c1, c2, x);
    }
  }

  lemma SettledBut<P>(c0: State<P>, c1: State<P>, c2: State<P>, s: Entity)
    requires Settled(c0, c1, {s}) && Settled(c1, c2, {s})
    ensures Settled(c0, c2, {s})
  {
    forall x | x in c0.graph.entries && !c0.graph.entries[x].state.Pending? && x != s ensures SettledAt(c0, c2, x) {
      assert SettledAt(c0, c1, x);
      assert SettledAt(c1, c2, x);
    }
  }

  lemma SettledPublished<P>(c: State<P>, s: Entity, state: ResourceState)
    requires s in c.graph.entries && c.graph.entries[s].state.Pending?
    ensures Settled(c, Published(c, s, state), {})
  {
  }

  lemma SettledFailed<P>(c: State<P>, s: Entity, error: CacheError)
    requires s in c.graph.entries && s in c.slates
    ensures Settled(c, FailedWith(c, s, error), {s})
  {
  }

  lemma SettledSubmitted<P>(c0: State<P>, c: State<P>)
    requires Submitted(c0, c)
    ensures Settled(c0, c, {})
  {
  }

  lemma SettledTask<P>(source: Source<P>, known: set<ResourceId>, c: State<P>, taken: seq<Completion>, s: Entity)
    requires StateIsOk(source, known, c, taken) && s in c.running
    ensures s in c.graph.entries && Settled(c, TaskDone(source, c, s), {})
  {
    hide GraphOk;
    hide FiniteSource;
    hide InFlightOk;
    assert StateOk(source, c.graph.entries, c.slates, c.pendingLoads, s);
  }

  /** The load behind the completion has ended, and its entry has failed exactly if there is an error. */
  ghost predicate Ended<P>(c: State<P>, x: Completion) {
    && x.slot in c.graph.entries && !c.graph.entries[x.slot].state.Pending? && x.slot in c.slates
    && (c.graph.entries[x.slot].state.Failed? <==> c.slates[x.slot].error.Some?)
  }

  ghost predicate AllEnded<P>(c: State<P>, cs: seq<Completion>) {
    forall k :: 0 <= k < |cs| ==> Ended(c, cs[k])
  }

  /** The error of the first of the completions that has one. */
  function FirstError<P>(cs: seq<Completion>, slates: map<Entity, Slate<P>>): Option<CacheError> {
    if cs == [] then None else
    var before := FirstError(cs[..|cs| - 1], slates);
    if before.Some? then before
    else if cs[|cs| - 1].slot in slates then slates[cs[|cs| - 1].slot].error
    else None
  }

  lemma NothingEnded<P>(c: State<P>, cs: seq<Completion>)
    ensures AllEnded(c, cs[..0]) && FirstError(cs[..0], c.slates) == None
  {
  }

  lemma OneMoreEnded<P>(c: State<P>, cs: seq<Completion>, x: Completion)
    requires AllEnded(c, cs) && Ended(c, x)
    ensures AllEnded(c, cs + [x])
    ensures FirstError(cs + [x], c.slates) ==
            if FirstError(cs, c.slates).Some? then FirstError(cs, c.slates) else c.slates[x.slot].error
  {
    assert (cs + [x])[..|cs|] == cs;
  }

  lemma {:induction false} MoreEnded<P>(c: State<P>, cs: seq<Completion>, more: seq<Completion>)
    requires AllEnded(c, cs) && AllEnded(c, more)
    ensures AllEnded(c, cs + more)
    ensures FirstError(cs + more, c.slates) ==
            if FirstError(cs, c.slates).Some? then FirstError(cs, c.slates) else FirstError(more, c.slates)
  {
    hide Ended;
    if more == [] {
      assert cs + more == cs;
    } else {
      var front := more[..|more| - 1];
      MoreEnded(c, cs, front);
      assert (cs + more)[..|cs + more| - 1] == cs + front;
    }
  }

  /** What has ended stays so, and the first error the same. */
  lemma {:induction false} EndedStay<P>(c: State<P>, c': State<P>, cs: seq<Completion>)
    requires AllEnded(c, cs) && Settled(c, c', {})
    ensures AllEnded(c', cs) && FirstError(cs, c'.slates) == FirstError(cs, c.slates)
  {
    forall k | 0 <= k < |cs| ensures Ended(c', cs[k]) {
      assert Ended(c, cs[k]);
      assert SettledAt(c, c', cs[k].slot);
    }
    if cs != [] {
      assert Ended(c, cs[|cs| - 1]);
      assert SettledAt(c, c', cs[|cs| - 1].slot);
      EndedStay(c, c', cs[..|cs| - 1]);
    }
  }

  // ----- Why entries failed -----

  /** The source knows the resource of every entry. */
  ghost predicate Heard<P>(source: Source<P>, g: Graph) {
    forall id :: id in g.byId ==> source.find(id) != Unknown
  }

  lemma StateHeard<P>(source: Source<P>, known: set<ResourceId>, c: State<P>, taken: seq<Completion>)
    requires StateIsOk(source, known, c, taken)
    ensures Heard(source, c.graph)
  {
    hide GraphOk;
    hide LoadsOk;
    hide StatesOk;
    hide InFlightOk;
  }

  /** A dependency path leads from the entry of `id` to `s`. */
  ghost predicate LeadsTo(g: Graph, id: ResourceId, s: Entity) {
    id in g.byId && exists p :: Path(g.entries, p) && p[0] == g.byId[id] && p[|p| - 1] == s
  }

  /** The references before number `k` are dependencies of `s`, and that one was refused with `error`: there is no
      entry for it and the source does not know it, or depending on it would close a cycle. */
  ghost predicate RefusedAt<P>(source: Source<P>, g: Graph, s: Entity, references: seq<ResourceId>, k: nat, error: CacheError)
    requires s in g.entries
  {
    && k < |references| && RefersTo(g, s, references[..k])
    && (error == UnknownResource || error == CyclicReference)
    && (error == UnknownResource <==> references[k] !in g.byId && source.find(references[k]) == Unknown)
    && (error == CyclicReference <==> LeadsTo(g, references[k], s))
  }

  /** `error` is why the load behind `s` came to nothing: that of the load itself, or, after a load that went well,
      that of the first reference refused. */
  ghost predicate FailedFor<P>(source: Source<P>, g: Graph, s: Entity, error: CacheError)
    requires s in g.entries
  {
    match source.load(g.entries[s].id)
    case LoadFailed(loadError) => error == loadError
    case Loaded(_, references) => exists k: nat :: RefusedAt(source, g, s, references, k, error)
  }

  /** The same entries and more, each with its dependencies and perhaps more. */
  ghost predicate Later(g0: Graph, g: Graph) {
    && (forall id :: id in g0.byId ==> id in g.byId && g.byId[id] == g0.byId[id])
    && (forall s :: s in g0.entries ==> s in g.entries && EntryKept(g0.entries[s], g.entries[s]))
  }

  lemma ProgressLater<P>(c0: State<P>, c: State<P>)
    requires Progress(c0, c)
    ensures Later(c0.graph, c.graph)
  {
    hide NoneForgotten;
    forall s | s in c0.graph.entries ensures EntryKept(c0.graph.entries[s], c.graph.entries[s]) {
      assert EntryProgress(c0.graph.entries[s], c.graph.entries[s]);
    }
  }

  lemma PhaseLater<P>(c0: State<P>, c: State<P>)
    requires Phase(c0, c)
    ensures Later(c0.graph, c.graph)
  {
    hide NoneForgotten;
  }

  lemma PathStays(g0: Graph, g: Graph, p: seq<Entity>)
    requires Later(g0, g) && Path(g0.entries, p)
    ensures Path(g.entries, p)
  {
    forall i | 0 <= i < |p| ensures p[i] in g.entries {
      assert p[i] in g0.entries;
    }
    forall i | 0 <= i < |p| - 1 ensures p[i + 1] in g.entries[p[i]].dependencies {
      assert p[i + 1] in g0.entries[p[i]].dependencies;
      assert EntryKept(g0.entries[p[i]], g.entries[p[i]]);
    }
  }

  lemma LeadsStill(g0: Graph, g: Graph, id: ResourceId, s: Entity)
    requires Later(g0, g) && LeadsTo(g0, id, s)
    ensures LeadsTo(g, id, s)
  {
    var p :| Path(g0.entries, p) && p[0] == g0.byId[id] && p[|p| - 1] == s;
    PathStays(g0, g, p);
  }

  /** A refusal stays right, whatever is published after it. */
  lemma RefusedStill<P>(source: Source<P>, g0: Graph, g: Graph, s: Entity, references: seq<ResourceId>, k: nat, error: CacheError)
    requires Later(g0, g) && Heard(source, g) && s in g0.entries && RefusedAt(source, g0, s, references, k, error)
    ensures s in g.entries && RefusedAt(source, g, s, references, k, error)
  {
    hide LeadsTo;
    assert EntryKept(g0.entries[s], g.entries[s]);
    if error == CyclicReference {
      LeadsStill(g0, g, references[k], s);
      LeadsFrom(g, references[k], s);
    } else {
      assert references[k] !in g.byId;
      LeadsFromNowhere(g, references[k], s);
    }
  }

  lemma LeadsFrom(g: Graph, id: ResourceId, s: Entity)
    requires LeadsTo(g, id, s)
    ensures id in g.byId
  {
  }

  lemma LeadsFromNowhere(g: Graph, id: ResourceId, s: Entity)
    ensures id !in g.byId || g.byId[id] !in g.entries ==> !LeadsTo(g, id, s)
  {
  }

  lemma FailedStill<P>(source: Source<P>, g0: Graph, g: Graph, s: Entity, error: CacheError)
    requires Later(g0, g) && Heard(source, g) && s in g0.entries && FailedFor(source, g0, s, error)
    ensures s in g.entries && FailedFor(source, g, s, error)
  {
    hide RefusedAt;
    assert EntryKept(g0.entries[s], g.entries[s]);
    if source.load(g.entries[s].id).Loaded? {
      var references := source.load(g.entries[s].id).references;
      var k: nat :| RefusedAt(source, g0, s, references, k, error);
      RefusedStill(source, g0, g, s, references, k, error);
    }
  }

  lemma LeadsReaches(g: Graph, id: ResourceId, s: Entity)
    requires Ranked(g.entries, g.rank)
    ensures LeadsTo(g, id, s) <==> id in g.byId && g.byId[id] in g.entries && Reaches(g.entries, g.rank, g.byId[id], s)
  {
    hide Reaches;
    hide Ranked;
    if id in g.byId && g.byId[id] in g.entries {
      ReachesIsPath(g.entries, g.rank, g.byId[id], s);
    }
    LeadsFromNowhere(g, id, s);
  }

  /** What the check for a cycle and the request of a reference answered, said of paths. */
  lemma RefusedHere<P>(source: Source<P>, g: Graph, s: Entity, references: seq<ResourceId>, k: nat, error: CacheError)
    requires s in g.entries && k < |references| && RefersTo(g, s, references[..k]) && Ranked(g.entries, g.rank)
    requires error == UnknownResource <==> references[k] !in g.byId && source.find(references[k]) == Unknown
    requires error == CyclicReference <==>
               references[k] in g.byId && g.byId[references[k]] in g.entries
               && Reaches(g.entries, g.rank, g.byId[references[k]], s)
    requires error == UnknownResource || error == CyclicReference
    ensures RefusedAt(source, g, s, references, k, error)
  {
    hide Reaches;
    hide Ranked;
    hide RefersTo;
    hide LeadsTo;
    LeadsReaches(g, references[k], s);
  }

  /** The error that publishing the completion ended in is the reason why. */
  ghost predicate Explained<P>(source: Source<P>, c: State<P>, x: Completion) {
    x.slot in c.graph.entries && x.slot in c.slates && c.slates[x.slot].error.Some? ==>
      FailedFor(source, c.graph, x.slot, c.slates[x.slot].error.value)
  }

  ghost predicate AllExplained<P>(source: Source<P>, c: State<P>, cs: seq<Completion>) {
    forall k :: 0 <= k < |cs| ==> Explained(source, c, cs[k])
  }

  lemma PublishedOne<P>(source: Source<P>, c: State<P>, x: Completion, error: Option<CacheError>)
    requires x.slot in c.graph.entries && x.slot in c.slates && c.slates[x.slot].error == error
    requires c.graph.entries[x.slot].state == if error.Some? then Failed else Ready
    requires error.Some? ==> FailedFor(source, c.graph, x.slot, error.value)
    ensures Ended(c, x) && Explained(source, c, x)
  {
    hide FailedFor;
  }

  lemma NothingExplained<P>(source: Source<P>, c: State<P>, cs: seq<Completion>)
    ensures AllExplained(source, c, cs[..0])
  {
  }

  lemma OneMoreExplained<P>(source: Source<P>, c: State<P>, cs: seq<Completion>, x: Completion)
    requires AllExplained(source, c, cs) && Explained(source, c, x)
    ensures AllExplained(source, c, cs + [x])
  {
    hide Explained;
  }

  lemma MoreExplained<P>(source: Source<P>, c: State<P>, cs: seq<Completion>, more: seq<Completion>)
    requires AllExplained(source, c, cs) && AllExplained(source, c, more)
    ensures AllExplained(source, c, cs + more)
  {
    hide Explained;
  }

  lemma ExplainedStay<P>(source: Source<P>, c: State<P>, c': State<P>, cs: seq<Completion>)
    requires AllEnded(c, cs) && AllExplained(source, c, cs) && Settled(c, c', {})
    requires Later(c.graph, c'.graph) && Heard(source, c'.graph)
    ensures AllExplained(source, c', cs)
  {
    hide FailedFor;
    hide Later;
    forall k | 0 <= k < |cs| ensures Explained(source, c', cs[k]) {
      assert Ended(c, cs[k]) && Explained(source, c, cs[k]);
      assert SettledAt(c, c', cs[k].slot);
      if c.slates[cs[k].slot].error.Some? {
        FailedStill(source, c.graph, c'.graph, cs[k].slot, c.slates[cs[k].slot].error.value);
      }
    }
  }

  /** Whether the entry of the completion has failed. */
  ghost predicate HasFailed<P>(c: State<P>, x: Completion) {
    x.slot in c.graph.entries && c.graph.entries[x.slot].state.Failed?
  }

  /** There is no error if none of these entries has failed; otherwise it is why the first of them that has did. */
  ghost predicate FirstFailure<P>(source: Source<P>, c: State<P>, cs: seq<Completion>, error: Option<CacheError>) {
    match error
    case None => forall k :: 0 <= k < |cs| ==> !HasFailed(c, cs[k])
    case Some(e) => exists k :: 0 <= k < |cs| && FailsFirst(source, c, cs, k, e)
  }

  ghost predicate FailsFirst<P>(source: Source<P>, c: State<P>, cs: seq<Completion>, k: nat, error: CacheError)
    requires k < |cs|
  {
    && (forall j :: 0 <= j < k ==> !HasFailed(c, cs[j]))
    && HasFailed(c, cs[k]) && FailedFor(source, c.graph, cs[k].slot, error)
  }

  lemma {:induction false} FirstErrorMeans<P>(source: Source<P>, c: State<P>, cs: seq<Completion>)
    requires AllEnded(c, cs) && AllExplained(source, c, cs)
    ensures FirstFailure(source, c, cs, FirstError(cs, c.slates))
  {
    hide FailedFor;
    if cs != [] {
      var front, last := cs[..|cs| - 1], cs[|cs| - 1];
      FirstErrorMeans(source, c, front);
      assert Ended(c, last) && Explained(source, c, last);
      assert forall k :: 0 <= k < |front| ==> front[k] == cs[k];
      var before := FirstError(front, c.slates);
      if before.Some? {
        var k :| 0 <= k < |front| && FailsFirst(source, c, front, k, before.value);
        assert FailsFirst(source, c, cs, k, before.value);
      } else if c.slates[last.slot].error.Some? {
        assert FailsFirst(source, c, cs, |front|, c.slates[last.slot].error.value);
      }
    }
  }

  // ----- References that lead down -----

  /** All of `references` are known and numbered below `id`. */
  ghost predicate LeadDown<P>(source: Source<P>, order: ResourceId -> nat, references: seq<ResourceId>, id: ResourceId) {
    forall r :: r in references ==> source.find(r) != Unknown && order(r) < order(id)
  }

  /** Whatever is here can be loaded and refers only to known resources numbered below it. */
  ghost predicate Healthy<P>(source: Source<P>, order: ResourceId -> nat) {
    forall id {:trigger source.load(id)} :: source.find(id) == Available ==>
      source.load(id).Loaded? && LeadDown(source, order, ReferencesOf(source.load(id)), id)
  }

  ghost predicate EntrySane<P>(source: Source<P>, order: ResourceId -> nat, entries: Entries, s: Entity)
    requires s in entries
  {
    && source.find(entries[s].id) == (if entries[s].state.AbsentForRole? then AbsentHere else Available)
    && forall d :: d in entries[s].dependencies ==> d in entries && order(entries[d].id) < order(entries[s].id)
  }

  /** A healthy source, and entries that depend only on entries numbered below them. */
  ghost predicate Sane<P>(source: Source<P>, order: ResourceId -> nat, g: Graph) {
    Healthy(source, order) && forall s :: s in g.entries ==> EntrySane(source, order, g.entries, s)
  }

  lemma SaneUpdate<P>(source: Source<P>, order: ResourceId -> nat, g: Graph, g': Graph, s: Entity, entry: ResourceEntry)
    requires Sane(source, order, g) && s in g.entries && g'.entries == g.entries[s := entry]
    requires entry.id == g.entries[s].id && entry.dependencies == g.entries[s].dependencies
    requires entry.state.AbsentForRole? <==> g.entries[s].state.AbsentForRole?
    ensures Sane(source, order, g')
  {
    hide Healthy;
    forall x | x in g'.entries ensures EntrySane(source, order, g'.entries, x) {
      assert EntrySane(source, order, g.entries, x);
    }
  }

  lemma SaneRequest<P>(source: Source<P>, order: ResourceId -> nat, c0: State<P>, c: State<P>, id: ResourceId, out: Entity)
    requires Sane(source, order, c0.graph) && Requested(source, c0, c, id, out) && (id in c0.graph.byId || source.find(id) != Unknown)
    ensures Sane(source, order, c.graph)
  {
    hide Healthy;
    forall x | x in c.graph.entries ensures EntrySane(source, order, c.graph.entries, x) {
      assert x in c0.graph.entries ==> EntrySane(source, order, c0.graph.entries, x);
    }
  }

  lemma SaneMore<P>(source: Source<P>, order: ResourceId -> nat, g: Graph, g': Graph, h: Entity, d: Entity)
    requires Sane(source, order, g) && h in g.entries && d in g.entries
    requires g'.entries == g.entries[h := g.entries[h].(dependencies := g.entries[h].dependencies + [d])]
    requires order(g.entries[d].id) < order(g.entries[h].id)
    ensures Sane(source, order, g')
  {
    hide Healthy;
    forall x | x in g'.entries ensures EntrySane(source, order, g'.entries, x) {
      assert EntrySane(source, order, g.entries, x);
    }
  }

  lemma SaneThinned<P>(source: Source<P>, order: ResourceId -> nat, g0: Graph, g: Graph)
    requires Sane(source, order, g0) && Thinned(g0, g) && Ranked(g.entries, g.rank)
    ensures Sane(source, order, g)
  {
    hide Healthy;
    forall x | x in g.entries ensures EntrySane(source, order, g.entries, x) {
      assert SameEntry(g0.entries, g.entries[x], x) && EntrySane(source, order, g0.entries, x);
      assert EdgesDown(g.entries, g.rank, x);
      forall d | d in g.entries[x].dependencies ensures d in g.entries && g.entries[d].id == g0.entries[d].id {
        assert SameEntry(g0.entries, g.entries[d], d);
      }
    }
  }

  /** Dependencies lead down, so nothing numbered below an entry reaches it. */
  lemma {:induction false} ReachesDown<P>(source: Source<P>, order: ResourceId -> nat, g: Graph, x: Entity, target: Entity)
    requires Sane(source, order, g) && Ranked(g.entries, g.rank) && x in g.entries && target in g.entries
    requires Reaches(g.entries, g.rank, x, target)
    ensures order(g.entries[target].id) <= order(g.entries[x].id)
    decreases g.rank[x]
  {
    hide Healthy;
    if x != target {
      var d :| d in g.entries[x].dependencies && EdgesDown(g.entries, g.rank, x) && Reaches(g.entries, g.rank, d, target);
      assert EntrySane(source, order, g.entries, x);
      ReachesDown(source, order, g, d, target);
    }
  }

  lemma DownIsKnown<P>(source: Source<P>, order: ResourceId -> nat, reference: ResourceId, id: ResourceId)
    requires LeadDown(source, order, [reference], id)
    ensures source.find(reference) != Unknown
  {
    assert reference in [reference];
  }

  lemma LeadDownOne<P>(source: Source<P>, order: ResourceId -> nat, references: seq<ResourceId>, k: nat, id: ResourceId)
    requires LeadDown(source, order, references, id) && k < |references|
    ensures LeadDown(source, order, [references[k]], id)
  {
  }

  /** A request for something numbered below the entry `h` finds nothing that reaches it. */
  lemma SaneHolder<P>(source: Source<P>, order: ResourceId -> nat, c0: State<P>, c: State<P>, h: Entity, id: ResourceId, out: Entity)
    requires Sane(source, order, c0.graph) && GraphOk(c0.graph) && Requested(source, c0, c, id, out)
    requires h in c0.graph.entries && LeadDown(source, order, [id], c0.graph.entries[h].id)
    requires GraphOk(c.graph) && Ranked(c.graph.entries, c.graph.rank) && out in c.graph.entries && h in c.graph.entries
    ensures Sane(source, order, c.graph) && order(c.graph.entries[out].id) < order(c.graph.entries[h].id)
    ensures !Reaches(c.graph.entries, c.graph.rank, out, h)
  {
    hide Sane;
    hide GraphOk;
    hide Requested;
    hide Ranked;
    hide Reaches;
    assert id in [id];
    SaneRequest(source, order, c0, c, id, out);
    RequestedMeans(source, c0, c, id, out);
    if Reaches(c.graph.entries, c.graph.rank, out, h) {
      ReachesDown(source, order, c.graph, out, h);
    }
  }

  /** From a healthy source a load brings a payload and references that lead down. */
  lemma SaneCompletion<P>(source: Source<P>, known: set<ResourceId>, order: ResourceId -> nat, c: State<P>, x: Completion,
                          rest: seq<Completion>)
    requires StateIsOk(source, known, c, [x] + rest) && Sane(source, order, c.graph)
    ensures x.slot in c.graph.entries && x.slot in c.slates && c.slates[x.slot].error.None?
    ensures LeadDown(source, order, x.dependencies, c.graph.entries[x.slot].id)
  {
    hide GraphOk;
    hide FiniteSource;
    hide InFlightOk;
    hide LeadDown;
    PublishedSlot(source, c, x, rest);
    assert StateOk(source, c.graph.entries, c.slates, c.pendingLoads, x.slot);
    assert EntrySane(source, order, c.graph.entries, x.slot);
  }

  // ----- The loading phase -----

  ghost predicate EntryKept(e0: ResourceEntry, e: ResourceEntry) {
    e.id == e0.id && e0.dependencies <= e.dependencies
  }

  /** `c` is `c0` later in the same loading phase. */
  ghost predicate Phase<P>(c0: State<P>, c: State<P>) {
    && (forall id :: id in c0.graph.byId ==> id in c.graph.byId && c.graph.byId[id] == c0.graph.byId[id])
    && (forall s :: s in c0.graph.entries ==> s in c.graph.entries && EntryKept(c0.graph.entries[s], c.graph.entries[s]))
    && c.graph.holds == c0.graph.holds
    && (NoneForgotten(c0.graph.entries, c0.pendingFrees) ==> NoneForgotten(c.graph.entries, c.pendingFrees))
  }

  lemma PhaseSame<P>(c: State<P>)
    ensures Phase(c, c)
  {
  }

  lemma ProgressPhase<P>(c0: State<P>, c1: State<P>, c2: State<P>)
    requires Phase(c0, c1) && Progress(c1, c2)
    ensures Phase(c0, c2)
  {
    hide NoneForgotten;
    forall s | s in c0.graph.entries ensures s in c2.graph.entries && EntryKept(c0.graph.entries[s], c2.graph.entries[s]) {
      assert EntryKept(c0.graph.entries[s], c1.graph.entries[s]) && EntryProgress(c1.graph.entries[s], c2.graph.entries[s]);
      PrefixChain(c0.graph.entries[s].dependencies, c1.graph.entries[s].dependencies, c2.graph.entries[s].dependencies);
    }
  }

  lemma SubmittedPhase<P>(c0: State<P>, c1: State<P>, c2: State<P>)
    requires Phase(c0, c1) && Submitted(c1, c2)
    ensures Phase(c0, c2)
  {
    forall s | s in c0.graph.entries ensures s in c2.graph.entries && EntryKept(c0.graph.entries[s], c2.graph.entries[s]) {
      assert EntryKept(c0.graph.entries[s], c1.graph.entries[s]);
    }
  }

  lemma SubmittedReferences<P>(source: Source<P>, c0: State<P>, c: State<P>)
    requires Submitted(c0, c) && ReferencesKept(source, c0, {})
    ensures ReferencesKept(source, c, {})
  {
    forall s | s in c.graph.entries && c.graph.entries[s].state.Ready?
      ensures RefersTo(c.graph, s, ReferencesOf(source.load(c.graph.entries[s].id)))
    {
      assert RefersTo(c0.graph, s, ReferencesOf(source.load(c0.graph.entries[s].id)));
    }
  }

  lemma WaitedPhase<P>(source: Source<P>, c0: State<P>, c1: State<P>, c2: State<P>)
    requires Phase(c0, c1) && c2.graph == c1.graph && c2.pendingFrees == c1.pendingFrees
    ensures Phase(c0, c2)
    ensures ReferencesKept(source, c1, {}) ==> ReferencesKept(source, c2, {})
  {
    hide FailedIn;
  }

  /** What submitting and waiting leave alone. */
  lemma SubmittedMeans<P>(source: Source<P>, order: ResourceId -> nat, c0: State<P>, c1: State<P>, c2: State<P>)
    requires Submitted(c0, c1) && c2.graph == c1.graph && c2.pendingFrees == c1.pendingFrees
    ensures Phase(c0, c2) && c2.graph.byId == c0.graph.byId
    ensures ReferencesKept(source, c0, {}) ==> ReferencesKept(source, c2, {})
    ensures Told(None, c0.graph.entries, c2.graph.entries)
    ensures Sane(source, order, c0.graph) ==> Sane(source, order, c2.graph)
  {
    hide Phase;
    hide Submitted;
    hide ReferencesKept;
    hide Sane;
    PhaseSame(c0);
    SubmittedPhase(c0, c0, c1);
    SubmittedIds(c0, c1);
    SubmittedFailed(source, order, c0, c1);
    if ReferencesKept(source, c0, {}) {
      SubmittedReferences(source, c0, c1);
    }
    WaitedPhase(source, c0, c1, c2);
  }

  lemma PhaseMeans<P>(c0: State<P>, c: State<P>)
    requires Phase(c0, c)
    ensures c.graph.holds == c0.graph.holds && c0.graph.byId.Keys <= c.graph.byId.Keys
    ensures NoneForgotten(c0.graph.entries, c0.pendingFrees) ==> NoneForgotten(c.graph.entries, c.pendingFrees)
  {
  }

  /** Once every task is done and published, nothing is loading; with nothing left to submit, nothing is pending. */
  lemma NothingLoading<P>(source: Source<P>, known: set<ResourceId>, c: State<P>)
    requires StateIsOk(source, known, c, []) && c.running == {} && c.completions == []
    ensures forall s :: s in c.graph.entries ==> !c.graph.entries[s].loading
    ensures c.pendingLoads == [] ==> forall s :: s in c.graph.entries ==> !c.graph.entries[s].state.Pending?
  {
    hide GraphOk;
    hide FiniteSource;
    forall s | s in c.graph.entries ensures !c.graph.entries[s].loading {
      assert !HasSlot(c.completions + [], s);
    }
    forall s | s in c.graph.entries ensures c.pendingLoads == [] ==> !c.graph.entries[s].state.Pending? {
      assert StateOk(source, c.graph.entries, c.slates, c.pendingLoads, s);
    }
  }

  lemma LoadingPending<P>(source: Source<P>, known: set<ResourceId>, c: State<P>)
    requires StateIsOk(source, known, c, [])
    ensures forall s :: s in c.graph.entries && c.graph.entries[s].loading ==> c.graph.entries[s].state.Pending? && s !in c.emptied
  {
    hide GraphOk;
    hide LoadsOk;
    hide FiniteSource;
    forall s | s in c.graph.entries && c.graph.entries[s].loading ensures c.graph.entries[s].state.Pending? {
      assert StateOk(source, c.graph.entries, c.slates, c.pendingLoads, s);
    }
  }

  lemma FewerUnindexed<P>(known: set<ResourceId>, c0: State<P>, c: State<P>)
    requires Progress(c0, c) && c0.pendingLoads == [] && c.pendingLoads != [] && c.graph.byId.Keys <= known
    ensures |known - c.graph.byId.Keys| < |known - c0.graph.byId.Keys|
  {
    hide NoneForgotten;
    var keys0, keys := c0.graph.byId.Keys, c.graph.byId.Keys;
    assert keys0 < keys;
    var id :| id in keys && id !in keys0;
    FewerLeft(known, keys0, id);
    Fewer(known - keys, known - (keys0 + {id}));
  }

  /** Freeing what nobody wants takes no reference away from what stays. */
  lemma ThinnedReferences<P>(source: Source<P>, c0: State<P>, c: State<P>)
    requires GraphOk(c0.graph) && GraphOk(c.graph) && Thinned(c0.graph, c.graph) && ReferencesKept(source, c0, {})
    ensures ReferencesKept(source, c, {})
  {
    hide HoldersOk;
    hide CountsOk;
    forall s | s in c.graph.entries && c.graph.entries[s].state.Ready?
      ensures RefersTo(c.graph, s, ReferencesOf(source.load(c.graph.entries[s].id)))
    {
      assert SameEntry(c0.graph.entries, c.graph.entries[s], s);
      var references := ReferencesOf(source.load(c.graph.entries[s].id));
      assert RefersTo(c0.graph, s, references);
      ReferencesStay(c0.graph, c.graph, s, references);
    }
  }

  lemma ReferencesStay(g0: Graph, g: Graph, s: Entity, references: seq<ResourceId>)
    requires GraphOk(g0) && GraphOk(g) && Thinned(g0, g) && s in g.entries && s in g0.entries && RefersTo(g0, s, references)
    requires g.entries[s].dependencies == g0.entries[s].dependencies
    ensures RefersTo(g, s, references)
  {
    hide HoldersOk;
    hide CountsOk;
    var deps := g.entries[s].dependencies;
    assert EdgesDown(g.entries, g.rank, s);
    forall i | 0 <= i < |references| ensures references[i] in g.byId && g.byId[references[i]] == deps[i] {
      assert deps[i] in deps;
      assert SameEntry(g0.entries, g.entries[deps[i]], deps[i]);
      assert g0.byId[references[i]] == deps[i];
    }
  }

  lemma AllWanted(g: Graph)
    requires GraphOk(g) && forall s :: s in g.entries ==> g.entries[s].acquires > 0 || g.entries[s].loading
    ensures forall s :: s in g.entries ==> Wanted(g, s)
  {
    hide Wanted;
    hide GraphOk;
    ThinnedSame(g);
    ExactlyWanted(g, g);
  }

  lemma ThinnedSame(g: Graph)
    ensures Thinned(g, g)
  {
  }

  lemma ThinnedStates(g0: Graph, g: Graph)
    requires Thinned(g0, g)
    requires forall s :: s in g0.entries ==> !g0.entries[s].loading && !g0.entries[s].state.Pending?
    ensures forall s :: s in g.entries ==> !g.entries[s].loading && !g.entries[s].state.Pending?
    ensures g.holds == g0.holds
  {
    forall s | s in g.entries ensures !g.entries[s].loading && !g.entries[s].state.Pending? {
      assert SameEntry(g0.entries, g.entries[s], s);
    }
  }

  lemma PhaseChain<P>(c0: State<P>, c1: State<P>, c2: State<P>)
    requires Phase(c0, c1) && Phase(c1, c2)
    ensures Phase(c0, c2)
  {
    hide NoneForgotten;
    forall s | s in c0.graph.entries ensures s in c2.graph.entries && EntryKept(c0.graph.entries[s], c2.graph.entries[s]) {
      assert EntryKept(c0.graph.entries[s], c1.graph.entries[s]) && EntryKept(c1.graph.entries[s], c2.graph.entries[s]);
      PrefixChain(c0.graph.entries[s].dependencies, c1.graph.entries[s].dependencies, c2.graph.entries[s].dependencies);
    }
  }

  lemma SubmittedIds<P>(c0: State<P>, c: State<P>)
    requires Submitted(c0, c)
    ensures c.graph.byId == c0.graph.byId
  {
  }

  /** Through loading and freeing, an entry that is still there kept its id and its dependencies. */
  lemma KeptThroughout<P>(c0: State<P>, c: State<P>, g: Graph)
    requires Phase(c0, c) && Thinned(c.graph, g)
    ensures forall s :: s in c0.graph.entries && s in g.entries ==> EntryKept(c0.graph.entries[s], g.entries[s])
  {
    hide NoneForgotten;
    forall s | s in c0.graph.entries && s in g.entries ensures EntryKept(c0.graph.entries[s], g.entries[s]) {
      assert EntryKept(c0.graph.entries[s], c.graph.entries[s]) && SameEntry(c.graph.entries, g.entries[s], s);
    }
  }

  lemma ThinnedIds(g0: Graph, g: Graph)
    requires GraphOk(g0) && GraphOk(g) && Thinned(g0, g)
    ensures g.byId.Keys <= g0.byId.Keys
  {
    forall id | id in g.byId ensures id in g0.byId {
      assert SameEntry(g0.entries, g.entries[g.byId[id]], g.byId[id]);
    }
  }

  lemma ReadyPayload<P>(source: Source<P>, known: set<ResourceId>, c: State<P>, s: Entity)
    requires StateIsOk(source, known, c, []) && s in c.graph.entries && c.graph.entries[s].state.Ready?
    ensures s in c.slates && c.slates[s].payload.Some? && source.load(c.graph.entries[s].id).Loaded?
    ensures c.slates[s].payload.value == source.load(c.graph.entries[s].id).payload
  {
    assert StateOk(source, c.graph.entries, c.slates, c.pendingLoads, s);
  }

  lemma EmptiedState<P>(source: Source<P>, known: set<ResourceId>, c: State<P>, s: Entity)
    requires StateIsOk(source, known, c, []) && s in c.graph.entries && c.graph.entries[s].state.Ready?
    ensures StateIsOk(source, known, c.(emptied := c.emptied + {s}), [])
  {
    hide GraphOk;
    hide LoadsOk;
    hide StatesOk;
    hide FiniteSource;
    hide InFlightOk;
  }

  lemma EmptiedReferences<P>(source: Source<P>, c: State<P>, s: Entity)
    requires ReferencesKept(source, c, {})
    ensures ReferencesKept(source, c.(emptied := c.emptied + {s}), {})
  {
  }

  // ----- Small facts -----

  lemma IndexedLive(g: Graph, id: ResourceId)
    requires GraphOk(g) && id in g.byId
    ensures g.byId[id] in g.entries && g.entries[g.byId[id]].id == id
  {
  }

  lemma KnownId<P>(source: Source<P>, known: set<ResourceId>, id: ResourceId)
    requires FiniteSource(source, known) && source.find(id) != Unknown
    ensures id in known
  {
  }

  /** Counting does not touch loads. */
  lemma RecountedLoads<P>(source: Source<P>, entries0: Entries, entries: Entries, slates: map<Entity, Slate<P>>,
                          running: set<Entity>, completions: seq<Completion>, pendingLoads: seq<Entity>)
    requires LoadsOk(source, entries0, slates, running, completions) && StatesOk(source, entries0, slates, pendingLoads)
    requires entries.Keys == entries0.Keys
    requires forall s :: s in entries ==>
               && entries[s].id == entries0[s].id && entries[s].loading == entries0[s].loading && entries[s].state == entries0[s].state
               && (entries[s].dependencies == entries0[s].dependencies || !entries[s].state.Pending?)
    ensures LoadsOk(source, entries, slates, running, completions) && StatesOk(source, entries, slates, pendingLoads)
  {
    forall s | s in entries ensures StateOk(source, entries, slates, pendingLoads, s) {
      assert StateOk(source, entries0, slates, pendingLoads, s);
    }
    forall i | 0 <= i < |completions| ensures CompletionOk(source, entries, slates, completions[i]) {
      assert CompletionOk(source, entries0, slates, completions[i]);
    }
  }

  lemma AddedLoads<P>(source: Source<P>, entries: Entries, s: Entity, entry: ResourceEntry, slates: map<Entity, Slate<P>>,
                      running: set<Entity>, completions: seq<Completion>, pendingLoads: seq<Entity>)
    requires LoadsOk(source, entries, slates, running, completions) && StatesOk(source, entries, slates, pendingLoads)
    requires s !in entries && !entry.loading && !entry.state.Ready? && entry.dependencies == []
    ensures LoadsOk(source, entries[s := entry], slates, running, completions)
    ensures StatesOk(source, entries[s := entry], slates, if entry.state.Pending? then pendingLoads + [s] else pendingLoads)
  {
    var entries' := entries[s := entry];
    var pendingLoads' := if entry.state.Pending? then pendingLoads + [s] else pendingLoads;
    forall x | x in entries' ensures StateOk(source, entries', slates, pendingLoads', x) {
      assert x != s ==> StateOk(source, entries, slates, pendingLoads, x);
    }
    forall i | 0 <= i < |completions| ensures CompletionOk(source, entries', slates, completions[i]) {
      assert CompletionOk(source, entries, slates, completions[i]);
    }
  }
}
