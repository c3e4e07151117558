/** The store of all entities and their components, archetype by archetype. Its operations are
    told in terms of the plain map from entities to components that an observer sees. */
module ArchetypeStorages {
  import opened Entities
  import opened Sequences
  import opened EntitySlotsModule
  import opened ArchetypeTables
  import opened Archetypes

  class ArchetypeStorage<V> {
    const base: seq<TypeId>                 // the types every new entity has
    const defaults: TypeId -> V
    const hasher: seq<TypeId> -> nat
    const slots: EntitySlots<Location<Archetype<V>>>
    var archetypes: seq<Archetype<V>>
    var byHash: map<nat, seq<Archetype<V>>>
    var revision: nat

    ghost function Snap(): Tables<Archetype<V>, V>
      reads this`archetypes, archetypes
    {
      map a | a in archetypes :: a.Value()
    }

    ghost function Placed(): Places<Archetype<V>>
      reads slots
    {
      map e | e in slots.Live() :: slots.slots[e.index].location
    }

    /** Every archetype is in the bucket of its signature's hash, and the buckets hold nothing else. */
    ghost predicate BucketsOk()
      reads this`archetypes, this`byHash
    {
      && (forall a :: a in archetypes ==> hasher(a.signature) in byHash && a in byHash[hasher(a.signature)])
      && (forall h, a :: h in byHash && a in byHash[h] ==> a in archetypes)
    }

    ghost predicate Valid()
      reads this, archetypes, slots
    {
      && slots.Valid() && Distinct(base) && Distinct(archetypes)
      && StoreOk(Snap(), Placed()) && BucketsOk()
    }

    /** What an observer sees. */
    ghost function Seen(): View<V>
      reads this, archetypes, slots
      requires Valid()
    {
      ViewOf(Snap(), Placed())
    }

    constructor (base: seq<TypeId>, defaults: TypeId -> V, hasher: seq<TypeId> -> nat)
      requires Distinct(base)
      ensures Valid() && Seen() == map[] && fresh(slots) && archetypes == []
      ensures this.base == base && this.defaults == defaults && this.hasher == hasher
    {
      this.base, this.defaults, this.hasher := base, defaults, hasher;
      slots := new EntitySlots(NULL_INDEX, 0xFFFF_FFFF, Nowhere);
      archetypes, byHash, revision := [], map[], 0;
      new;
      hide ArchetypeStorage.Valid;
      hide ArchetypeStorage.Seen;
      hide EntitySlots.Valid;
      hide EntitySlots.Live;
      NothingStored();
    }

    lemma NothingStored()
      requires slots.Valid() && slots.Live() == {} && Distinct(base) && archetypes == [] && byHash.Keys == {}
      ensures Valid() && Seen() == map[]
    {
      hide EntitySlots.Valid;
      hide StoreOk;
      hide ViewOf;
      EmptyStore(Snap(), Placed());
    }

    // ----- Places -----

    method NewEntity() returns (e: Entity)
      requires slots.Valid() && slots.CanCreate()
      modifies slots
      ensures slots.Valid() && e !in old(Placed()) && e !in old(slots.issued) && e in Placed() && e in slots.Live()
      ensures Placed() == old(Placed())[e := Placed()[e]]
    {
      hide EntitySlots.Valid;
      hide CreateStep;
      e := slots.Create();
    }

    method Place(e: Entity, p: Location<Archetype<V>>)
      requires slots.Valid() && e in slots.Live()
      modifies slots
      ensures slots.Valid() && slots.Live() == old(slots.Live()) && slots.issued == old(slots.issued)
      ensures Placed() == old(Placed())[e := p]
    {
      slots.SetLocation(e, p);
    }

    method DropEntity(e: Entity) returns (ok: bool)
      requires slots.Valid()
      modifies slots
      ensures slots.Valid() && slots.issued == old(slots.issued)
      ensures ok <==> e in old(slots.Live())
      ensures Placed() == old(Placed()) - {e}
    {
      hide EntitySlots.Valid;
      ghost var before := Placed();
      ok := slots.Destroy(e);
      assert Placed().Keys == before.Keys - {e};
      assert forall x :: x in Placed() ==> Placed()[x] == before[x];
    }

    // ----- Archetypes -----

    /** Searches the bucket of the signature's hash. */
    method FindArchetype(signature: seq<TypeId>) returns (found: bool, index: nat)
      requires Valid() && Sorted(signature)
      ensures found ==> hasher(signature) in byHash && index < |byHash[hasher(signature)]|
                        && byHash[hasher(signature)][index].signature == signature
                        && byHash[hasher(signature)][index] in archetypes
      ensures !found ==> forall a :: a in archetypes ==> a.signature != signature
    {
      found, index := false, 0;
      var hash := hasher(signature);
      if hash !in byHash {
        return;
      }
      var bucket := byHash[hash];
      while index < |bucket|
        invariant 0 <= index <= |bucket|
        invariant forall i :: 0 <= i < index ==> bucket[i].signature != signature
      {
        if bucket[index].signature == signature {
          assert bucket[index] in bucket;
          found := true;
          return;
        }
        index := index + 1;
      }
    }

    /** The archetype with the given types, made if there is none yet. */
    method GetOrCreate(types: seq<TypeId>) returns (a: Archetype<V>)
      requires Valid() && Distinct(types)
      modifies this`archetypes, this`byHash, this`revision
      ensures Valid() && Seen() == old(Seen()) && Placed() == old(Placed())
      ensures a in archetypes && TypesOf(a.signature) == TypesOf(types)
      ensures forall b :: b in old(archetypes) ==> b in archetypes && b.Value() == old(b.Value())
      ensures forall b :: b in archetypes ==> b in old(archetypes) || fresh(b)
      ensures revision >= old(revision) && (revision == old(revision) ==> archetypes == old(archetypes))
    {
      hide ArchetypeStorage.Valid;
      hide ArchetypeStorage.Seen;
      hide ArchetypeStorage.Placed;
      hide Sorted;
      hide TableOk;
      var signature := SortSignature(types);
      var found, index := FindArchetype(signature);
      if found {
        return byHash[hasher(signature)][index];
      }
      a := new Archetype<V>(signature);
      AddArchetype(a);
    }

    /** Lists the archetype, in the bucket of its hash too. */
    method Register(a: Archetype<V>)
      requires BucketsOk() && Distinct(archetypes) && a !in archetypes
      modifies this`archetypes, this`byHash, this`revision
      ensures BucketsOk() && Distinct(archetypes) && archetypes == old(archetypes) + [a] && revision == old(revision) + 1
      ensures Snap() == old(Snap())[a := a.Value()]
    {
      var hash := hasher(a.signature);
      archetypes, revision := archetypes + [a], revision + 1;
      byHash := byHash[hash := (if hash in byHash then byHash[hash] else []) + [a]];
    }

    lemma SnapKeys()
      ensures forall b :: b in archetypes ==> b in Snap()
      ensures forall b :: b in Snap() ==> b in archetypes && Snap()[b].signature == b.signature
    {
    }

    method AddArchetype(a: Archetype<V>)
      requires Valid() && a !in archetypes && TableOk(a.Value()) && Empty(a.Value())
      requires forall b :: b in archetypes ==> b.signature != a.signature
      modifies this`archetypes, this`byHash, this`revision
      ensures Valid() && Seen() == old(Seen()) && Placed() == old(Placed())
      ensures archetypes == old(archetypes) + [a] && revision == old(revision) + 1
    {
      hide StoreOk;
      hide ViewOf;
      hide Empty;
      hide TableOk;
      hide EntitySlots.Valid;
      hide EntitySlots.Live;
      hide ArchetypeStorage.BucketsOk;
      hide ArchetypeStorage.Snap;
      ghost var ts := Snap();
      SnapKeys();
      NewTable(ts, Placed(), a, a.Value());
      Register(a);
    }

    /** The columns an entity keeps when it goes from one archetype to another. */
    method BuildEdge(source: Archetype<V>, destination: Archetype<V>) returns (edge: Edge<Archetype<V>>)
      ensures edge.destination == destination
      ensures TypesOf(edge.columns) == source.columns.Keys * destination.columns.Keys
    {
      var columns: seq<TypeId> := [];
      var rest := source.columns.Keys;
      while rest != {}
        invariant rest <= source.columns.Keys
        invariant TypesOf(columns) == (source.columns.Keys - rest) * destination.columns.Keys
        decreases |rest|
      {
        var c :| c in rest;
        if c in destination.columns {
          columns := columns + [c];
        }
        rest := rest - {c};
      }
      edge := Edge(destination, columns);
    }

    // ----- Transitions -----

    lemma EdgeAt(source: Archetype<V>)
      requires Valid() && source in archetypes
      ensures source in Snap() && Snap()[source] == source.Value() && TableOk(source.Value())
      ensures forall c :: c in source.adds ==> AddOk(Snap(), source, c, source.adds[c])
      ensures forall c :: c in source.removes ==> RemoveOk(Snap(), source, c, source.removes[c])
    {
      hide ViewOf;
      StoreTables(Snap(), Placed());
      assert Snap()[source] == source.Value();
      assert forall c :: c in source.adds ==> AddOk(Snap(), source, c, Snap()[source].adds[c]);
      assert forall c :: c in source.removes ==> RemoveOk(Snap(), source, c, Snap()[source].removes[c]);
    }

    /** Remembers transitions of `source`. */
    method CacheEdges(source: Archetype<V>, adds: map<TypeId, Edge<Archetype<V>>>, removes: map<TypeId, Edge<Archetype<V>>>)
      requires Valid() && source in archetypes
      requires forall c :: c in adds ==> AddOk(Snap(), source, c, adds[c])
      requires forall c :: c in removes ==> RemoveOk(Snap(), source, c, removes[c])
      modifies source`adds, source`removes
      ensures Valid() && Seen() == old(Seen()) && Placed() == old(Placed())
      ensures source.adds == adds && source.removes == removes
      ensures forall k :: k in archetypes ==> k.Value().signature == old(k.Value()).signature
    {
      hide StoreOk;
      hide ViewOf;
      hide EntitySlots.Valid;
      hide EntitySlots.Live;
      hide AddOk;
      hide RemoveOk;
      ghost var ts := Snap();
      EdgeCached(ts, Placed(), source, adds, removes);
      source.adds := adds;
      source.removes := removes;
      assert Snap() == ts[source := ts[source].(adds := adds, removes := removes)];
    }

    /** The archetype with `types` and the columns that lead there from `source`. */
    method MakeEdge(source: Archetype<V>, types: seq<TypeId>) returns (edge: Edge<Archetype<V>>)
      requires Valid() && source in archetypes && Distinct(types)
      modifies this`archetypes, this`byHash, this`revision
      ensures Valid() && Seen() == old(Seen()) && Placed() == old(Placed())
      ensures source in Snap() && TableOk(Snap()[source]) && edge.destination in Snap() && TableOk(Snap()[edge.destination])
      ensures Snap()[source] == source.Value()
      ensures TypesOf(Snap()[edge.destination].signature) == TypesOf(types)
      ensures TypesOf(edge.columns) == Snap()[source].columns.Keys * Snap()[edge.destination].columns.Keys
      ensures source in archetypes && source.Value() == old(source.Value())
      ensures forall k :: k in archetypes ==> k in old(archetypes) || fresh(k)
      ensures revision >= old(revision) && (revision == old(revision) ==> archetypes == old(archetypes))
    {
      hide ArchetypeStorage.Valid;
      hide ArchetypeStorage.Seen;
      hide ArchetypeStorage.Placed;
      hide AddOk;
      hide RemoveOk;
      hide TableOk;
      var destination := GetOrCreate(types);
      EdgeAt(source);
      EdgeAt(destination);
      edge := BuildEdge(source, destination);
    }

    /** The transition that adds type `c`, found or made. */
    method AddEdge(source: Archetype<V>, c: TypeId) returns (edge: Edge<Archetype<V>>)
      requires Valid() && source in archetypes && c !in TypesOf(source.signature)
      modifies this`archetypes, this`byHash, this`revision, source`adds, source`removes
      ensures Valid() && Seen() == old(Seen()) && Placed() == old(Placed())
      ensures source in archetypes && source in Snap() && AddOk(Snap(), source, c, edge)
      ensures forall k :: k in archetypes ==> k in old(archetypes) || fresh(k)
      ensures revision >= old(revision) && (revision == old(revision) ==> archetypes == old(archetypes))
    {
      hide ArchetypeStorage.Valid;
      hide ArchetypeStorage.Seen;
      hide ArchetypeStorage.Placed;
      hide ArchetypeStorage.Snap;
      hide AddOk;
      hide RemoveOk;
      hide TableOk;
      EdgeAt(source);
      if c in source.adds {
        return source.adds[c];
      }
      SignatureDistinct(source.Value());
      MoreTypes(source.signature, c);
      edge := MakeEdge(source, source.signature + [c]);
      AddEdgeOk(Snap(), source, c, edge);
      EdgeAt(source);
      CacheEdges(source, source.adds[c := edge], source.removes);
      EdgeAt(source);
      assert source.adds[c] == edge;
    }

    /** The transition that removes type `c`, found or made. */
    method RemoveEdge(source: Archetype<V>, c: TypeId) returns (edge: Edge<Archetype<V>>)
      requires Valid() && source in archetypes && c in TypesOf(source.signature)
      modifies this`archetypes, this`byHash, this`revision, source`adds, source`removes
      ensures Valid() && Seen() == old(Seen()) && Placed() == old(Placed())
      ensures source in archetypes && source in Snap() && RemoveOk(Snap(), source, c, edge)
      ensures forall k :: k in archetypes ==> k in old(archetypes) || fresh(k)
      ensures revision >= old(revision) && (revision == old(revision) ==> archetypes == old(archetypes))
    {
      hide ArchetypeStorage.Valid;
      hide ArchetypeStorage.Seen;
      hide ArchetypeStorage.Placed;
      hide ArchetypeStorage.Snap;
      hide AddOk;
      hide RemoveOk;
      hide TableOk;
      EdgeAt(source);
      if c in source.removes {
        return source.removes[c];
      }
      var types := EraseType(source.signature, c);
      SignatureDistinct(source.Value());
      FewerTypes(source.signature, types, c);
      edge := MakeEdge(source, types);
      RemoveEdgeOk(Snap(), source, c, edge);
      EdgeAt(source);
      CacheEdges(source, source.adds, source.removes[c := edge]);
      EdgeAt(source);
      assert source.removes[c] == edge;
    }

    // ----- Entities -----

    /** What Valid says, piece by piece. */
    lemma Opened()
      requires Valid()
      ensures slots.Valid() && slots.Live() == Placed().Keys && Distinct(base) && Distinct(archetypes) && BucketsOk()
      ensures Snap().Keys == (set a | a in archetypes) && StoreOk(Snap(), Placed()) && Seen() == ViewOf(Snap(), Placed())
      ensures Seen().Keys == Placed().Keys
    {
      hide StoreOk;
      hide ViewOf;
      hide EntitySlots.Valid;
      ViewKeys(Snap(), Placed());
    }

    lemma Closed(ts: Tables<Archetype<V>, V>, places: Places<Archetype<V>>)
      requires slots.Valid() && Distinct(base) && Distinct(archetypes) && BucketsOk()
      requires StoreOk(ts, places) && Snap() == ts && Placed() == places
      ensures Valid() && Seen() == ViewOf(ts, places)
    {
      hide StoreOk;
      hide ViewOf;
      hide EntitySlots.Valid;
    }

    method CreateEntity() returns (e: Entity)
      requires Valid() && slots.CanCreate()
      modifies this`archetypes, this`byHash, this`revision, slots, archetypes
      ensures Valid() && e !in old(Seen()) && e !in old(slots.issued)
      ensures Seen() == old(Seen())[e := DefaultRow(TypesOf(base), defaults)]
      ensures e in Seen() && Seen()[e].Keys == TypesOf(base) && forall c :: c in Seen()[e] ==> Seen()[e][c] == defaults(c)
      ensures forall k :: k in archetypes ==> k in old(archetypes) || fresh(k)
      ensures revision >= old(revision) && (revision == old(revision) ==> archetypes == old(archetypes))
    {
      hide StoreOk;
      hide ViewOf;
      hide TableOk;
      hide EntitySlots.Valid;
      hide EntitySlots.Live;
      hide ArchetypeStorage.Placed;
      hide ArchetypeStorage.Valid;
      hide ArchetypeStorage.Seen;
      hide ArchetypeStorage.BucketsOk;
      Opened();
      var a := GetOrCreate(base);
      Opened();
      EdgeAt(a);
      TypesAre(a.Value());
      e := EnterEntity(a);
    }

    /** Archetype.AddEntity, as a step of the whole store. */
    method AppendRow(a: Archetype<V>, e: Entity) returns (row: nat)
      requires a in archetypes && TableOk(a.Value())
      modifies a`entities, a`columns
      ensures row == |old(a.entities)|
      ensures a in old(Snap()) && old(Snap())[a].columns.Keys == DefaultRow(old(a.columns).Keys, defaults).Keys
      ensures Snap() == Entered(old(Snap()), a, e, DefaultRow(old(a.columns).Keys, defaults))
    {
      hide TableOk;
      ghost var ts := Snap();
      row := a.AddEntity(e, defaults);
      assert Snap() == ts[a := a.Value()];
    }

    /** Archetype.EraseSwap, as a step of the whole store. */
    method RemoveRow(a: Archetype<V>, row: nat) returns (swapped: Entity)
      requires a in archetypes && TableOk(a.Value()) && row < |a.entities|
      modifies a`entities, a`columns
      ensures a in old(Snap()) && TableOk(old(Snap())[a]) && row < |old(Snap())[a].entities|
      ensures swapped == old(a.entities)[|old(a.entities)| - 1]
      ensures Snap() == Left(old(Snap()), a, row)
    {
      hide TableOk;
      ghost var ts := Snap();
      swapped := a.EraseSwap(row);
      assert Snap() == ts[a := a.Value()];
    }

    /** The part of CreateEntity that puts the new entity into its archetype. */
    method EnterEntity(a: Archetype<V>) returns (e: Entity)
      requires Valid() && slots.CanCreate() && a in archetypes && TypesOf(a.signature) == TypesOf(base)
      modifies slots, a`entities, a`columns
      ensures Valid() && e !in old(Seen()) && e !in old(slots.issued)
      ensures Seen() == old(Seen())[e := DefaultRow(TypesOf(base), defaults)]
    {
      hide StoreOk;
      hide ViewOf;
      hide TableOk;
      hide EntitySlots.Valid;
      hide EntitySlots.Live;
      hide ArchetypeStorage.Placed;
      hide ArchetypeStorage.Valid;
      hide ArchetypeStorage.Seen;
      hide ArchetypeStorage.BucketsOk;
      hide Entered;
      hide ArchetypeStorage.Snap;
      Opened();
      EdgeAt(a);
      TypesAre(a.Value());
      ghost var ts, places, values := Snap(), Placed(), DefaultRow(TypesOf(base), defaults);
      e := NewEntity();
      EnteredView(ts, places, a, e, values);
      var row := AppendRow(a, e);
      Place(e, At(a, row));
      assert Placed() == places[e := At(a, row)];
      Closed(Snap(), Placed());
    }

    method DestroyEntity(e: Entity) returns (ok: bool)
      requires Valid()
      modifies slots, archetypes
      ensures Valid() && slots.issued == old(slots.issued)
      ensures ok <==> e in old(Seen())
      ensures Seen() == old(Seen()) - {e}
    {
      hide StoreOk;
      hide ViewOf;
      hide TableOk;
      hide EntitySlots.Valid;
      hide EntitySlots.Live;
      hide ArchetypeStorage.Placed;
      hide ArchetypeStorage.Valid;
      hide ArchetypeStorage.Seen;
      hide ArchetypeStorage.BucketsOk;
      hide Left;
      hide RowOf;
      hide ArchetypeStorage.Snap;
      Opened();
      if !slots.Contains(e) {
        slots.ContainsIsLive(e);
        return false;
      }
      slots.ContainsIsLive(e);
      ghost var ts, places := Snap(), Placed();
      PlaceOf(e);
      var location := slots.slots[e.index].location;
      var a, row := location.archetype, location.row;
      EdgeAt(a);
      LeftView(ts, places, a, row);
      StoreSwapped(ts, places, a, row);
      LeaveRow(a, row, e);
      ok := DropEntity(e);
      assert Snap() == Left(ts, a, row);
      assert Placed() == LeftPlaces(ts, places, a, row);
      Closed(Left(ts, a, row), LeftPlaces(ts, places, a, row));
    }

    /** The stored location of a live entity leads to its row. */
    lemma PlaceOf(e: Entity)
      requires Valid() && e in slots.Live()
      ensures slots.Contains(e) && e in Placed() && Placed()[e] == slots.slots[e.index].location
      ensures PlaceOk(Snap(), e, Placed()[e]) && Placed()[e].archetype in archetypes
      ensures Placed()[e].row < |Placed()[e].archetype.entities| && Placed()[e].archetype.entities[Placed()[e].row] == e
    {
      hide ViewOf;
      hide EntitySlots.Valid;
      StoreTables(Snap(), Placed());
      PlacesMean(Snap(), Placed(), e);
    }

    // ----- Adding and removing components -----

    /** Appends a row to the destination and fills it from the source row. */
    method CopyRow(source: Archetype<V>, row: nat, edge: Edge<Archetype<V>>, e: Entity, added: Added<V>) returns (to: nat)
      requires edge.destination in archetypes && source in archetypes && source != edge.destination
      requires TableOk(source.Value()) && TableOk(edge.destination.Value()) && row < |source.entities|
      requires forall c :: c in edge.columns ==> c in source.columns && c in edge.destination.columns
      requires added.Value? ==> added.component in edge.destination.columns
      modifies edge.destination`entities, edge.destination`columns
      ensures to == |old(edge.destination.entities)|
      ensures forall c :: c in edge.columns ==> c in RowOf(old(source.Value()), row)
      ensures edge.destination in old(Snap()) && TableOk(old(Snap())[edge.destination])
      ensures old(Snap())[edge.destination].columns.Keys ==
              MovedRow(old(edge.destination.columns).Keys, edge.columns, RowOf(old(source.Value()), row), added, defaults).Keys
      ensures Snap() == Entered(old(Snap()), edge.destination, e,
                MovedRow(old(edge.destination.columns).Keys, edge.columns, RowOf(old(source.Value()), row), added, defaults))
    {
      hide MovedRow;
      hide RowAdded;
      hide TableOk;
      var destination := edge.destination;
      ghost var ts := Snap();
      CellLengths(source.Value());
      to := destination.AppendCopy(e, source.columns, edge.columns, row, RowOf(source.Value(), row), added, defaults);
      assert Snap() == ts[destination := destination.Value()];
    }

    /** Moves an entity along an edge. */
    method Move(e: Entity, source: Archetype<V>, row: nat, edge: Edge<Archetype<V>>, added: Added<V>, ghost values: map<TypeId, V>)
      requires Valid() && source in archetypes && edge.destination in archetypes && source != edge.destination
      requires row < |source.entities| && source.entities[row] == e && e in slots.Live()
      requires source in Snap() && TableOk(Snap()[source]) && edge.destination in Snap()
      requires forall c :: c in edge.columns ==> c in source.columns && c in edge.destination.columns
      requires forall c :: c in edge.columns ==> c in RowOf(Snap()[source], row)
      requires added.Value? ==> added.component in edge.destination.columns
      requires values == MovedRow(edge.destination.columns.Keys, edge.columns, RowOf(Snap()[source], row), added, defaults)
      modifies slots, source`entities, source`columns, edge.destination`entities, edge.destination`columns
      ensures Valid() && slots.issued == old(slots.issued)
      ensures Seen() == old(Seen())[e := values]
    {
      hide StoreOk;
      hide ViewOf;
      hide TableOk;
      hide EntitySlots.Valid;
      hide EntitySlots.Live;
      hide ArchetypeStorage.Placed;
      hide ArchetypeStorage.Valid;
      hide ArchetypeStorage.Seen;
      hide ArchetypeStorage.BucketsOk;
      hide MovedRow;
      hide RowAdded;
      hide RowErased;
      hide Left;
      hide Entered;
      hide ArchetypeStorage.Snap;
      var destination := edge.destination;
      Opened();
      EdgeAt(source);
      EdgeAt(destination);
      ghost var ts, places := Snap(), Placed();
      MovedKeys(destination.columns.Keys, edge.columns, RowOf(ts[source], row), added, defaults);
      MovedView(ts, places, source, row, destination, values);
      var to := CopyRow(source, row, edge, e, added);
      Place(e, At(destination, to));
      SourceUnchanged(ts, source, destination, e, values);
      StoreSwapped(ts, places, source, row);
      LeaveRow(source, row, e);
      MovedTables(ts, source, row, destination, e, values);
      Closed(Snap(), Placed());
    }

    /** Takes the row of `e` out and tells the entity that took its place where it is now. */
    method LeaveRow(a: Archetype<V>, row: nat, e: Entity)
      requires slots.Valid() && a in archetypes && TableOk(a.Value()) && row < |a.entities|
      requires a.entities[|a.entities| - 1] != e ==> a.entities[|a.entities| - 1] in slots.Live()
      modifies slots, a`entities, a`columns
      ensures slots.Valid() && slots.Live() == old(slots.Live()) && slots.issued == old(slots.issued)
      ensures a in old(Snap()) && TableOk(old(Snap())[a]) && row < |old(Snap())[a].entities|
      ensures Snap() == Left(old(Snap()), a, row)
      ensures Placed() == SwappedPlaces(old(Placed()), e, old(a.entities)[|old(a.entities)| - 1], At(a, row))
    {
      hide EntitySlots.Valid;
      hide EntitySlots.Live;
      hide ArchetypeStorage.Placed;
      hide TableOk;
      hide Left;
      var swapped := RemoveRow(a, row);
      if swapped != e {
        Place(swapped, At(a, row));
      }
    }

    lemma MovedTables(ts: Tables<Archetype<V>, V>, k: Archetype<V>, row: nat, m: Archetype<V>, e: Entity, values: map<TypeId, V>)
      requires k in ts && m in ts && k != m && TableOk(ts[k]) && row < |ts[k].entities| && ts[m].columns.Keys == values.Keys
      ensures Left(Entered(ts, m, e, values), k, row) == ts[m := RowAdded(ts[m], e, values)][k := RowErased(ts[k], row)]
    {
    }

    lemma SourceUnchanged(ts: Tables<Archetype<V>, V>, source: Archetype<V>, destination: Archetype<V>, e: Entity, values: map<TypeId, V>)
      requires source in ts && destination in ts && source != destination && source in archetypes
      requires ts[destination].columns.Keys == values.Keys && Snap() == Entered(ts, destination, e, values)
      ensures source.Value() == ts[source]
    {
      assert Snap()[source] == source.Value();
    }

    /** The live entity `e` is at row `row` of `a`, and what is seen of it is what stands there. */
    ghost predicate Stands(e: Entity, a: Archetype<V>, row: nat)
      requires Valid()
      reads this, archetypes, slots
    {
      && a in archetypes && a in Snap() && e in slots.Live() && e in Seen() && e in Placed()
      && var t := Snap()[a]; var seen := Seen()[e];
         && t == a.Value() && TableOk(t) && row < |t.entities| && t.entities[row] == e
         && Sorted(t.signature) && seen == RowOf(t, row) && seen.Keys == t.columns.Keys == TypesOf(t.signature)
         && Placed()[e] == At(a, row)
    }

    /** Where a live entity is, and what is seen of it there. */
    method Locate(e: Entity) returns (found: bool, a: Archetype?<V>, row: nat)
      requires Valid()
      ensures found <==> e in Seen()
      ensures found ==> a != null && Stands(e, a, row)
    {
      hide StoreOk;
      hide ViewOf;
      hide TableOk;
      hide EntitySlots.Valid;
      hide EntitySlots.Live;
      hide ArchetypeStorage.Placed;
      hide ArchetypeStorage.Valid;
      hide ArchetypeStorage.Seen;
      hide ArchetypeStorage.BucketsOk;
      hide ArchetypeStorage.Snap;
      found, a, row := false, null, 0;
      Opened();
      slots.ContainsIsLive(e);
      if !slots.Contains(e) {
        return;
      }
      PlaceOf(e);
      var location := slots.slots[e.index].location;
      found, a, row := true, location.archetype, location.row;
      EdgeAt(a);
      TypesAre(a.Value());
      TableSorted(a.Value());
      PlaceMeans(Snap(), Placed(), e);
    }

    /** Gives an entity one more component; everything else it has, and everybody else, stays. */
    method AddComponent(e: Entity, c: TypeId, value: V) returns (ok: bool)
      requires Valid()
      modifies this`archetypes, this`byHash, this`revision, slots, archetypes
      ensures Valid() && slots.issued == old(slots.issued)
      ensures ok <==> e in old(Seen()) && c !in old(Seen())[e]
      ensures Seen() == if ok then old(Seen())[e := WithValue(old(Seen())[e], c, value)] else old(Seen())
      ensures ok ==> OneCell(old(Seen()), Seen(), e, c, value)
      ensures forall k :: k in archetypes ==> k in old(archetypes) || fresh(k)
      ensures revision >= old(revision) && (revision == old(revision) ==> archetypes == old(archetypes))
    {
      hide StoreOk;
      hide ViewOf;
      hide TableOk;
      hide EntitySlots.Valid;
      hide EntitySlots.Live;
      hide ArchetypeStorage.Placed;
      hide ArchetypeStorage.Valid;
      hide ArchetypeStorage.Seen;
      hide ArchetypeStorage.BucketsOk;
      hide ArchetypeStorage.Snap;
      hide AddOk;
      hide RowOf;
      hide WithValue;
      hide OneCell;
      hide MovedRow;
      var found, a, row := Locate(e);
      if !found {
        return false;
      }
      var has := a.Contains(c);
      if has {
        return false;
      }
      var edge := AddEdge(a, c);
      ok := true;
      Opened();
      WithValueMeans(Seen(), e, c, value);
      FollowAdd(e, a, row, c, edge, value);
      Move(e, a, row, edge, Added.Value(c, value), WithValue(RowOf(Snap()[a], row), c, value));
    }

    /** Takes one component off an entity; everything else it has, and everybody else, stays. */
    method RemoveComponent(e: Entity, c: TypeId) returns (ok: bool)
      requires Valid()
      modifies this`archetypes, this`byHash, this`revision, slots, archetypes
      ensures Valid() && slots.issued == old(slots.issued)
      ensures ok <==> e in old(Seen()) && c in old(Seen())[e]
      ensures Seen() == if ok then old(Seen())[e := old(Seen())[e] - {c}] else old(Seen())
      ensures forall k :: k in archetypes ==> k in old(archetypes) || fresh(k)
      ensures revision >= old(revision) && (revision == old(revision) ==> archetypes == old(archetypes))
    {
      hide StoreOk;
      hide ViewOf;
      hide TableOk;
      hide EntitySlots.Valid;
      hide EntitySlots.Live;
      hide ArchetypeStorage.Placed;
      hide ArchetypeStorage.Valid;
      hide ArchetypeStorage.Seen;
      hide ArchetypeStorage.BucketsOk;
      hide ArchetypeStorage.Snap;
      hide RemoveOk;
      hide RowOf;
      hide MovedRow;
      var found, a, row := Locate(e);
      if !found {
        return false;
      }
      var has := a.Contains(c);
      if !has {
        return false;
      }
      var edge := RemoveEdge(a, c);
      ok := true;
      Opened();
      FollowRemove(e, a, row, c, edge);
      Move(e, a, row, edge, Nothing, RowOf(Snap()[a], row) - {c});
    }

    lemma FollowAdd(e: Entity, a: Archetype<V>, row: nat, c: TypeId, edge: Edge<Archetype<V>>, value: V)
      requires Valid() && a in archetypes && a in Snap() && AddOk(Snap(), a, c, edge)
      requires e in Placed() && Placed()[e] == At(a, row)
      ensures edge.destination in archetypes && edge.destination != a && edge.destination in Snap()
      ensures row < |a.entities| && a.entities[row] == e && e in slots.Live() && TableOk(Snap()[a]) && row < |Snap()[a].entities|
      ensures forall x :: x in edge.columns ==> x in a.columns && x in edge.destination.columns && x in RowOf(Snap()[a], row)
      ensures c in edge.destination.columns
      ensures MovedRow(edge.destination.columns.Keys, edge.columns, RowOf(Snap()[a], row), Added.Value(c, value), defaults)
           == WithValue(RowOf(Snap()[a], row), c, value)
      ensures e in Seen() && Seen()[e] == RowOf(Snap()[a], row)
    {
      hide StoreOk;
      hide ViewOf;
      hide TableOk;
      hide RowOf;
      hide MovedRow;
      hide EntitySlots.Valid;
      hide ArchetypeStorage.Seen;
      hide ArchetypeStorage.Valid;
      Opened();
      EdgeAt(a);
      EdgeAt(edge.destination);
      PlaceMeans(Snap(), Placed(), e);
      TypesAre(a.Value());
      TypesAre(edge.destination.Value());
      AddedRow(Snap(), a, c, edge, row, value, defaults);
    }

    lemma FollowRemove(e: Entity, a: Archetype<V>, row: nat, c: TypeId, edge: Edge<Archetype<V>>)
      requires Valid() && a in archetypes && a in Snap() && RemoveOk(Snap(), a, c, edge)
      requires e in Placed() && Placed()[e] == At(a, row)
      ensures edge.destination in archetypes && edge.destination != a && edge.destination in Snap()
      ensures row < |a.entities| && a.entities[row] == e && e in slots.Live() && TableOk(Snap()[a]) && row < |Snap()[a].entities|
      ensures forall x :: x in edge.columns ==> x in a.columns && x in edge.destination.columns && x in RowOf(Snap()[a], row)
      ensures MovedRow(edge.destination.columns.Keys, edge.columns, RowOf(Snap()[a], row), Nothing, defaults)
           == RowOf(Snap()[a], row) - {c}
      ensures e in Seen() && Seen()[e] == RowOf(Snap()[a], row)
    {
      hide StoreOk;
      hide ViewOf;
      hide TableOk;
      hide RowOf;
      hide MovedRow;
      hide EntitySlots.Valid;
      hide ArchetypeStorage.Seen;
      hide ArchetypeStorage.Valid;
      Opened();
      EdgeAt(a);
      EdgeAt(edge.destination);
      PlaceMeans(Snap(), Placed(), e);
      TypesAre(a.Value());
      TypesAre(edge.destination.Value());
      RemovedRow(Snap(), a, c, edge, row, defaults);
    }

    // ----- Reading and writing components -----

    method Component(e: Entity, c: TypeId) returns (found: bool, value: V)
      requires Valid()
      ensures found <==> e in Seen() && c in Seen()[e]
      ensures found ==> value == Seen()[e][c]
    {
      hide StoreOk;
      hide ViewOf;
      hide TableOk;
      hide EntitySlots.Valid;
      hide EntitySlots.Live;
      hide ArchetypeStorage.Placed;
      hide ArchetypeStorage.Valid;
      hide ArchetypeStorage.Seen;
      hide ArchetypeStorage.BucketsOk;
      hide ArchetypeStorage.Snap;
      value := defaults(c);
      var located, a, row := Locate(e);
      if !located {
        return false, value;
      }
      found := a.Contains(c);
      if found {
        CellLengths(a.Value());
        RowKeys(a.Value(), row);
        value := a.columns[c][row];
      }
    }

    method WriteComponent(e: Entity, c: TypeId, value: V) returns (ok: bool)
      requires Valid()
      modifies archetypes
      ensures Valid()
      ensures ok <==> e in old(Seen()) && c in old(Seen())[e]
      ensures Seen() == if ok then old(Seen())[e := WithValue(old(Seen())[e], c, value)] else old(Seen())
      ensures ok ==> OneCell(old(Seen()), Seen(), e, c, value)
    {
      hide StoreOk;
      hide ViewOf;
      hide TableOk;
      hide EntitySlots.Valid;
      hide EntitySlots.Live;
      hide ArchetypeStorage.Placed;
      hide ArchetypeStorage.Valid;
      hide ArchetypeStorage.Seen;
      hide ArchetypeStorage.BucketsOk;
      hide ArchetypeStorage.Snap;
      hide WithValue;
      hide OneCell;
      hide RowOf;
      Opened();
      var located, a, row := Locate(e);
      if !located {
        return false;
      }
      ok := a.Contains(c);
      if ok {
        CellLengths(a.Value());
        WithValueMeans(Seen(), e, c, value);
        WrittenView(Snap(), Placed(), e, c, value);
        WriteCell(a, c, row, value);
        Closed(Snap(), Placed());
      }
    }

    method WriteCell(a: Archetype<V>, c: TypeId, row: nat, value: V)
      requires a in archetypes && c in a.columns && row < |a.columns[c]|
      modifies a`columns
      ensures a in old(Snap()) && c in old(Snap())[a].columns && row < |old(Snap())[a].columns[c]|
      ensures Snap() == Written(old(Snap()), a, c, row, value)
    {
      ghost var ts := Snap();
      a.columns := a.columns[c := a.columns[c][row := value]];
      assert Snap() == ts[a := a.Value()];
    }

    method Clear()
      requires Valid()
      modifies this`archetypes, this`byHash, this`revision, slots
      ensures Valid() && Seen() == map[] && slots.issued == old(slots.issued)
      ensures archetypes == [] && revision == old(revision) + 1
    {
      hide EntitySlots.Valid;
      hide EntitySlots.Live;
      hide ArchetypeStorage.Valid;
      hide ArchetypeStorage.Seen;
      Opened();
      slots.Clear();
      ForgetArchetypes();
      NothingStored();
    }

    method ForgetArchetypes()
      requires slots.Valid() && slots.Live() == {}
      modifies this`archetypes, this`byHash, this`revision
      ensures slots.Valid() && slots.Live() == {}
      ensures archetypes == [] && byHash.Keys == {} && revision == old(revision) + 1
    {
      byHash := map[];
      archetypes := [];
      revision := revision + 1;
    }
  }
}
