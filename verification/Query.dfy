/** Queries over the store: the list of matching archetypes is rebuilt only when the store's revision moved on. */
module Queries {
  import opened Entities
  import opened Sequences
  import opened ArchetypeTables
  import opened Archetypes
  import opened ArchetypeStorages

  ghost predicate HasAll<V>(row: map<TypeId, V>, required: seq<TypeId>) {
    forall c :: c in required ==> c in row
  }

  predicate Matching<V>(a: Archetype<V>, required: seq<TypeId>) {
    forall c :: c in required ==> c in a.signature
  }

  /** The archetypes that have all the required types, in their order. */
  function MatchList<V>(archetypes: seq<Archetype<V>>, required: seq<TypeId>): seq<Archetype<V>> {
    if archetypes == [] then [] else
    MatchList(archetypes[..|archetypes| - 1], required)
    + if Matching(archetypes[|archetypes| - 1], required) then [archetypes[|archetypes| - 1]] else []
  }

  lemma {:induction false} MatchListMembers<V>(archetypes: seq<Archetype<V>>, required: seq<TypeId>)
    ensures forall a :: a in MatchList(archetypes, required) <==> a in archetypes && Matching(a, required)
    ensures Distinct(archetypes) ==> Distinct(MatchList(archetypes, required))
  {
    if archetypes != [] {
      var front, last := archetypes[..|archetypes| - 1], archetypes[|archetypes| - 1];
      MatchListMembers(front, required);
      assert archetypes == front + [last];
      if Distinct(archetypes) && Matching(last, required) {
        assert last !in front;
        DistinctConcat(MatchList(front, required), [last]);
      }
    }
  }

  lemma MatchMember<V>(archetypes: seq<Archetype<V>>, required: seq<TypeId>, a: Archetype<V>)
    requires a in MatchList(archetypes, required)
    ensures a in archetypes && Matching(a, required)
  {
    MatchListMembers(archetypes, required);
  }

  /** The rows of some tables, one table after the other. */
  ghost function AllRows<K, V>(ts: Tables<K, V>, ks: seq<K>): seq<Entity>
    requires forall k :: k in ks ==> k in ts
  {
    if ks == [] then [] else AllRows(ts, ks[..|ks| - 1]) + ts[ks[|ks| - 1]].entities
  }

  /** Each entity of those tables is in those rows, once. */
  lemma {:induction false} AllRowsMembers<K, V>(ts: Tables<K, V>, places: Places<K>, ks: seq<K>)
    requires PlacesOk(ts, places) && Distinct(ks) && forall k :: k in ks ==> k in ts
    ensures forall e :: e in AllRows(ts, ks) <==> e in places && places[e].archetype in ks
    ensures Distinct(AllRows(ts, ks))
  {
    if ks != [] {
      var front, last := ks[..|ks| - 1], ks[|ks| - 1];
      AllRowsMembers(ts, places, front);
      assert ks == front + [last] && last !in front;
      RowsOfTable(ts, places, last);
      DistinctConcat(AllRows(ts, front), ts[last].entities);
    }
  }

  lemma RowsOfTable<K, V>(ts: Tables<K, V>, places: Places<K>, k: K)
    requires PlacesOk(ts, places) && k in ts
    ensures Distinct(ts[k].entities)
    ensures forall e :: e in places ==> places[e].At?
    ensures forall e :: e in ts[k].entities <==> e in places && places[e].archetype == k
  {
    forall i, j | 0 <= i < j < |ts[k].entities| ensures ts[k].entities[i] != ts[k].entities[j] {
      RowPlace(ts, places, k, i);
      RowPlace(ts, places, k, j);
    }
    forall e | e in ts[k].entities ensures e in places && places[e].archetype == k {
      var i :| 0 <= i < |ts[k].entities| && ts[k].entities[i] == e;
      RowPlace(ts, places, k, i);
    }
    forall e | e in places ensures PlaceOk(ts, e, places[e]) {
      PlacesMean(ts, places, e);
    }
  }

  class Query<V> {
    const required: seq<TypeId>
    var revision: int
    var matches: seq<Archetype<V>>

    constructor (required: seq<TypeId>)
      requires required != []
      ensures this.required == required && revision == -1
    {
      this.required := required;
      revision, matches := -1, [];
    }

    /** Whenever the query has the store's revision, it has the store's matches. */
    ghost predicate Current(storage: ArchetypeStorage<V>)
      reads this, storage`revision, storage`archetypes
    {
      && revision <= storage.revision
      && (revision == storage.revision ==> matches == MatchList(storage.archetypes, required))
    }

    /** Whatever the store does between two uses, the query's list is never taken for current when it is not. */
    twostate lemma CurrentStays(storage: ArchetypeStorage<V>)
      requires old(Current(storage)) && revision == old(revision) && matches == old(matches)
      requires storage.revision >= old(storage.revision)
      requires storage.revision == old(storage.revision) ==> storage.archetypes == old(storage.archetypes)
      ensures Current(storage)
    {
    }

    method RefreshMatches(storage: ArchetypeStorage<V>)
      requires storage.Valid() && Current(storage)
      modifies this
      ensures revision == storage.revision && Current(storage)
      ensures matches == MatchList(storage.archetypes, required)
    {
      hide ArchetypeStorage.Valid;
      if revision == storage.revision {
        return;
      }
      var found: seq<Archetype<V>> := [];
      var i := 0;
      while i < |storage.archetypes|
        invariant 0 <= i <= |storage.archetypes|
        invariant found == MatchList(storage.archetypes[..i], required)
      {
        var a := storage.archetypes[i];
        assert storage.archetypes[..i + 1][..i] == storage.archetypes[..i];
        SignatureSorted(storage, a);
        var all := true;
        var k := 0;
        while k < |required| && all
          invariant 0 <= k <= |required|
          invariant all <==> forall c :: c in required[..k] ==> c in a.signature
        {
          all := a.Contains(required[k]);
          k := k + 1;
        }
        assert all ==> required[..k] == required;
        if all {
          found := found + [a];
        }
        i := i + 1;
      }
      assert storage.archetypes[..i] == storage.archetypes;
      matches := found;
      revision := storage.revision;
    }

    lemma SignatureSorted(storage: ArchetypeStorage<V>, a: Archetype<V>)
      requires storage.Valid() && a in storage.archetypes
      ensures Sorted(a.signature)
    {
      hide ArchetypeStorage.Valid;
      storage.EdgeAt(a);
      TableSorted(a.Value());
    }

    /** Visits every entity that has all the required types, once, with the components it has. */
    method Each(storage: ArchetypeStorage<V>) returns (visited: seq<Entity>, rows: seq<map<TypeId, V>>)
      requires storage.Valid() && Current(storage)
      modifies this
      ensures storage.Valid() && Current(storage)
      ensures Distinct(visited) && |rows| == |visited|
      ensures forall e :: e in visited <==> e in storage.Seen() && HasAll(storage.Seen()[e], required)
      ensures forall i :: 0 <= i < |visited| ==> visited[i] in storage.Seen() && rows[i] == storage.Seen()[visited[i]]
    {
      hide ArchetypeStorage.Valid;
      hide ArchetypeStorage.Seen;
      hide ArchetypeStorage.Placed;
      hide ArchetypeStorage.Snap;
      hide StoreOk;
      hide ViewOf;
      hide PlacesOk;
      hide RowOf;
      RefreshMatches(storage);
      visited, rows := VisitMatches(storage);
    }

    /** The part of Each that goes through the matching archetypes. */
    method VisitMatches(storage: ArchetypeStorage<V>) returns (visited: seq<Entity>, rows: seq<map<TypeId, V>>)
      requires storage.Valid() && matches == MatchList(storage.archetypes, required)
      ensures Distinct(visited) && |rows| == |visited|
      ensures forall e :: e in visited <==> e in storage.Seen() && HasAll(storage.Seen()[e], required)
      ensures forall i :: 0 <= i < |visited| ==> visited[i] in storage.Seen() && rows[i] == storage.Seen()[visited[i]]
    {
      hide ArchetypeStorage.Valid;
      hide ArchetypeStorage.Seen;
      hide ArchetypeStorage.Placed;
      hide ArchetypeStorage.Snap;
      hide StoreOk;
      hide ViewOf;
      hide PlacesOk;
      hide RowOf;
      hide MatchList;
      hide HasAll;
      storage.Opened();
      StoreTables(storage.Snap(), storage.Placed());
      MatchListMembers(storage.archetypes, required);
      MatchesInSnap(storage);
      visited, rows := [], [];
      var m := 0;
      while m < |matches|
        invariant 0 <= m <= |matches|
        invariant visited == AllRows(storage.Snap(), matches[..m]) && |rows| == |visited|
        invariant forall i :: 0 <= i < |visited| ==> visited[i] in storage.Seen() && rows[i] == storage.Seen()[visited[i]]
      {
        assert matches[m] in matches;
        visited, rows := VisitRows(storage, matches[m], visited, rows);
        assert matches[..m + 1][..m] == matches[..m];
        m := m + 1;
      }
      assert matches[..m] == matches;
      AllRowsMembers(storage.Snap(), storage.Placed(), matches);
      WhoMatches(storage);
    }

    /** The part of Each that goes through one archetype. */
    method VisitRows(storage: ArchetypeStorage<V>, a: Archetype<V>, visited0: seq<Entity>, rows0: seq<map<TypeId, V>>)
      returns (visited: seq<Entity>, rows: seq<map<TypeId, V>>)
      requires storage.Valid() && a in storage.archetypes && |rows0| == |visited0|
      requires forall i :: 0 <= i < |visited0| ==> visited0[i] in storage.Seen() && rows0[i] == storage.Seen()[visited0[i]]
      ensures a in storage.Snap() && visited == visited0 + storage.Snap()[a].entities && |rows| == |visited|
      ensures forall i :: 0 <= i < |visited| ==> visited[i] in storage.Seen() && rows[i] == storage.Seen()[visited[i]]
    {
      hide ArchetypeStorage.Valid;
      hide ArchetypeStorage.Seen;
      hide ArchetypeStorage.Placed;
      hide ArchetypeStorage.Snap;
      hide RowOf;
      storage.EdgeAt(a);
      visited, rows := visited0, rows0;
      var row := 0;
      assert visited0 + a.entities[..0] == visited0;
      while row < |a.entities|
        invariant 0 <= row <= |a.entities|
        invariant visited == visited0 + a.entities[..row] && |rows| == |visited|
        invariant forall i :: 0 <= i < |visited| ==> visited[i] in storage.Seen() && rows[i] == storage.Seen()[visited[i]]
      {
        RowSeen(storage, a, row);
        var values := ReadRow(a, row);
        visited := visited + [a.entities[row]];
        rows := rows + [values];
        row := row + 1;
      }
      assert a.entities[..row] == a.entities;
    }

    /** One cell from each column. */
    method ReadRow(a: Archetype<V>, row: nat) returns (values: map<TypeId, V>)
      requires TableOk(a.Value()) && row < |a.entities|
      ensures values == RowOf(a.Value(), row)
    {
      CellLengths(a.Value());
      values := map c | c in a.columns :: a.columns[c][row];
    }

    lemma MatchesInSnap(storage: ArchetypeStorage<V>)
      requires storage.Valid()
      ensures forall a :: a in MatchList(storage.archetypes, required) ==> a in storage.Snap() && a in storage.archetypes
    {
      hide ArchetypeStorage.Valid;
      MatchListMembers(storage.archetypes, required);
      forall a | a in MatchList(storage.archetypes, required) ensures a in storage.Snap() && a in storage.archetypes {
        MatchMember(storage.archetypes, required, a);
        storage.EdgeAt(a);
      }
    }

    lemma RowSeen(storage: ArchetypeStorage<V>, a: Archetype<V>, row: nat)
      requires storage.Valid() && a in storage.archetypes && row < |a.entities|
      ensures TableOk(a.Value()) && a.entities[row] in storage.Seen()
      ensures storage.Seen()[a.entities[row]] == RowOf(a.Value(), row)
    {
      hide ArchetypeStorage.Valid;
      hide ArchetypeStorage.Seen;
      hide StoreOk;
      hide ViewOf;
      hide RowOf;
      storage.Opened();
      storage.EdgeAt(a);
      StoreTables(storage.Snap(), storage.Placed());
      RowPlace(storage.Snap(), storage.Placed(), a, row);
      PlaceMeans(storage.Snap(), storage.Placed(), a.entities[row]);
    }

    /** An entity has all the required types exactly when its archetype matches. */
    lemma WhoMatches(storage: ArchetypeStorage<V>)
      requires storage.Valid()
      ensures forall e :: e in storage.Placed() ==> storage.Placed()[e].At?
      ensures forall e :: (e in storage.Placed() && storage.Placed()[e].archetype in MatchList(storage.archetypes, required))
                     <==> (e in storage.Seen() && HasAll(storage.Seen()[e], required))
    {
      hide ArchetypeStorage.Valid;
      hide ArchetypeStorage.Seen;
      hide ArchetypeStorage.Placed;
      hide StoreOk;
      hide ViewOf;
      hide RowOf;
      storage.Opened();
      MatchListMembers(storage.archetypes, required);
      forall e | e in storage.Placed()
        ensures storage.Placed()[e].At?
        ensures storage.Placed()[e].archetype in MatchList(storage.archetypes, required)
           <==> HasAll(storage.Seen()[e], required)
      {
        PlaceMeans(storage.Snap(), storage.Placed(), e);
        var a := storage.Placed()[e].archetype;
        assert a in storage.archetypes;
        storage.EdgeAt(a);
        TypesAre(a.Value());
      }
    }
  }
}
