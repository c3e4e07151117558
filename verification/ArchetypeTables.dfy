/** Entities grouped by the set of component types they have: tables of columns, the places of
    the entities in them, and the plain map from entities to components that they stand for.
    Tables are known by keys of any type `K`. */
module ArchetypeTables {
  import opened Entities
  import opened Sequences

  type TypeId = nat

  /** Where an added or removed type leads, and the columns that carry over. */
  datatype Edge<K> = Edge(destination: K, columns: seq<TypeId>)

  datatype Location<+K> = Nowhere | At(archetype: K, row: nat)

  datatype Table<K, V> = Table(
    signature: seq<TypeId>,
    entities: seq<Entity>,
    columns: map<TypeId, seq<V>>,
    adds: map<TypeId, Edge<K>>,
    removes: map<TypeId, Edge<K>>)

  type Tables<K, V> = map<K, Table<K, V>>

  type Places<K> = map<Entity, Location<K>>

  /** What an observer sees: the components of every entity. */
  type View<V> = map<Entity, map<TypeId, V>>

  // ----- Signatures -----

  ghost predicate Sorted(s: seq<TypeId>) {
    forall i, j :: 0 <= i < j < |s| ==> s[i] < s[j]
  }

  ghost function TypesOf(s: seq<TypeId>): (types: set<TypeId>)
    ensures forall t :: t in types <==> t in s
  {
    set t | t in s
  }

  /** A sorted signature is determined by its types. */
  lemma {:induction false} SortedUnique(a: seq<TypeId>, b: seq<TypeId>)
    requires Sorted(a) && Sorted(b) && TypesOf(a) == TypesOf(b)
    ensures a == b
  {
    hide *;
    SortedLength(a);
    SortedLength(b);
    if a != [] {
      var la, lb := a[|a| - 1], b[|b| - 1];
      LastIsLargest(a);
      LastIsLargest(b);
      assert la in TypesOf(b) && lb in TypesOf(a);
      assert la == lb;
      SortedInit(a);
      SortedInit(b);
      SortedUnique(a[..|a| - 1], b[..|b| - 1]);
      assert a == a[..|a| - 1] + [la] && b == b[..|b| - 1] + [lb];
    }
  }

  lemma SortedInit(s: seq<TypeId>)
    requires Sorted(s) && s != []
    ensures Sorted(s[..|s| - 1]) && TypesOf(s[..|s| - 1]) == TypesOf(s) - {s[|s| - 1]}
  {
    assert s == s[..|s| - 1] + [s[|s| - 1]];
  }

  lemma LastIsLargest(s: seq<TypeId>)
    requires Sorted(s) && s != []
    ensures s[|s| - 1] in TypesOf(s) && forall t :: t in s ==> t <= s[|s| - 1]
  {
  }

  lemma {:induction false} SortedLength(s: seq<TypeId>)
    requires Sorted(s)
    ensures |TypesOf(s)| == |s|
  {
    if s != [] {
      var t, last := s[..|s| - 1], s[|s| - 1];
      SortedLength(t);
      assert s == t + [last];
      assert TypesOf(s) == TypesOf(t) + {last} && last !in TypesOf(t);
    }
  }

  /** Puts one more type in its place. */
  method InsertSorted(s: seq<TypeId>, c: TypeId) returns (result: seq<TypeId>)
    requires Sorted(s) && c !in s
    ensures Sorted(result) && TypesOf(result) == TypesOf(s) + {c}
  {
    var i := 0;
    while i < |s| && s[i] < c
      invariant 0 <= i <= |s| && forall k :: 0 <= k < i ==> s[k] < c
    {
      i := i + 1;
    }
    result := Insert(s, i, c);
    InsertedSorted(s, i, c);
  }

  lemma InsertedSorted(s: seq<TypeId>, i: nat, c: TypeId)
    requires Sorted(s) && i <= |s| && c !in s
    requires forall k :: 0 <= k < i ==> s[k] < c
    requires i < |s| ==> c <= s[i]
    ensures Sorted(Insert(s, i, c)) && TypesOf(Insert(s, i, c)) == TypesOf(s) + {c}
  {
    var r := Insert(s, i, c);
    InsertDistinct(s, i, c);
    forall j, k | 0 <= j < k < |r| ensures r[j] < r[k] {
      assert k > i ==> r[k] == s[k - 1] && s[k - 1] in s;
      assert j > i ==> r[j] == s[j - 1];
    }
  }

  /** Sorts a signature without duplicates. */
  method SortSignature(s: seq<TypeId>) returns (result: seq<TypeId>)
    requires Distinct(s)
    ensures Sorted(result) && TypesOf(result) == TypesOf(s)
  {
    result := [];
    var i := 0;
    while i < |s|
      invariant 0 <= i <= |s| && Sorted(result) && TypesOf(result) == TypesOf(s[..i])
    {
      assert s[i] !in s[..i];
      assert s[..i + 1] == s[..i] + [s[i]];
      result := InsertSorted(result, s[i]);
      i := i + 1;
    }
    assert s[..i] == s;
  }

  // ----- Tables -----

  ghost predicate TableOk<K, V>(t: Table<K, V>) {
    && Sorted(t.signature) && t.columns.Keys == TypesOf(t.signature)
    && forall c :: c in t.columns ==> |t.columns[c]| == |t.entities|
  }

  ghost predicate AddOk<K, V>(ts: Tables<K, V>, k: K, c: TypeId, e: Edge<K>)
    requires k in ts
  {
    && e.destination in ts && c !in TypesOf(ts[k].signature)
    && TypesOf(ts[e.destination].signature) == TypesOf(ts[k].signature) + {c}
    && TypesOf(e.columns) == TypesOf(ts[k].signature)
  }

  ghost predicate RemoveOk<K, V>(ts: Tables<K, V>, k: K, c: TypeId, e: Edge<K>)
    requires k in ts
  {
    && e.destination in ts && c in TypesOf(ts[k].signature)
    && TypesOf(ts[e.destination].signature) == TypesOf(ts[k].signature) - {c}
    && TypesOf(e.columns) == TypesOf(ts[e.destination].signature)
  }

  /** Cached transitions lead where they should. */
  ghost predicate EdgesOk<K, V>(ts: Tables<K, V>) {
    && (forall k, c :: k in ts && c in ts[k].adds ==> AddOk(ts, k, c, ts[k].adds[c]))
    && (forall k, c :: k in ts && c in ts[k].removes ==> RemoveOk(ts, k, c, ts[k].removes[c]))
  }

  ghost predicate SignaturesDiffer<K, V>(ts: Tables<K, V>) {
    forall a, b :: a in ts && b in ts && ts[a].signature == ts[b].signature ==> a == b
  }

  /** Places and rows are inverse to each other. */
  ghost predicate PlacesOk<K, V>(ts: Tables<K, V>, places: Places<K>) {
    && (forall e :: e in places ==> PlaceOk(ts, e, places[e]))
    && (forall k, i {:trigger ts[k].entities[i]} :: k in ts && 0 <= i < |ts[k].entities| ==>
          ts[k].entities[i] in places && places[ts[k].entities[i]] == At(k, i))
  }

  ghost predicate PlaceOk<K, V>(ts: Tables<K, V>, e: Entity, p: Location<K>) {
    p.At? && p.archetype in ts && p.row < |ts[p.archetype].entities| && ts[p.archetype].entities[p.row] == e
  }

  ghost predicate StoreOk<K, V>(ts: Tables<K, V>, places: Places<K>) {
    && (forall k :: k in ts ==> TableOk(ts[k]))
    && EdgesOk(ts) && SignaturesDiffer(ts) && PlacesOk(ts, places)
  }

  ghost function RowOf<K, V>(t: Table<K, V>, row: nat): map<TypeId, V>
    requires TableOk(t) && row < |t.entities|
  {
    map c | c in t.columns :: t.columns[c][row]
  }

  ghost function ViewOf<K, V>(ts: Tables<K, V>, places: Places<K>): View<V>
    requires StoreOk(ts, places)
  {
    map e | e in places :: assert PlaceOk(ts, e, places[e]); RowOf(ts[places[e].archetype], places[e].row)
  }

  function WithValue<V>(row: map<TypeId, V>, c: TypeId, value: V): map<TypeId, V> {
    row[c := value]
  }

  /** Of all that is seen, the one component `c` of `e` is `value` now. */
  ghost predicate OneCell<V>(view: View<V>, view': View<V>, e: Entity, c: TypeId, value: V) {
    && view'.Keys == view.Keys && (forall x :: x in view && x != e ==> view'[x] == view[x])
    && e in view && view'[e].Keys == view[e].Keys + {c}
    && c in view'[e] && view'[e][c] == value
    && (forall x :: x in view[e] && x != c ==> view'[e][x] == view[e][x])
  }

  lemma WithValueMeans<V>(view: View<V>, e: Entity, c: TypeId, value: V)
    requires e in view
    ensures OneCell(view, view[e := WithValue(view[e], c, value)], e, c, value)
  {
  }

  // ----- Swap-removal -----

  function SwapErased<T>(s: seq<T>, row: nat): seq<T>
    requires row < |s|
  {
    if row + 1 < |s| then s[row := s[|s| - 1]][..|s| - 1] else s[..|s| - 1]
  }

  /** The table without row `row`: the last row takes its place. */
  ghost function RowErased<K, V>(t: Table<K, V>, row: nat): Table<K, V>
    requires TableOk(t) && row < |t.entities|
  {
    t.(entities := SwapErased(t.entities, row), columns := map c | c in t.columns :: SwapErased(t.columns[c], row))
  }

  /** The table with one more row. */
  ghost function RowAdded<K, V>(t: Table<K, V>, e: Entity, values: map<TypeId, V>): Table<K, V>
    requires t.columns.Keys <= values.Keys
  {
    t.(entities := t.entities + [e], columns := map c | c in t.columns :: t.columns[c] + [values[c]])
  }

  lemma RowAddedOk<K, V>(t: Table<K, V>, e: Entity, values: map<TypeId, V>)
    requires TableOk(t) && t.columns.Keys == values.Keys
    ensures TableOk(RowAdded(t, e, values))
    ensures RowOf(RowAdded(t, e, values), |t.entities|) == values
    ensures forall i :: 0 <= i < |t.entities| ==> RowOf(RowAdded(t, e, values), i) == RowOf(t, i)
  {
  }

  lemma RowErasedOk<K, V>(t: Table<K, V>, row: nat)
    requires TableOk(t) && row < |t.entities|
    ensures TableOk(RowErased(t, row))
    ensures forall i :: 0 <= i < |t.entities| - 1 ==>
              RowOf(RowErased(t, row), i) == RowOf(t, if i == row then |t.entities| - 1 else i)
              && RowErased(t, row).entities[i] == t.entities[if i == row then |t.entities| - 1 else i]
  {
  }

  // ----- Entities -----

  /** A new entity at the end of table `k`. */
  ghost function Entered<K, V>(ts: Tables<K, V>, k: K, e: Entity, values: map<TypeId, V>): Tables<K, V>
    requires k in ts && ts[k].columns.Keys == values.Keys
  {
    ts[k := RowAdded(ts[k], e, values)]
  }

  lemma EnteredEdges<K, V>(ts: Tables<K, V>, ts': Tables<K, V>)
    requires EdgesOk(ts) && SignaturesDiffer(ts) && ts'.Keys == ts.Keys
    requires forall k :: k in ts ==> ts'[k].signature == ts[k].signature && ts'[k].adds == ts[k].adds && ts'[k].removes == ts[k].removes
    ensures EdgesOk(ts') && SignaturesDiffer(ts')
  {
    forall k, c | k in ts' && c in ts'[k].adds ensures AddOk(ts', k, c, ts'[k].adds[c]) {
      assert AddOk(ts, k, c, ts[k].adds[c]);
    }
    forall k, c | k in ts' && c in ts'[k].removes ensures RemoveOk(ts', k, c, ts'[k].removes[c]) {
      assert RemoveOk(ts, k, c, ts[k].removes[c]);
    }
  }

  lemma EnteredPlaces<K, V>(ts: Tables<K, V>, places: Places<K>, k: K, e: Entity, values: map<TypeId, V>)
    requires StoreOk(ts, places) && k in ts && ts[k].columns.Keys == values.Keys && e !in places
    ensures PlacesOk(Entered(ts, k, e, values), places[e := At(k, |ts[k].entities|)])
  {
    var ts', places' := Entered(ts, k, e, values), places[e := At(k, |ts[k].entities|)];
    forall x | x in places' ensures PlaceOk(ts', x, places'[x]) {
      assert x != e ==> PlaceOk(ts, x, places[x]);
    }
    forall m, i | m in ts' && 0 <= i < |ts'[m].entities|
      ensures ts'[m].entities[i] in places' && places'[ts'[m].entities[i]] == At(m, i)
    {
      if m != k || i < |ts[k].entities| {
        assert ts'[m].entities[i] == ts[m].entities[i];
      }
    }
  }

  /** Entering an entity adds it, with its values, to what is seen, and changes nothing else. */
  lemma EnteredView<K, V>(ts: Tables<K, V>, places: Places<K>, k: K, e: Entity, values: map<TypeId, V>)
    requires StoreOk(ts, places) && k in ts && ts[k].columns.Keys == values.Keys && e !in places
    ensures var ts', places' := Entered(ts, k, e, values), places[e := At(k, |ts[k].entities|)];
            StoreOk(ts', places') && ViewOf(ts', places') == ViewOf(ts, places)[e := values]
  {
    hide *;
    var ts', places' := Entered(ts, k, e, values), places[e := At(k, |ts[k].entities|)];
    EnteredStore(ts, places, k, e, values);
    ViewKeys(ts, places);
    ViewKeys(ts', places');
    forall x | x in places' ensures ViewOf(ts', places')[x] == ViewOf(ts, places)[e := values][x] {
      EnteredAt(ts, places, k, e, values, x);
    }
  }

  lemma EnteredStore<K, V>(ts: Tables<K, V>, places: Places<K>, k: K, e: Entity, values: map<TypeId, V>)
    requires StoreOk(ts, places) && k in ts && ts[k].columns.Keys == values.Keys && e !in places
    ensures StoreOk(Entered(ts, k, e, values), places[e := At(k, |ts[k].entities|)])
  {
    hide EdgesOk;
    hide SignaturesDiffer;
    hide PlacesOk;
    hide TableOk;
    RowAddedOk(ts[k], e, values);
    EnteredEdges(ts, Entered(ts, k, e, values));
    EnteredPlaces(ts, places, k, e, values);
  }

  lemma EnteredAt<K, V>(ts: Tables<K, V>, places: Places<K>, k: K, e: Entity, values: map<TypeId, V>, x: Entity)
    requires StoreOk(ts, places) && k in ts && ts[k].columns.Keys == values.Keys && e !in places
    requires StoreOk(Entered(ts, k, e, values), places[e := At(k, |ts[k].entities|)]) && (x == e || x in places)
    ensures var ts', places' := Entered(ts, k, e, values), places[e := At(k, |ts[k].entities|)];
            x in ViewOf(ts', places')
            && if x == e then ViewOf(ts', places')[x] == values
               else x in ViewOf(ts, places) && ViewOf(ts', places')[x] == ViewOf(ts, places)[x]
  {
    hide EdgesOk;
    hide SignaturesDiffer;
    hide PlacesOk;
    hide TableOk;
    RowAddedOk(ts[k], e, values);
    if x != e {
      PlacesMean(ts, places, x);
    }
  }

  lemma PlacesMean<K, V>(ts: Tables<K, V>, places: Places<K>, e: Entity)
    requires PlacesOk(ts, places) && e in places
    ensures PlaceOk(ts, e, places[e])
  {
  }

  /** The entity at row `row` of table `k` gone, the last entity of the table in its place. */
  ghost function Left<K, V>(ts: Tables<K, V>, k: K, row: nat): Tables<K, V>
    requires k in ts && TableOk(ts[k]) && row < |ts[k].entities|
  {
    ts[k := RowErased(ts[k], row)]
  }

  /** `swapped` takes the place of `e`, unless it is `e` itself. */
  ghost function SwappedPlaces<K>(places: Places<K>, e: Entity, swapped: Entity, p: Location<K>): Places<K> {
    if swapped != e then places[swapped := p] else places
  }

  ghost function LeftPlaces<K, V>(ts: Tables<K, V>, places: Places<K>, k: K, row: nat): Places<K>
    requires k in ts && row < |ts[k].entities|
  {
    var e, swapped := ts[k].entities[row], ts[k].entities[|ts[k].entities| - 1];
    SwappedPlaces(places, e, swapped, At(k, row)) - {e}
  }

  lemma LeftPlacesOk<K, V>(ts: Tables<K, V>, places: Places<K>, k: K, row: nat)
    requires StoreOk(ts, places) && k in ts && row < |ts[k].entities|
    ensures TableOk(ts[k]) && PlacesOk(Left(ts, k, row), LeftPlaces(ts, places, k, row))
  {
    hide StoreOk;
    hide TableOk;
    hide Left;
    hide LeftPlaces;
    hide PlaceOk;
    StoreTables(ts, places);
    var ts', places' := Left(ts, k, row), LeftPlaces(ts, places, k, row);
    forall x | x in places' ensures PlaceOk(ts', x, places'[x]) {
      LeftPlace(ts, places, k, row, x);
    }
    forall m, i | m in ts' && 0 <= i < |ts'[m].entities|
      ensures ts'[m].entities[i] in places' && places'[ts'[m].entities[i]] == At(m, i)
    {
      LeftRow(ts, places, k, row, m, i);
    }
  }

  lemma LeftPlace<K, V>(ts: Tables<K, V>, places: Places<K>, k: K, row: nat, x: Entity)
    requires StoreOk(ts, places) && k in ts && row < |ts[k].entities| && x in LeftPlaces(ts, places, k, row)
    ensures TableOk(ts[k]) && PlaceOk(Left(ts, k, row), x, LeftPlaces(ts, places, k, row)[x])
  {
    hide EdgesOk;
    hide SignaturesDiffer;
    hide TableOk;
    RowErasedOk(ts[k], row);
    RowPlace(ts, places, k, row);
    RowPlace(ts, places, k, |ts[k].entities| - 1);
    PlacesMean(ts, places, x);
  }

  lemma LeftRow<K, V>(ts: Tables<K, V>, places: Places<K>, k: K, row: nat, m: K, i: nat)
    requires StoreOk(ts, places) && k in ts && row < |ts[k].entities|
    requires m in Left(ts, k, row) && i < |Left(ts, k, row)[m].entities|
    ensures var x := Left(ts, k, row)[m].entities[i];
            x in LeftPlaces(ts, places, k, row) && LeftPlaces(ts, places, k, row)[x] == At(m, i)
  {
    hide EdgesOk;
    hide SignaturesDiffer;
    var n := |ts[k].entities|;
    var old' := if m == k && i == row then n - 1 else i;
    RowErasedOk(ts[k], row);
    assert Left(ts, k, row)[m].entities[i] == ts[m].entities[old'];
    RowPlace(ts, places, m, old');
    RowPlace(ts, places, k, row);
    RowPlace(ts, places, k, n - 1);
  }

  lemma RowPlace<K, V>(ts: Tables<K, V>, places: Places<K>, k: K, i: nat)
    requires PlacesOk(ts, places) && k in ts && i < |ts[k].entities|
    ensures ts[k].entities[i] in places && places[ts[k].entities[i]] == At(k, i)
  {
  }

  /** Leaving takes exactly the one entity out of what is seen. */
  lemma LeftView<K, V>(ts: Tables<K, V>, places: Places<K>, k: K, row: nat)
    requires StoreOk(ts, places) && k in ts && row < |ts[k].entities|
    ensures var ts', places' := Left(ts, k, row), LeftPlaces(ts, places, k, row);
            StoreOk(ts', places') && ViewOf(ts', places') == ViewOf(ts, places) - {ts[k].entities[row]}
  {
    hide EdgesOk;
    hide SignaturesDiffer;
    hide PlacesOk;
    hide TableOk;
    var ts', places' := Left(ts, k, row), LeftPlaces(ts, places, k, row);
    RowErasedOk(ts[k], row);
    EnteredEdges(ts, ts');
    LeftPlacesOk(ts, places, k, row);
    RowPlace(ts, places, k, row);
    RowPlace(ts, places, k, |ts[k].entities| - 1);
    hide RowOf;
    assert places'.Keys == places.Keys - {ts[k].entities[row]};
    forall x | x in places' ensures ViewOf(ts', places')[x] == ViewOf(ts, places)[x] {
      LeftSeen(ts, places, k, row, x);
    }
  }

  lemma LeftSeen<K, V>(ts: Tables<K, V>, places: Places<K>, k: K, row: nat, x: Entity)
    requires StoreOk(ts, places) && k in ts && row < |ts[k].entities| && TableOk(RowErased(ts[k], row))
    requires x in LeftPlaces(ts, places, k, row)
    ensures var ts', places' := Left(ts, k, row), LeftPlaces(ts, places, k, row);
            && x in places && PlaceOk(ts, x, places[x]) && PlaceOk(ts', x, places'[x])
            && RowOf(ts'[places'[x].archetype], places'[x].row) == RowOf(ts[places[x].archetype], places[x].row)
  {
    hide EdgesOk;
    hide SignaturesDiffer;
    hide TableOk;
    hide RowOf;
    hide RowErased;
    LeftPlacesOk(ts, places, k, row);
    RowPlace(ts, places, k, row);
    RowPlace(ts, places, k, |ts[k].entities| - 1);
    PlacesMean(ts, places, x);
    RowErasedOk(ts[k], row);
  }

  // ----- Moving between tables -----

  ghost function MovedPlaces<K, V>(ts: Tables<K, V>, places: Places<K>, k: K, row: nat, m: K): Places<K>
    requires k in ts && m in ts && row < |ts[k].entities|
  {
    var e, swapped := ts[k].entities[row], ts[k].entities[|ts[k].entities| - 1];
    SwappedPlaces(places[e := At(m, |ts[m].entities|)], e, swapped, At(k, row))
  }

  /** Appending to one table and swap-removing from another moves an entity: it has the new values, and
      everybody else is seen as before. */
  lemma MovedView<K, V>(ts: Tables<K, V>, places: Places<K>, k: K, row: nat, m: K, values: map<TypeId, V>)
    requires StoreOk(ts, places) && k in ts && m in ts && k != m && row < |ts[k].entities|
    requires ts[m].columns.Keys == values.Keys
    ensures TableOk(ts[k])
    ensures var ts' := ts[m := RowAdded(ts[m], ts[k].entities[row], values)][k := RowErased(ts[k], row)];
            && StoreOk(ts', MovedPlaces(ts, places, k, row, m))
            && ViewOf(ts', MovedPlaces(ts, places, k, row, m)) == ViewOf(ts, places)[ts[k].entities[row] := values]
  {
    hide StoreOk;
    hide ViewOf;
    hide RowErased;
    hide RowAdded;
    hide TableOk;
    hide PlacesOk;
    hide EdgesOk;
    hide SignaturesDiffer;
    StoreTables(ts, places);
    var e, n := ts[k].entities[row], |ts[k].entities|;
    var left, leftPlaces := Left(ts, k, row), LeftPlaces(ts, places, k, row);
    LeftView(ts, places, k, row);
    StoreSwapped(ts, places, k, row);
    EnteredView(left, leftPlaces, m, e, values);
    assert Entered(left, m, e, values) == ts[m := RowAdded(ts[m], e, values)][k := RowErased(ts[k], row)];
    MovedPlacesAre(ts, places, k, row, m);
    Replaced(ViewOf(ts, places), e, values);
  }

  lemma Replaced<A>(view: map<Entity, A>, e: Entity, value: A)
    ensures (view - {e})[e := value] == view[e := value]
  {
  }

  lemma MovedPlacesAre<K, V>(ts: Tables<K, V>, places: Places<K>, k: K, row: nat, m: K)
    requires k in ts && m in ts && row < |ts[k].entities|
    ensures LeftPlaces(ts, places, k, row)[ts[k].entities[row] := At(m, |ts[m].entities|)] == MovedPlaces(ts, places, k, row, m)
  {
  }

  lemma StoreTables<K, V>(ts: Tables<K, V>, places: Places<K>)
    requires StoreOk(ts, places)
    ensures (forall k :: k in ts ==> TableOk(ts[k])) && EdgesOk(ts) && SignaturesDiffer(ts) && PlacesOk(ts, places)
  {
  }

  lemma StoreSwapped<K, V>(ts: Tables<K, V>, places: Places<K>, k: K, row: nat)
    requires StoreOk(ts, places) && k in ts && row < |ts[k].entities|
    ensures ts[k].entities[row] !in LeftPlaces(ts, places, k, row)
    ensures ts[k].entities[|ts[k].entities| - 1] in places && ts[k].entities[row] in places
  {
    RowPlace(ts, places, k, row);
    RowPlace(ts, places, k, |ts[k].entities| - 1);
  }

  lemma EmptyStore<K, V>(ts: Tables<K, V>, places: Places<K>)
    requires ts.Keys == {} && places.Keys == {}
    ensures StoreOk(ts, places) && ViewOf(ts, places) == map[]
  {
  }

  // ----- New tables and cached edges -----

  ghost predicate Empty<K, V>(t: Table<K, V>) {
    t.entities == [] && t.adds == map[] && t.removes == map[]
  }

  /** Tables with the same entities in the same rows, and perhaps further empty tables. */
  ghost predicate SameRows<K, V>(ts: Tables<K, V>, ts': Tables<K, V>) {
    && ts.Keys <= ts'.Keys
    && (forall k :: k in ts ==> ts'[k].entities == ts[k].entities)
    && (forall k :: k in ts' && k !in ts ==> ts'[k].entities == [])
  }

  lemma SameRowsPlaces<K, V>(ts: Tables<K, V>, ts': Tables<K, V>, places: Places<K>)
    requires PlacesOk(ts, places) && SameRows(ts, ts')
    ensures PlacesOk(ts', places)
  {
    forall e | e in places ensures PlaceOk(ts', e, places[e]) {
      assert PlaceOk(ts, e, places[e]);
    }
    forall m, i | m in ts' && 0 <= i < |ts'[m].entities|
      ensures ts'[m].entities[i] in places && places[ts'[m].entities[i]] == At(m, i)
    {
      RowPlace(ts, places, m, i);
    }
  }

  lemma SameColumnsView<K, V>(ts: Tables<K, V>, ts': Tables<K, V>, places: Places<K>)
    requires StoreOk(ts, places) && StoreOk(ts', places) && SameRows(ts, ts')
    requires forall k :: k in ts ==> ts'[k].columns == ts[k].columns
    ensures ViewOf(ts', places) == ViewOf(ts, places)
  {
    hide EdgesOk;
    hide SignaturesDiffer;
    hide PlacesOk;
    hide TableOk;
    forall e | e in places ensures ViewOf(ts', places)[e] == ViewOf(ts, places)[e] {
      PlacesMean(ts, places, e);
    }
  }

  lemma NewTable<K, V>(ts: Tables<K, V>, places: Places<K>, k: K, t: Table<K, V>)
    requires StoreOk(ts, places) && k !in ts && TableOk(t) && Empty(t)
    requires forall m :: m in ts ==> ts[m].signature != t.signature
    ensures StoreOk(ts[k := t], places) && ViewOf(ts[k := t], places) == ViewOf(ts, places)
  {
    hide EdgesOk;
    hide PlacesOk;
    hide TableOk;
    var ts' := ts[k := t];
    NewTableEdges(ts, k, t);
    SameRowsPlaces(ts, ts', places);
    SameColumnsView(ts, ts', places);
  }

  lemma NewTableEdges<K, V>(ts: Tables<K, V>, k: K, t: Table<K, V>)
    requires EdgesOk(ts) && k !in ts && Empty(t)
    ensures EdgesOk(ts[k := t])
  {
    var ts' := ts[k := t];
    forall m, c | m in ts' && c in ts'[m].adds ensures AddOk(ts', m, c, ts'[m].adds[c]) {
      assert AddOk(ts, m, c, ts[m].adds[c]);
    }
    forall m, c | m in ts' && c in ts'[m].removes ensures RemoveOk(ts', m, c, ts'[m].removes[c]) {
      assert RemoveOk(ts, m, c, ts[m].removes[c]);
    }
  }

  /** Remembering where a transition leads changes nothing that is seen. */
  lemma EdgeCached<K, V>(ts: Tables<K, V>, places: Places<K>, k: K, adds: map<TypeId, Edge<K>>, removes: map<TypeId, Edge<K>>)
    requires StoreOk(ts, places) && k in ts
    requires forall c :: c in adds ==> AddOk(ts, k, c, adds[c])
    requires forall c :: c in removes ==> RemoveOk(ts, k, c, removes[c])
    ensures var ts' := ts[k := ts[k].(adds := adds, removes := removes)];
            StoreOk(ts', places) && ViewOf(ts', places) == ViewOf(ts, places)
  {
    hide EdgesOk;
    hide SignaturesDiffer;
    hide PlacesOk;
    hide AddOk;
    hide RemoveOk;
    var ts' := ts[k := ts[k].(adds := adds, removes := removes)];
    CachedEdges(ts, k, adds, removes);
    SameRowsPlaces(ts, ts', places);
    SameColumnsView(ts, ts', places);
  }

  lemma CachedEdges<K, V>(ts: Tables<K, V>, k: K, adds: map<TypeId, Edge<K>>, removes: map<TypeId, Edge<K>>)
    requires EdgesOk(ts) && SignaturesDiffer(ts) && k in ts
    requires forall c :: c in adds ==> AddOk(ts, k, c, adds[c])
    requires forall c :: c in removes ==> RemoveOk(ts, k, c, removes[c])
    ensures EdgesOk(ts[k := ts[k].(adds := adds, removes := removes)])
    ensures SignaturesDiffer(ts[k := ts[k].(adds := adds, removes := removes)])
  {
    var ts' := ts[k := ts[k].(adds := adds, removes := removes)];
    forall m, c | m in ts' && c in ts'[m].adds ensures AddOk(ts', m, c, ts'[m].adds[c]) {
      assert m != k ==> AddOk(ts, m, c, ts[m].adds[c]);
    }
    forall m, c | m in ts' && c in ts'[m].removes ensures RemoveOk(ts', m, c, ts'[m].removes[c]) {
      assert m != k ==> RemoveOk(ts, m, c, ts[m].removes[c]);
    }
  }

  // ----- Writing one component -----

  ghost function CellWritten<K, V>(t: Table<K, V>, c: TypeId, row: nat, value: V): Table<K, V>
    requires c in t.columns && row < |t.columns[c]|
  {
    t.(columns := t.columns[c := t.columns[c][row := value]])
  }

  lemma CellWrittenOk<K, V>(t: Table<K, V>, c: TypeId, row: nat, value: V)
    requires TableOk(t) && c in t.columns && row < |t.entities|
    ensures var t' := CellWritten(t, c, row, value);
            && TableOk(t') && t'.entities == t.entities && t'.signature == t.signature
            && t'.adds == t.adds && t'.removes == t.removes
            && forall i :: 0 <= i < |t.entities| ==>
                 RowOf(t', i) == if i == row then WithValue(RowOf(t, i), c, value) else RowOf(t, i)
  {
  }

  ghost function Written<K, V>(ts: Tables<K, V>, k: K, c: TypeId, row: nat, value: V): Tables<K, V>
    requires k in ts && c in ts[k].columns && row < |ts[k].columns[c]|
  {
    ts[k := CellWritten(ts[k], c, row, value)]
  }

  lemma PlaceMeans<K, V>(ts: Tables<K, V>, places: Places<K>, e: Entity)
    requires StoreOk(ts, places) && e in places
    ensures PlaceOk(ts, e, places[e]) && TableOk(ts[places[e].archetype])
    ensures e in ViewOf(ts, places) && ViewOf(ts, places)[e] == RowOf(ts[places[e].archetype], places[e].row)
    ensures ViewOf(ts, places)[e].Keys == ts[places[e].archetype].columns.Keys
  {
    hide EdgesOk;
    hide SignaturesDiffer;
    PlacesMean(ts, places, e);
  }

  /** Writing through a column changes that one component of that one entity. */
  lemma WrittenView<K, V>(ts: Tables<K, V>, places: Places<K>, e: Entity, c: TypeId, value: V)
    requires StoreOk(ts, places) && e in places
    requires PlaceOk(ts, e, places[e]) && c in ts[places[e].archetype].columns
    ensures var k, row := places[e].archetype, places[e].row;
            && row < |ts[k].columns[c]| && e in ViewOf(ts, places)
            && StoreOk(Written(ts, k, c, row, value), places)
            && ViewOf(Written(ts, k, c, row, value), places) == ViewOf(ts, places)[e := WithValue(ViewOf(ts, places)[e], c, value)]
  {
    hide EdgesOk;
    hide SignaturesDiffer;
    hide PlacesOk;
    hide TableOk;
    hide RowOf;
    hide WithValue;
    hide CellWritten;
    PlaceMeans(ts, places, e);
    var k, row := places[e].archetype, places[e].row;
    ColumnLength(ts[k], c);
    CellWrittenOk(ts[k], c, row, value);
    var ts' := Written(ts, k, c, row, value);
    EnteredEdges(ts, ts');
    SameRowsPlaces(ts, ts', places);
    forall x | x in places ensures ViewOf(ts', places)[x] == ViewOf(ts, places)[e := WithValue(ViewOf(ts, places)[e], c, value)][x] {
      PlacesMean(ts, places, x);
    }
  }

  lemma ColumnLength<K, V>(t: Table<K, V>, c: TypeId)
    requires TableOk(t) && c in t.columns
    ensures |t.columns[c]| == |t.entities|
  {
  }

  // ----- Signatures of transitions -----

  lemma SignatureDistinct<K, V>(t: Table<K, V>)
    requires TableOk(t)
    ensures Distinct(t.signature)
  {
  }

  lemma MoreTypes(s: seq<TypeId>, c: TypeId)
    requires Distinct(s) && c !in TypesOf(s)
    ensures Distinct(s + [c]) && TypesOf(s + [c]) == TypesOf(s) + {c}
  {
    assert forall t :: t in s + [c] <==> t in s || t == c;
  }

  /** Takes every occurrence of `c` out. */
  method EraseType(s: seq<TypeId>, c: TypeId) returns (result: seq<TypeId>)
    ensures result == Erased(s, c)
  {
    result := [];
    var i := 0;
    while i < |s|
      invariant 0 <= i <= |s| && result == Erased(s[..i], c)
    {
      assert s[..i + 1][..i] == s[..i];
      if s[i] != c {
        result := result + [s[i]];
      }
      i := i + 1;
    }
    assert s[..i] == s;
  }

  function Erased(s: seq<TypeId>, c: TypeId): seq<TypeId> {
    if s == [] then [] else Erased(s[..|s| - 1], c) + if s[|s| - 1] == c then [] else [s[|s| - 1]]
  }

  lemma {:induction false} FewerTypes(s: seq<TypeId>, types: seq<TypeId>, c: TypeId)
    requires Distinct(s) && types == Erased(s, c)
    ensures Distinct(types) && TypesOf(types) == TypesOf(s) - {c}
  {
    if s != [] {
      var t, last := s[..|s| - 1], s[|s| - 1];
      FewerTypes(t, Erased(t, c), c);
      assert s == t + [last] && last !in t;
      assert forall x :: x in types <==> x in Erased(t, c) || (x == last && last != c);
      if last != c {
        DistinctConcat(Erased(t, c), [last]);
      }
    }
  }

  lemma AddEdgeOk<K, V>(ts: Tables<K, V>, k: K, c: TypeId, e: Edge<K>)
    requires k in ts && e.destination in ts && TableOk(ts[k]) && TableOk(ts[e.destination])
    requires c !in TypesOf(ts[k].signature) && TypesOf(ts[e.destination].signature) == TypesOf(ts[k].signature) + {c}
    requires TypesOf(e.columns) == ts[k].columns.Keys * ts[e.destination].columns.Keys
    ensures AddOk(ts, k, c, e)
  {
  }

  lemma RemoveEdgeOk<K, V>(ts: Tables<K, V>, k: K, c: TypeId, e: Edge<K>)
    requires k in ts && e.destination in ts && TableOk(ts[k]) && TableOk(ts[e.destination])
    requires c in TypesOf(ts[k].signature) && TypesOf(ts[e.destination].signature) == TypesOf(ts[k].signature) - {c}
    requires TypesOf(e.columns) == ts[k].columns.Keys * ts[e.destination].columns.Keys
    ensures RemoveOk(ts, k, c, e)
  {
  }

  // ----- The row of a moved entity -----

  function DefaultRow<V>(types: set<TypeId>, defaults: TypeId -> V): map<TypeId, V> {
    map c | c in types :: defaults(c)
  }

  datatype Added<+V> = Nothing | Value(component: TypeId, value: V)

  /** What the destination row holds: the added value, what carries over, and defaults. */
  function MovedRow<V>(types: set<TypeId>, columns: seq<TypeId>, row: map<TypeId, V>, added: Added<V>,
                       defaults: TypeId -> V): map<TypeId, V>
    requires forall c :: c in columns ==> c in row
  {
    map c | c in types ::
      if added.Value? && c == added.component then added.value else if c in columns then row[c] else defaults(c)
  }

  lemma RowKeys<K, V>(t: Table<K, V>, row: nat)
    requires TableOk(t) && row < |t.entities|
    ensures RowOf(t, row).Keys == t.columns.Keys == TypesOf(t.signature)
  {
  }

  /** Following an edge that adds a type gives the old row with that type. */
  lemma AddedRow<K, V>(ts: Tables<K, V>, k: K, c: TypeId, e: Edge<K>, row: nat, value: V, defaults: TypeId -> V)
    requires k in ts && AddOk(ts, k, c, e) && TableOk(ts[k]) && TableOk(ts[e.destination]) && row < |ts[k].entities|
    ensures forall x :: x in e.columns ==> x in RowOf(ts[k], row)
    ensures MovedRow(ts[e.destination].columns.Keys, e.columns, RowOf(ts[k], row), Value(c, value), defaults)
         == WithValue(RowOf(ts[k], row), c, value)
    ensures e.destination != k
  {
    RowKeys(ts[k], row);
  }

  /** Following an edge that removes a type gives the old row without it. */
  lemma RemovedRow<K, V>(ts: Tables<K, V>, k: K, c: TypeId, e: Edge<K>, row: nat, defaults: TypeId -> V)
    requires k in ts && RemoveOk(ts, k, c, e) && TableOk(ts[k]) && TableOk(ts[e.destination]) && row < |ts[k].entities|
    ensures forall x :: x in e.columns ==> x in RowOf(ts[k], row)
    ensures MovedRow(ts[e.destination].columns.Keys, e.columns, RowOf(ts[k], row), Nothing, defaults) == RowOf(ts[k], row) - {c}
    ensures e.destination != k
  {
    RowKeys(ts[k], row);
  }

  lemma TypesAre<K, V>(t: Table<K, V>)
    requires TableOk(t)
    ensures t.columns.Keys == TypesOf(t.signature)
  {
  }

  lemma ViewKeys<K, V>(ts: Tables<K, V>, places: Places<K>)
    requires StoreOk(ts, places)
    ensures ViewOf(ts, places).Keys == places.Keys
  {
  }

  /** Defaults overwritten cell by cell are the moved row. */
  lemma CellsFilled<K, V>(t: Table<K, V>, e: Entity, t': Table<K, V>, source: map<TypeId, seq<V>>, shared: seq<TypeId>,
                          from: nat, row: map<TypeId, V>, added: Added<V>, defaults: TypeId -> V)
    requires TableOk(t)
    requires forall c :: c in shared ==> c in t.columns && c in source && from < |source[c]| && c in row && row[c] == source[c][from]
    requires t'.columns.Keys == t.columns.Keys && t'.entities == t.entities + [e]
    requires t'.signature == t.signature && t'.adds == t.adds && t'.removes == t.removes
    requires var n, t1 := |t.entities|, RowAdded(t, e, DefaultRow(t.columns.Keys, defaults));
             forall c :: c in t.columns ==>
               t'.columns[c] ==
               if added.Value? && c == added.component then t1.columns[c][n := added.value]
               else if c in shared then t1.columns[c][n := source[c][from]] else t1.columns[c]
    ensures MovedRow(t.columns.Keys, shared, row, added, defaults).Keys == t.columns.Keys
    ensures t' == RowAdded(t, e, MovedRow(t.columns.Keys, shared, row, added, defaults))
  {
    hide RowAdded;
    hide TableOk;
    var values := MovedRow(t.columns.Keys, shared, row, added, defaults);
    RowAddedShape(t, e, DefaultRow(t.columns.Keys, defaults));
    RowAddedShape(t, e, values);
    CellLengths(t);
    forall c | c in t.columns ensures t'.columns[c] == RowAdded(t, e, values).columns[c] {
      LastCell(t.columns[c], defaults(c), values[c]);
    }
    assert t'.columns == RowAdded(t, e, values).columns;
  }

  lemma LastCell<V>(s: seq<V>, x: V, y: V)
    ensures (s + [x])[|s| := y] == s + [y]
  {
  }

  lemma RowAddedShape<K, V>(t: Table<K, V>, e: Entity, values: map<TypeId, V>)
    requires t.columns.Keys == values.Keys
    ensures var t' := RowAdded(t, e, values);
            && t'.columns.Keys == t.columns.Keys && t'.entities == t.entities + [e]
            && t'.signature == t.signature && t'.adds == t.adds && t'.removes == t.removes
            && forall c :: c in t.columns ==> t'.columns[c] == t.columns[c] + [values[c]]
  {
  }

  lemma CellLengths<K, V>(t: Table<K, V>)
    requires TableOk(t)
    ensures forall c :: c in t.columns ==> |t.columns[c]| == |t.entities|
  {
  }

  lemma MovedKeys<V>(types: set<TypeId>, columns: seq<TypeId>, row: map<TypeId, V>, added: Added<V>, defaults: TypeId -> V)
    requires forall c :: c in columns ==> c in row
    ensures MovedRow(types, columns, row, added, defaults).Keys == types
  {
  }

  lemma TableSorted<K, V>(t: Table<K, V>)
    requires TableOk(t)
    ensures Sorted(t.signature)
  {
  }
}
