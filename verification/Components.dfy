/** Serialisable component types and the values entities hold, and how a scene file carries them. */
module Components {
  import opened Entities
  import opened Sequences
  import opened Wrappers

  /** A component type: its tag, its bytes, and the references inside its values, to entities by handle and to
      resources by id and handle. */
  datatype Record<!C> = Record(
    tag: nat,
    builtIn: bool,                        // present on every entity from its creation
    initial: C,
    encode: C -> seq<Byte>,
    decode: seq<Byte> -> Option<C>,       // None unless it consumes exactly these bytes
    refs: C -> seq<Entity>,
    mapRefs: (C, Entity -> Entity) -> C,  // every entity reference replaced
    assets: C -> seq<nat>,                // the ids of the resources referred to; null ids are not visited
    handles: C -> seq<Entity>,            // the handle beside each of those ids
    fill: (C, nat -> Entity) -> C,        // the handle of every resource visited replaced
    bare: C -> C)                         // every handle of a resource emptied

  /** The bytes of a reference keep its index only. */
  function StoredRef(e: Entity): Entity {
    Entity(e.index, 0)
  }

  /** Encoding and decoding undo each other but for what StoredRef drops and for the handles of resources, which
      are not stored, and replacing references composes. */
  ghost predicate RecordOk<C(!new)>(r: Record<C>) {
    && (forall c :: r.decode(r.encode(c)) == Some(r.mapRefs(r.bare(c), StoredRef)))
    && (forall c: C, f: Entity -> Entity :: r.bare(r.mapRefs(c, f)) == r.mapRefs(r.bare(c), f))
    && (forall c: C, f: Entity -> Entity, g: Entity -> Entity, h: Entity -> Entity
          {:trigger r.mapRefs(r.mapRefs(c, f), g), r.mapRefs(c, h)} ::
          (forall e :: h(e) == g(f(e))) ==> r.mapRefs(r.mapRefs(c, f), g) == r.mapRefs(c, h))
    && (forall c: C, f: Entity -> Entity :: |r.refs(r.mapRefs(c, f))| == |r.refs(c)|)
    && (forall c: C, f: Entity -> Entity, i: nat :: 0 <= i < |r.refs(c)| ==> r.refs(r.mapRefs(c, f))[i] == f(r.refs(c)[i]))
    && (forall f: Entity -> Entity {:trigger r.mapRefs(r.initial, f)} ::
          r.builtIn ==> r.refs(r.initial) == [] && r.mapRefs(r.initial, f) == r.initial)
    && (forall c :: 0 !in r.assets(c))
    && (forall c: C, f: Entity -> Entity :: r.assets(r.mapRefs(c, f)) == r.assets(c))
    && (forall c: C, h: nat -> Entity :: r.assets(c) == [] ==> r.fill(c, h) == c)
  }

  /** Filling puts the handle of each id beside it, emptying leaves none, and neither changes anything else;
      replacing entity references leaves the handles alone. */
  ghost predicate HandlesOk<C(!new)>(r: Record<C>) {
    && (forall c :: |r.handles(c)| == |r.assets(c)|)
    && (forall c: C, h: nat -> Entity {:trigger r.fill(c, h)} :: BesideIds(r, r.fill(c, h), h) && SameButHandles(r, c, r.fill(c, h)))
    && (forall c {:trigger r.bare(c)} :: BesideIds(r, r.bare(c), id => NONE) && SameButHandles(r, c, r.bare(c)))
    && (forall c: C, f: Entity -> Entity :: r.handles(r.mapRefs(c, f)) == r.handles(c))
  }

  /** Beside every id stands its handle. */
  ghost predicate BesideIds<C>(r: Record<C>, c: C, h: nat -> Entity) {
    && |r.handles(c)| == |r.assets(c)|
    && forall k :: 0 <= k < |r.assets(c)| ==> r.handles(c)[k] == h(r.assets(c)[k])
  }

  ghost predicate SameButHandles<C>(r: Record<C>, c: C, c': C) {
    r.assets(c') == r.assets(c) && r.refs(c') == r.refs(c) && r.bare(c') == r.bare(c)
  }

  /** No value of the type refers to a resource. */
  ghost predicate HasNoAssets<C(!new)>(r: Record<C>) {
    forall c :: r.assets(c) == []
  }

  ghost predicate RegistryOk<C(!new)>(records: seq<Record<C>>) {
    && (forall i :: 0 <= i < |records| ==> RecordOk(records[i]) && HandlesOk(records[i]))
    && (forall i, j :: 0 <= i < j < |records| ==> records[i].tag != records[j].tag)
  }

  /** The values of one entity, by index of their type in the registry. */
  type Values<C> = map<int, C>

  function InitialValues<C>(records: seq<Record<C>>): Values<C> {
    map i: int | 0 <= i < |records| && records[i].builtIn :: records[i].initial
  }

  /** Values an entity of this registry can have: known types only, and every built-in one. */
  ghost predicate ValuesOk<C>(records: seq<Record<C>>, vals: Values<C>) {
    && (forall i :: i in vals ==> 0 <= i < |records|)
    && (forall i :: 0 <= i < |records| && records[i].builtIn ==> i in vals)
  }

  function MapValues<C>(records: seq<Record<C>>, vals: Values<C>, f: Entity -> Entity): Values<C> {
    map i | i in vals && 0 <= i < |records| :: records[i].mapRefs(vals[i], f)
  }

  function BareValues<C>(records: seq<Record<C>>, vals: Values<C>): Values<C> {
    map i | i in vals && 0 <= i < |records| :: records[i].bare(vals[i])
  }

  // ----- References in rows -----

  /** What the writer puts for a reference: the row of a listed entity, nothing for any other. */
  function WriterRef(rows: map<Entity, nat>, e: Entity): Entity {
    if !e.Valid() then e else if e in rows then Entity(rows[e], 0) else NONE
  }

  /** What the reader puts for a row: its entity, or nothing past the last row. */
  function ReaderRef(list: seq<Entity>, e: Entity): Entity {
    if !e.Valid() then e else if e.index < |list| then list[e.index] else NONE
  }

  ghost predicate BadRefs<C>(records: seq<Record<C>>, vals: Values<C>, count: nat) {
    exists i, k :: i in vals && 0 <= i < |records| && 0 <= k < |records[i].refs(vals[i])|
                   && records[i].refs(vals[i])[k].Valid() && records[i].refs(vals[i])[k].index >= count
  }

  /** A value names a row past the last. */
  predicate BadValue<C>(r: Record<C>, c: C, count: nat) {
    exists k :: 0 <= k < |r.refs(c)| && r.refs(c)[k].Valid() && r.refs(c)[k].index >= count
  }

  // ----- Visiting every value -----

  /** The values with those of the first `n` types changed. */
  function ChangedFirst<C>(records: seq<Record<C>>, vals: Values<C>, change: (int, C) -> C, n: nat): Values<C> {
    map i | i in vals && 0 <= i < |records| :: if i < n then change(i, vals[i]) else vals[i]
  }

  function Changed<C>(records: seq<Record<C>>, vals: Values<C>, change: (int, C) -> C): Values<C> {
    map i | i in vals && 0 <= i < |records| :: change(i, vals[i])
  }

  ghost predicate SomeFirst<C>(vals: Values<C>, tells: (int, C) -> bool, n: nat) {
    exists i :: i in vals && 0 <= i < n && tells(i, vals[i])
  }

  lemma ChangesNone<C>(records: seq<Record<C>>, vals: Values<C>, change: (int, C) -> C, tells: (int, C) -> bool)
    requires ValuesOk(records, vals)
    ensures ChangedFirst(records, vals, change, 0) == vals && !SomeFirst(vals, tells, 0)
  {
  }

  lemma ChangesAll<C>(records: seq<Record<C>>, vals: Values<C>, change: (int, C) -> C)
    ensures ChangedFirst(records, vals, change, |records|) == Changed(records, vals, change)
  {
  }

  lemma ChangesNext<C>(records: seq<Record<C>>, vals: Values<C>, change: (int, C) -> C, tells: (int, C) -> bool, n: nat)
    requires ValuesOk(records, vals) && n < |records|
    ensures n !in vals ==> ChangedFirst(records, vals, change, n + 1) == ChangedFirst(records, vals, change, n)
    ensures n in vals ==> n in ChangedFirst(records, vals, change, n) && ChangedFirst(records, vals, change, n)[n] == vals[n]
    ensures n in vals ==> ChangedFirst(records, vals, change, n + 1) == ChangedFirst(records, vals, change, n)[n := change(n, vals[n])]
    ensures n in ChangedFirst(records, vals, change, n) <==> n in vals
    ensures SomeFirst(vals, tells, n + 1) <==> SomeFirst(vals, tells, n) || (n in vals && tells(n, vals[n]))
  {
    hide ChangedFirst;
    hide ValuesOk;
    hide SomeFirst;
    ChangedAt(records, vals, change, n);
    ChangedAt(records, vals, change, n + 1);
    SomeNext(vals, tells, n);
    var first, next := ChangedFirst(records, vals, change, n), ChangedFirst(records, vals, change, n + 1);
    if n in vals {
      assert next == first[n := change(n, vals[n])];
    } else {
      assert next == first;
    }
  }

  lemma ChangedAt<C>(records: seq<Record<C>>, vals: Values<C>, change: (int, C) -> C, n: nat)
    requires ValuesOk(records, vals)
    ensures ChangedFirst(records, vals, change, n).Keys == vals.Keys
    ensures forall i :: i in vals ==> ChangedFirst(records, vals, change, n)[i] == if i < n then change(i, vals[i]) else vals[i]
  {
  }

  lemma SomeNext<C>(vals: Values<C>, tells: (int, C) -> bool, n: nat)
    ensures SomeFirst(vals, tells, n + 1) <==> SomeFirst(vals, tells, n) || (n in vals && tells(n, vals[n]))
  {
  }

  /** Entity references replaced, as a change of values. */
  function Mapping<C>(records: seq<Record<C>>, f: Entity -> Entity): (int, C) -> C {
    (i, c) => if 0 <= i < |records| then records[i].mapRefs(c, f) else c
  }

  /** Handles of resources replaced, as a change of values. */
  function Filling<C>(records: seq<Record<C>>, handles: map<nat, Entity>): (int, C) -> C {
    (i, c) => if 0 <= i < |records| then records[i].fill(c, HandleIn(handles)) else c
  }

  function HandleIn(handles: map<nat, Entity>): nat -> Entity {
    id => if id in handles then handles[id] else NONE
  }

  function Misplaced<C>(records: seq<Record<C>>, count: nat): (int, C) -> bool {
    (i, c) => 0 <= i < |records| && BadValue(records[i], c, count)
  }

  lemma MappingMeans<C>(records: seq<Record<C>>, vals: Values<C>, f: Entity -> Entity, count: nat)
    ensures Changed(records, vals, Mapping(records, f)) == MapValues(records, vals, f)
    ensures SomeFirst(vals, Misplaced(records, count), |records|) <==> BadRefs(records, vals, count)
  {
    if BadRefs(records, vals, count) {
      var i, k :| i in vals && 0 <= i < |records| && 0 <= k < |records[i].refs(vals[i])|
                  && records[i].refs(vals[i])[k].Valid() && records[i].refs(vals[i])[k].index >= count;
      assert BadValue(records[i], vals[i], count);
      assert Misplaced(records, count)(i, vals[i]);
    }
  }

  /** Some value of the entity refers to the resource `id`. */
  ghost predicate RefersToAsset<C>(records: seq<Record<C>>, vals: Values<C>, id: nat) {
    SomeFirst(vals, Referring(records, id), |records|)
  }

  function Referring<C>(records: seq<Record<C>>, id: nat): (int, C) -> bool {
    (i, c) => 0 <= i < |records| && id in records[i].assets(c)
  }

  lemma ReferringMeans<C>(records: seq<Record<C>>, vals: Values<C>, id: nat)
    ensures RefersToAsset(records, vals, id) <==> SomeFirst(vals, Referring(records, id), |records|)
  {
  }

  /** Renaming entities leaves the resources referred to alone, and the null id is none of them. */
  lemma ReferringKept<C(!new)>(records: seq<Record<C>>, vals: Values<C>, f: Entity -> Entity, id: nat)
    requires RegistryOk(records)
    ensures RefersToAsset(records, MapValues(records, vals, f), id) <==> RefersToAsset(records, vals, id)
    ensures RefersToAsset(records, vals, id) ==> id != 0
  {
    var mapped := MapValues(records, vals, f);
    forall i | i in vals && 0 <= i < |records|
      ensures i in mapped && (Referring(records, id)(i, mapped[i]) <==> Referring(records, id)(i, vals[i]))
      ensures Referring(records, id)(i, vals[i]) ==> id != 0
    {
      AssetsKept(records[i], vals[i], f);
    }
  }

  lemma AssetsKept<C(!new)>(r: Record<C>, c: C, f: Entity -> Entity)
    requires RecordOk(r)
    ensures r.assets(r.mapRefs(c, f)) == r.assets(c) && 0 !in r.assets(c)
  {
  }

  /** Filling handles in leaves a type without references to resources alone. */
  lemma FillingNone<C(!new)>(records: seq<Record<C>>, i: nat, handles: map<nat, Entity>)
    requires RegistryOk(records) && i < |records| && HasNoAssets(records[i])
    ensures Leaves(Filling(records, handles), i)
  {
    forall c ensures Filling(records, handles)(i, c) == c {
      FillNothing(records[i], c, HandleIn(handles));
    }
  }

  lemma FillNothing<C(!new)>(r: Record<C>, c: C, h: nat -> Entity)
    requires RecordOk(r) && HasNoAssets(r)
    ensures r.fill(c, h) == c
  {
    assert r.assets(c) == [];
  }

  // ----- What a value refers to, after a change -----

  /** `c'` is `c` with `handles[id]` beside each id, and no handle beside an id that has none. */
  ghost predicate ValueFilled<C>(r: Record<C>, c: C, c': C, handles: map<nat, Entity>) {
    && SameButHandles(r, c, c') && |r.handles(c')| == |r.assets(c')|
    && forall k :: 0 <= k < |r.assets(c')| ==>
         r.handles(c')[k] == if r.assets(c')[k] in handles then handles[r.assets(c')[k]] else NONE
  }

  ghost predicate ValuesFilled<C>(records: seq<Record<C>>, vals: Values<C>, vals': Values<C>, handles: map<nat, Entity>) {
    && vals'.Keys == vals.Keys
    && forall i :: i in vals && i in vals' && 0 <= i < |records| ==> ValueFilled(records[i], vals[i], vals'[i], handles)
  }

  lemma FillingMeans<C(!new)>(records: seq<Record<C>>, vals: Values<C>, handles: map<nat, Entity>)
    requires RegistryOk(records) && ValuesOk(records, vals)
    ensures ValuesFilled(records, vals, Changed(records, vals, Filling(records, handles)), handles)
  {
    hide RecordOk;
    hide HandlesOk;
    hide ValueFilled;
    forall i | i in vals ensures ValueFilled(records[i], vals[i], records[i].fill(vals[i], HandleIn(handles)), handles) {
      FillMeans(records[i], vals[i], handles);
    }
  }

  lemma FillMeans<C(!new)>(r: Record<C>, c: C, handles: map<nat, Entity>)
    requires HandlesOk(r)
    ensures ValueFilled(r, c, r.fill(c, HandleIn(handles)), handles)
  {
    assert BesideIds(r, r.fill(c, HandleIn(handles)), HandleIn(handles));
  }

  /** `c'` is `c` read back: a reference to an entity of `from` leads to the one at its place in `to`, any other
      leads nowhere, and the resources are the same but without handles. */
  ghost predicate ValueRenamed<C>(r: Record<C>, c: C, c': C, from: seq<Entity>, to: seq<Entity>)
    requires |from| == |to|
  {
    && r.assets(c') == r.assets(c) && BesideIds(r, c', id => NONE) && |r.refs(c')| == |r.refs(c)|
    && (forall k, j :: 0 <= k < |r.refs(c)| && 0 <= j < |from| && r.refs(c)[k] == from[j] ==> r.refs(c')[k] == to[j])
    && (forall k :: 0 <= k < |r.refs(c)| && r.refs(c)[k] !in from ==> r.refs(c')[k] == NONE)
  }

  ghost predicate ValuesRenamed<C>(records: seq<Record<C>>, vals: Values<C>, vals': Values<C>, from: seq<Entity>, to: seq<Entity>)
    requires |from| == |to|
  {
    && vals'.Keys == vals.Keys
    && forall i :: i in vals && i in vals' && 0 <= i < |records| ==> ValueRenamed(records[i], vals[i], vals'[i], from, to)
  }

  lemma RenamingMeans<C(!new)>(records: seq<Record<C>>, vals: Values<C>, from: seq<Entity>, to: seq<Entity>)
    requires RegistryOk(records) && ValuesOk(records, vals) && |from| == |to|
    requires Distinct(from) && forall e :: e in from ==> e.Valid()
    ensures ValuesRenamed(records, vals, MapValues(records, BareValues(records, vals), Renaming(from, to)), from, to)
  {
    hide RecordOk;
    hide HandlesOk;
    hide ValueRenamed;
    hide Renaming;
    hide Distinct;
    forall i | i in vals
      ensures ValueRenamed(records[i], vals[i], records[i].mapRefs(records[i].bare(vals[i]), Renaming(from, to)), from, to)
    {
      RenameMeans(records[i], vals[i], from, to);
    }
  }

  lemma RenameMeans<C(!new)>(r: Record<C>, c: C, from: seq<Entity>, to: seq<Entity>)
    requires RecordOk(r) && HandlesOk(r) && |from| == |to|
    requires Distinct(from) && forall e :: e in from ==> e.Valid()
    ensures ValueRenamed(r, c, r.mapRefs(r.bare(c), Renaming(from, to)), from, to)
  {
    hide RecordOk;
    hide HandlesOk;
    var b, f := r.bare(c), Renaming(from, to);
    BareMeans(r, c);
    MapMeans(r, b, f);
    forall j | 0 <= j < |from| ensures from[j] in from && f(from[j]) == to[j] {
      IndexOfDistinct(from, j);
    }
  }

  lemma BareMeans<C(!new)>(r: Record<C>, c: C)
    requires HandlesOk(r)
    ensures BesideIds(r, r.bare(c), id => NONE) && SameButHandles(r, c, r.bare(c))
  {
  }

  lemma MapMeans<C(!new)>(r: Record<C>, c: C, f: Entity -> Entity)
    requires RecordOk(r) && HandlesOk(r)
    ensures r.assets(r.mapRefs(c, f)) == r.assets(c) && r.handles(r.mapRefs(c, f)) == r.handles(c)
    ensures |r.refs(r.mapRefs(c, f))| == |r.refs(c)|
    ensures forall k :: 0 <= k < |r.refs(c)| ==> r.refs(r.mapRefs(c, f))[k] == f(r.refs(c)[k])
  {
  }

  /** `c'` is `c` with every row number replaced by the entity of that row; null references stay null. */
  ghost predicate ValueResolved<C>(r: Record<C>, c: C, c': C, list: seq<Entity>) {
    && r.assets(c') == r.assets(c) && r.handles(c') == r.handles(c) && |r.refs(c')| == |r.refs(c)|
    && forall k :: 0 <= k < |r.refs(c)| ==>
         if r.refs(c)[k].Valid() then r.refs(c)[k].index < |list| && r.refs(c')[k] == list[r.refs(c)[k].index]
         else r.refs(c')[k] == r.refs(c)[k]
  }

  ghost predicate ValuesResolved<C>(records: seq<Record<C>>, vals: Values<C>, vals': Values<C>, list: seq<Entity>) {
    && vals'.Keys == vals.Keys
    && forall i :: i in vals && i in vals' && 0 <= i < |records| ==> ValueResolved(records[i], vals[i], vals'[i], list)
  }

  lemma ReadingMeans<C(!new)>(records: seq<Record<C>>, vals: Values<C>, list: seq<Entity>)
    requires RegistryOk(records) && (forall i :: i in vals ==> 0 <= i < |records|) && !BadRefs(records, vals, |list|)
    ensures ValuesResolved(records, vals, MapValues(records, vals, Reading(list)), list)
  {
    hide RecordOk;
    hide HandlesOk;
    forall i | i in vals ensures ValueResolved(records[i], vals[i], records[i].mapRefs(vals[i], Reading(list)), list) {
      MapMeans(records[i], vals[i], Reading(list));
    }
  }

  /** The change leaves the values of type `i` as they are. */
  ghost predicate Leaves<C(!new)>(change: (int, C) -> C, i: nat) {
    forall c :: change(i, c) == c
  }

  lemma LeavesMeans<C(!new)>(change: (int, C) -> C, i: nat, c: C)
    requires Leaves(change, i)
    ensures change(i, c) == c
  {
  }

  lemma NoneReferring<C>(records: seq<Record<C>>, vals: Values<C>, id: nat)
    ensures !SomeFirst(vals, Referring(records, id), 0)
  {
  }

  lemma NextReferring<C>(records: seq<Record<C>>, vals: Values<C>, id: nat, n: nat)
    requires n < |records|
    ensures SomeFirst(vals, Referring(records, id), n + 1) <==>
            SomeFirst(vals, Referring(records, id), n) || (n in vals && id in records[n].assets(vals[n]))
  {
  }

  /** The counterpart of a listed entity in another list, and nothing for any other reference. */
  function Counterpart(from: seq<Entity>, to: seq<Entity>, e: Entity): Entity
    requires |from| == |to|
  {
    if e.Valid() && e in from then to[IndexOf(from, e)] else NONE
  }

  function RowMap(list: seq<Entity>): map<Entity, nat> {
    map e | e in list :: IndexOf(list, e)
  }

  function Writing(rows: map<Entity, nat>): Entity -> Entity {
    e => WriterRef(rows, e)
  }

  function Reading(list: seq<Entity>): Entity -> Entity {
    e => ReaderRef(list, e)
  }

  function Renaming(from: seq<Entity>, to: seq<Entity>): Entity -> Entity
    requires |from| == |to|
  {
    e => Counterpart(from, to, e)
  }

  lemma RowMapEmpty()
    ensures RowMap([]) == map[]
  {
  }

  lemma RowMapPush(list: seq<Entity>, i: nat)
    requires Distinct(list) && i < |list|
    ensures RowMap(list[..i + 1]) == RowMap(list[..i])[list[i] := i]
  {
    assert list[..i + 1][..i] == list[..i];
    forall e | e in list[..i + 1]
      ensures IndexOf(list[..i + 1], e) == if e == list[i] then i else IndexOf(list[..i], e)
    {
      var k :| 0 <= k < i + 1 && list[..i + 1][k] == e;
      IndexOfDistinct(list[..i + 1], k);
      if k < i {
        assert list[..i][k] == e;
        IndexOfDistinct(list[..i], k);
      }
    }
  }

  lemma RefRoundTrip(from: seq<Entity>, to: seq<Entity>, e: Entity)
    requires |from| == |to| <= NULL_INDEX
    ensures Counterpart(from, to, e) == ReaderRef(to, StoredRef(WriterRef(RowMap(from), e)))
    ensures var stored := StoredRef(WriterRef(RowMap(from), e)); stored.Valid() ==> stored.index < |to|
  {
  }

  // ----- Blocks -----

  datatype Block = Block(tag: nat, payload: seq<Byte>)

  /** The blocks of an entity: one for each of the first `n` types it has, in registry order. */
  function BlocksOf<C>(records: seq<Record<C>>, vals: Values<C>, f: Entity -> Entity, n: nat): seq<Block>
    requires n <= |records|
  {
    if n == 0 then [] else
    BlocksOf(records, vals, f, n - 1)
    + if n - 1 in vals then [Block(records[n - 1].tag, records[n - 1].encode(records[n - 1].mapRefs(vals[n - 1], f)))] else []
  }

  function FindRecord<C>(records: seq<Record<C>>, tag: nat): (found: Option<nat>)
    ensures found.Some? ==> found.value < |records| && records[found.value].tag == tag
    ensures found.None? ==> forall i :: 0 <= i < |records| ==> records[i].tag != tag
  {
    if records == [] then None
    else if records[|records| - 1].tag == tag then Some(|records| - 1)
    else FindRecord(records[..|records| - 1], tag)
  }

  /** One block read: a block of an unknown type or with unreadable bytes is skipped. */
  function ApplyBlock<C>(records: seq<Record<C>>, vals: Values<C>, block: Block): Values<C> {
    var found := FindRecord(records, block.tag);
    if found.None? then vals else
    var value := records[found.value].decode(block.payload);
    if value.None? then vals else vals[found.value := value.value]
  }

  function ApplyBlocks<C>(records: seq<Record<C>>, vals: Values<C>, blocks: seq<Block>): Values<C> {
    if blocks == [] then vals
    else ApplyBlock(records, ApplyBlocks(records, vals, blocks[..|blocks| - 1]), blocks[|blocks| - 1])
  }

  lemma ApplyNone<C>(records: seq<Record<C>>, vals: Values<C>)
    ensures ApplyBlocks(records, vals, []) == vals
  {
  }

  lemma ApplyMore<C>(records: seq<Record<C>>, vals: Values<C>, blocks: seq<Block>, block: Block)
    ensures ApplyBlocks(records, vals, blocks + [block]) == ApplyBlock(records, ApplyBlocks(records, vals, blocks), block)
  {
    assert (blocks + [block])[..|blocks|] == blocks;
  }

  /** What comes back of a value written with its references replaced. */
  function StoredValue<C>(r: Record<C>, c: C, f: Entity -> Entity): C {
    r.mapRefs(r.mapRefs(r.bare(c), f), StoredRef)
  }

  /** What reading back the blocks of the first `n` types leaves: their stored values, and the
      initial values of the built-in types after them. */
  function ReadBack<C>(records: seq<Record<C>>, vals: Values<C>, f: Entity -> Entity, n: nat): Values<C>
    requires n <= |records|
  {
    map i: int | 0 <= i < |records| && (if i < n then i in vals else records[i].builtIn) ::
      if i < n then StoredValue(records[i], vals[i], f) else records[i].initial
  }

  lemma {:induction false} BlocksReadBack<C(!new)>(records: seq<Record<C>>, vals: Values<C>, f: Entity -> Entity, n: nat)
    requires RegistryOk(records) && ValuesOk(records, vals) && n <= |records|
    ensures ApplyBlocks(records, InitialValues(records), BlocksOf(records, vals, f, n)) == ReadBack(records, vals, f, n)
  {
    hide *;
    OneMoreBlock(records, vals, f, n);
    ApplyNone(records, InitialValues(records));
    if n == 0 {
      NothingReadBack(records, vals, f);
    } else {
      BlocksReadBack(records, vals, f, n - 1);
      if n - 1 in vals {
        BlockReadBack(records, vals, f, n - 1);
        ApplyMore(records, InitialValues(records), BlocksOf(records, vals, f, n - 1),
                  Block(records[n - 1].tag, records[n - 1].encode(records[n - 1].mapRefs(vals[n - 1], f))));
      } else {
        AbsentReadBack(records, vals, f, n - 1);
      }
    }
  }

  lemma OneMoreBlock<C>(records: seq<Record<C>>, vals: Values<C>, f: Entity -> Entity, n: nat)
    requires n <= |records|
    ensures n == 0 ==> BlocksOf(records, vals, f, n) == []
    ensures n > 0 && n - 1 !in vals ==> BlocksOf(records, vals, f, n) == BlocksOf(records, vals, f, n - 1)
    ensures n > 0 && n - 1 in vals ==>
              BlocksOf(records, vals, f, n) == BlocksOf(records, vals, f, n - 1)
              + [Block(records[n - 1].tag, records[n - 1].encode(records[n - 1].mapRefs(vals[n - 1], f)))]
  {
  }

  lemma NothingReadBack<C>(records: seq<Record<C>>, vals: Values<C>, f: Entity -> Entity)
    ensures ReadBack(records, vals, f, 0) == InitialValues(records)
  {
  }

  lemma AbsentReadBack<C>(records: seq<Record<C>>, vals: Values<C>, f: Entity -> Entity, i: nat)
    requires ValuesOk(records, vals) && i < |records| && i !in vals
    ensures ReadBack(records, vals, f, i + 1) == ReadBack(records, vals, f, i)
  {
    hide StoredValue;
  }

  lemma FindUnique<C(!new)>(records: seq<Record<C>>, i: nat)
    requires RegistryOk(records) && i < |records|
    ensures FindRecord(records, records[i].tag) == Some(i)
  {
    assert FindRecord(records, records[i].tag).Some?;
  }

  lemma BlockReadBack<C(!new)>(records: seq<Record<C>>, vals: Values<C>, f: Entity -> Entity, i: nat)
    requires RegistryOk(records) && ValuesOk(records, vals) && i < |records| && i in vals
    ensures var block := Block(records[i].tag, records[i].encode(records[i].mapRefs(vals[i], f)));
            ApplyBlock(records, ReadBack(records, vals, f, i), block) == ReadBack(records, vals, f, i + 1)
  {
    hide FindRecord;
    hide RecordOk;
    hide StoredValue;
    hide ReadBack;
    FindUnique(records, i);
    DecodesBack(records[i], vals[i], f);
    NextReadBack(records, vals, f, i);
  }

  lemma DecodesBack<C(!new)>(r: Record<C>, c: C, f: Entity -> Entity)
    requires RecordOk(r)
    ensures r.decode(r.encode(r.mapRefs(c, f))) == Some(StoredValue(r, c, f))
  {
    assert r.decode(r.encode(r.mapRefs(c, f))) == Some(r.mapRefs(r.bare(r.mapRefs(c, f)), StoredRef));
  }

  lemma NextReadBack<C>(records: seq<Record<C>>, vals: Values<C>, f: Entity -> Entity, i: nat)
    requires i < |records| && i in vals
    ensures ReadBack(records, vals, f, i)[i := StoredValue(records[i], vals[i], f)] ==
            ReadBack(records, vals, f, i + 1)
  {
    hide StoredValue;
  }

  /** Written out by rows, read back, and resolved to the new entities, every value is the old one with each
      entity reference replaced by its counterpart and no handles of resources, and no reference is out of range. */
  lemma ValuesRoundTrip<C(!new)>(records: seq<Record<C>>, vals: Values<C>, from: seq<Entity>, to: seq<Entity>)
    requires RegistryOk(records) && ValuesOk(records, vals) && |from| == |to| <= NULL_INDEX
    ensures var written := BlocksOf(records, vals, Writing(RowMap(from)), |records|);
            var stored := ApplyBlocks(records, InitialValues(records), written);
            && MapValues(records, stored, Reading(to)) == MapValues(records, BareValues(records, vals), Renaming(from, to))
            && !BadRefs(records, stored, |to|)
  {
    hide BlocksOf;
    hide ApplyBlocks;
    hide RecordOk;
    hide BadRefs;
    BlocksReadBack(records, vals, Writing(RowMap(from)), |records|);
    StoredRenames(records, vals, from, to);
    StoredRefsInRange(records, vals, from, to);
  }

  lemma RecordAt<C(!new)>(records: seq<Record<C>>, i: nat)
    requires RegistryOk(records) && i < |records|
    ensures RecordOk(records[i])
  {
    hide RecordOk;
  }

  lemma StoredIs<C>(r: Record<C>, c: C, f: Entity -> Entity)
    ensures StoredValue(r, c, f) == r.mapRefs(r.mapRefs(r.bare(c), f), StoredRef)
  {
  }

  lemma StoredRenames<C(!new)>(records: seq<Record<C>>, vals: Values<C>, from: seq<Entity>, to: seq<Entity>)
    requires RegistryOk(records) && ValuesOk(records, vals) && |from| == |to| <= NULL_INDEX
    ensures MapValues(records, ReadBack(records, vals, Writing(RowMap(from)), |records|), Reading(to)) ==
            MapValues(records, BareValues(records, vals), Renaming(from, to))
  {
    hide RecordOk;
    hide StoredValue;
    hide Writing;
    hide Reading;
    hide Renaming;
    hide RowMap;
    hide RegistryOk;
    var stored := ReadBack(records, vals, Writing(RowMap(from)), |records|);
    forall i | i in stored
      ensures records[i].mapRefs(stored[i], Reading(to)) == records[i].mapRefs(records[i].bare(vals[i]), Renaming(from, to))
    {
      RecordAt(records, i);
      StoredIs(records[i], vals[i], Writing(RowMap(from)));
      ValueRoundTrip(records[i], records[i].bare(vals[i]), from, to);
    }
  }

  lemma StoredRefsInRange<C(!new)>(records: seq<Record<C>>, vals: Values<C>, from: seq<Entity>, to: seq<Entity>)
    requires RegistryOk(records) && ValuesOk(records, vals) && |from| == |to| <= NULL_INDEX
    ensures !BadRefs(records, ReadBack(records, vals, Writing(RowMap(from)), |records|), |to|)
  {
    hide RecordOk;
    var stored := ReadBack(records, vals, Writing(RowMap(from)), |records|);
    forall i, k: nat | i in stored && 0 <= i < |records| && k < |records[i].refs(stored[i])|
      ensures records[i].refs(stored[i])[k].Valid() ==> records[i].refs(stored[i])[k].index < |to|
    {
      RefsInRange(records[i], records[i].bare(vals[i]), from, to, k);
    }
  }

  lemma ValueRoundTrip<C(!new)>(r: Record<C>, c: C, from: seq<Entity>, to: seq<Entity>)
    requires RecordOk(r) && |from| == |to| <= NULL_INDEX
    ensures r.mapRefs(r.mapRefs(r.mapRefs(c, Writing(RowMap(from))), StoredRef), Reading(to)) ==
            r.mapRefs(c, Renaming(from, to))
  {
    hide RecordOk;
    var f, g, h := Writing(RowMap(from)), Reading(to), Renaming(from, to);
    var fs := e => StoredRef(WriterRef(RowMap(from), e));
    MapTwice(r, c, f, StoredRef, fs);
    forall e ensures h(e) == g(fs(e)) {
      RefRoundTrip(from, to, e);
    }
    MapTwice(r, c, fs, g, h);
  }

  lemma MapTwice<C(!new)>(r: Record<C>, c: C, f: Entity -> Entity, g: Entity -> Entity, h: Entity -> Entity)
    requires RecordOk(r) && forall e :: h(e) == g(f(e))
    ensures r.mapRefs(r.mapRefs(c, f), g) == r.mapRefs(c, h)
  {
  }

  lemma RefsInRange<C(!new)>(r: Record<C>, c: C, from: seq<Entity>, to: seq<Entity>, k: nat)
    requires RecordOk(r) && |from| == |to| <= NULL_INDEX
    requires k < |r.refs(r.mapRefs(r.mapRefs(c, Writing(RowMap(from))), StoredRef))|
    ensures var ref := r.refs(r.mapRefs(r.mapRefs(c, Writing(RowMap(from))), StoredRef))[k];
            ref.Valid() ==> ref.index < |to|
  {
    var f := Writing(RowMap(from));
    var e := r.refs(c)[k];
    assert r.refs(r.mapRefs(c, f))[k] == f(e);
    RefRoundTrip(from, to, e);
  }
}
