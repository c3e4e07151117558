/** Scene files: a scene written out as bytes, and bytes read back into an empty scene. */
module SceneAssets {
  import opened Entities
  import opened Sequences
  import opened Forests
  import opened GeometryModule
  import opened Wrappers
  import opened Worlds
  import opened BreadthFirst
  import opened Components
  import opened Rebuild
  import opened Scenes
  import Links
  import opened EntitySlotsModule
  import opened SceneFiles
  import opened Serialization

  /** A row's parent field, and the index it stands for (-1 for none). */
  function ParentField(parent: int): nat
    requires -1 <= parent
  {
    if parent == -1 then NO_PARENT else parent
  }

  function ParentIndex(field: nat): int {
    if field == NO_PARENT then -1 else field
  }

  function ParentsOf(rows: seq<Row>): seq<int> {
    seq(|rows|, i requires 0 <= i < |rows| => ParentIndex(rows[i].parent))
  }

  /** The values row `i` alone yields, its references still row numbers. */
  function RowValues<C>(records: seq<Record<C>>, row: Row): Values<C> {
    ApplyBlocks(records, InitialValues(records), row.blocks)
  }

  /** Which rows can be read: each in its place and below an earlier one, and no reference past the last. */
  ghost predicate Readable<C>(records: seq<Record<C>>, rows: seq<Row>) {
    && (forall i :: 0 <= i < |rows| ==> InPlace(rows[i].id, rows[i].parent, i))
    && (forall i :: 0 <= i < |rows| ==> !BadRefs(records, RowValues(records, rows[i]), |rows|))
  }

  /** `rows` describe the forest `f`, listed breadth first, and the values of its entities. */
  ghost predicate Described<C>(records: seq<Record<C>>, f: Forest, vals: map<Entity, Values<C>>, rows: seq<Row>,
                               roots: seq<Entity>, list: seq<Entity>, parents: seq<int>)
    requires WellFormed(f)
  {
    && BfsAt(f, roots, list, parents, |list|) && |rows| == |list| == |parents|
    && (forall x :: x in roots ==> x in f.parent && f.parent[x] == NONE)
    && (forall x :: x in f.parent <==> x in list)
    && (forall i {:trigger RowDescribed(records, vals, rows, list, parents, i)} :: 0 <= i < |list| ==>
          RowDescribed(records, vals, rows, list, parents, i))
  }

  ghost predicate RowDescribed<C>(records: seq<Record<C>>, vals: map<Entity, Values<C>>, rows: seq<Row>,
                                  list: seq<Entity>, parents: seq<int>, i: nat)
    requires i < |rows| && i < |list| == |parents|
  {
    && -1 <= parents[i] < i && list[i] in vals
    && rows[i] == Row(i, ParentField(parents[i]), BlocksOf(records, vals[list[i]], Writing(RowMap(list)), |records|))
  }

  /** `f` and `vals` are what `rows` say, with `list` naming the entity of each row. */
  ghost predicate Rebuilt<C>(records: seq<Record<C>>, f: Forest, vals: map<Entity, Values<C>>, rows: seq<Row>, list: seq<Entity>)
  {
    && |list| == |rows| && Built(f, list, ParentsOf(rows))
    && (forall i {:trigger list[i]} :: 0 <= i < |list| ==>
          list[i] in vals && vals[list[i]] == MapValues(records, RowValues(records, rows[i]), Reading(list)))
  }

  /** Each entity has the values of its row, every row number in them replaced by the entity of that row. */
  ghost predicate RowsResolved<C>(records: seq<Record<C>>, vals: map<Entity, Values<C>>, rows: seq<Row>, list: seq<Entity>) {
    && |list| == |rows|
    && forall i {:trigger list[i]} :: 0 <= i < |list| ==>
         list[i] in vals && ValuesResolved(records, RowValues(records, rows[i]), vals[list[i]], list)
  }

  lemma RebuiltResolved<C(!new)>(records: seq<Record<C>>, f: Forest, vals: map<Entity, Values<C>>, rows: seq<Row>, list: seq<Entity>)
    requires RegistryOk(records) && Readable(records, rows) && Rebuilt(records, f, vals, rows, list)
    ensures RowsResolved(records, vals, rows, list)
  {
    hide RegistryOk;
    hide BadRefs;
    hide Built;
    hide MapValues;
    hide ValuesResolved;
    forall i | 0 <= i < |list| ensures ValuesResolved(records, RowValues(records, rows[i]), vals[list[i]], list) {
      RowTypes(records, rows[i].blocks);
      ReadingMeans(records, RowValues(records, rows[i]), list);
    }
  }

  /** A row yields values of known types only. */
  lemma {:induction false} RowTypes<C>(records: seq<Record<C>>, blocks: seq<Block>)
    ensures forall i :: i in ApplyBlocks(records, InitialValues(records), blocks) ==> 0 <= i < |records|
  {
    if blocks != [] {
      RowTypes(records, blocks[..|blocks| - 1]);
    }
  }

  /** The round trip: rows written from one scene can always be read, and what they are read into mirrors that
      scene: the same forest entity by entity, and the same values with every entity reference replaced by the
      counterpart of the entity it named, or by nothing if it named none, and no handles of resources. */
  lemma RoundTrip<C(!new)>(records: seq<Record<C>>, f0: Forest, vals0: map<Entity, Values<C>>, rows: seq<Row>,
                           roots: seq<Entity>, from: seq<Entity>, parents: seq<int>,
                           f1: Forest, vals1: map<Entity, Values<C>>, to: seq<Entity>)
    requires RegistryOk(records) && WellFormed(f0) && |from| < NO_PARENT
    requires forall e :: e in vals0 ==> ValuesOk(records, vals0[e])
    requires Described(records, f0, vals0, rows, roots, from, parents)
    requires Rebuilt(records, f1, vals1, rows, to)
    ensures Isomorphic(f0, from, f1, to)
    ensures forall i :: 0 <= i < |from| ==>
              from[i] in vals0 && to[i] in vals1
              && vals1[to[i]] == MapValues(records, BareValues(records, vals0[from[i]]), Renaming(from, to))
              && ValuesRenamed(records, vals0[from[i]], vals1[to[i]], from, to)
  {
    hide WellFormed;
    hide RegistryOk;
    hide BfsAt;
    hide BuiltRow;
    hide ValuesRenamed;
    hide MapValues;
    hide Isomorphic;
    ListedAreValid(f0, roots, from, parents);
    WrittenParents(records, f0, vals0, rows, roots, from, parents);
    RebuiltIsIsomorphic(f0, roots, from, f1, to, parents);
    forall i | 0 <= i < |from|
      ensures from[i] in vals0 && to[i] in vals1
      ensures vals1[to[i]] == MapValues(records, BareValues(records, vals0[from[i]]), Renaming(from, to))
      ensures ValuesRenamed(records, vals0[from[i]], vals1[to[i]], from, to)
    {
      assert RowDescribed(records, vals0, rows, from, parents, i);
      ValuesRoundTrip(records, vals0[from[i]], from, to);
      RenamingMeans(records, vals0[from[i]], from, to);
    }
  }

  lemma ListedAreValid(f: Forest, roots: seq<Entity>, list: seq<Entity>, parents: seq<int>)
    requires WellFormed(f) && BfsAt(f, roots, list, parents, |list|) && forall x :: x in list ==> x in f.parent
    ensures Distinct(list) && forall e :: e in list ==> e.Valid()
  {
    hide BfsAt;
    BfsDistinct(f, roots, list, parents, |list|);
  }

  lemma WrittenParents<C(!new)>(records: seq<Record<C>>, f: Forest, vals: map<Entity, Values<C>>, rows: seq<Row>,
                                roots: seq<Entity>, list: seq<Entity>, parents: seq<int>)
    requires WellFormed(f) && |list| < NO_PARENT && Described(records, f, vals, rows, roots, list, parents)
    ensures |parents| == |rows| && ParentsOf(rows) == parents
  {
    hide WellFormed;
    forall i | 0 <= i < |rows| ensures ParentsOf(rows)[i] == parents[i] {
      assert RowDescribed(records, vals, rows, list, parents, i);
    }
  }

  /** Rows that were written are always readable: no reader check fires on them. */
  lemma WrittenIsReadable<C(!new)>(records: seq<Record<C>>, f: Forest, vals: map<Entity, Values<C>>, rows: seq<Row>,
                                   roots: seq<Entity>, list: seq<Entity>, parents: seq<int>)
    requires RegistryOk(records) && WellFormed(f) && |list| < NO_PARENT
    requires forall e :: e in vals ==> ValuesOk(records, vals[e])
    requires Described(records, f, vals, rows, roots, list, parents)
    ensures Readable(records, rows)
  {
    hide WellFormed;
    hide RegistryOk;
    hide BfsAt;
    forall i | 0 <= i < |rows|
      ensures InPlace(rows[i].id, rows[i].parent, i) && !BadRefs(records, RowValues(records, rows[i]), |rows|)
    {
      assert RowDescribed(records, vals, rows, list, parents, i);
      ValuesRoundTrip(records, vals[list[i]], list, list);
    }
  }

  /** The values of `e`, with its local transform values at their place among them. */
  function ValuesOf<C, M>(values: map<Entity, Values<C>>, t: Transforms<C, M>, transform: nat, e: Entity): Values<C>
    requires e in values && e in t
  {
    values[e][transform := t[e].local]
  }

  ghost function Merged<C, M>(values: map<Entity, Values<C>>, t: Transforms<C, M>, transform: nat): map<Entity, Values<C>> {
    map e | e in values && e in t :: ValuesOf(values, t, transform, e)
  }

  ghost predicate StoreOk<C, M>(records: seq<Record<C>>, values: map<Entity, Values<C>>, t: Transforms<C, M>, transform: nat) {
    && transform < |records| && records[transform].builtIn
    && values.Keys == t.Keys
    && (forall e :: e in values && e in t ==> ValuesOk(records, ValuesOf(values, t, transform, e)))
  }

  /** Giving one entity new values, and leaving the values of the others alone. */
  lemma StoreChange<C, M>(records: seq<Record<C>>, values: map<Entity, Values<C>>, t: Transforms<C, M>,
                          values': map<Entity, Values<C>>, t': Transforms<C, M>, transform: nat, e: Entity, vals: Values<C>)
    requires StoreOk(records, values, t, transform) && ValuesOk(records, vals)
    requires values'.Keys == t'.Keys == values.Keys + {e}
    requires ValuesOf(values', t', transform, e) == vals
    requires forall x :: x in values && x in t && x in values' && x in t' && x != e ==>
               ValuesOf(values', t', transform, x) == ValuesOf(values, t, transform, x)
    ensures StoreOk(records, values', t', transform)
    ensures Merged(values', t', transform) == Merged(values, t, transform)[e := vals]
  {
    hide ValuesOf;
    hide ValuesOk;
  }

  lemma StillOk<C, M>(records: seq<Record<C>>, values: map<Entity, Values<C>>, t: Transforms<C, M>, transform: nat, e: Entity,
                   i: nat, value: C)
    requires StoreOk(records, values, t, transform) && e in values && i < |records|
    ensures e in t && e in Merged(values, t, transform)
    ensures Merged(values, t, transform)[e] == ValuesOf(values, t, transform, e)
    ensures values.Keys == t.Keys == values.Keys + {e}
    ensures ValuesOk(records, ValuesOf(values, t, transform, e)[i := value])
  {
  }

  lemma StoreSetLocal<C, M>(records: seq<Record<C>>, values: map<Entity, Values<C>>, t: Transforms<C, M>, transform: nat,
                            e: Entity, value: C)
    requires StoreOk(records, values, t, transform) && e in values && e in t && transform < |records|
    ensures e in Merged(values, t, transform)
    ensures var t' := t[e := t[e].(local := value)]; var all := Merged(values, t, transform);
            && StoreOk(records, values, t', transform)
            && Merged(values, t', transform) == all[e := all[e][transform := value]]
  {
    hide StoreOk;
    hide Merged;
    hide ValuesOk;
    var t' := t[e := t[e].(local := value)];
    StillOk(records, values, t, transform, e, transform, value);
    StoreChange(records, values, t, values, t', transform, e, ValuesOf(values, t, transform, e)[transform := value]);
  }

  lemma StoreSetValue<C, M>(records: seq<Record<C>>, values: map<Entity, Values<C>>, t: Transforms<C, M>, transform: nat,
                            e: Entity, i: nat, value: C)
    requires StoreOk(records, values, t, transform) && e in values && i < |records| && i != transform
    ensures e in Merged(values, t, transform)
    ensures var values' := values[e := values[e][i := value]]; var all := Merged(values, t, transform);
            && StoreOk(records, values', t, transform)
            && Merged(values', t, transform) == all[e := all[e][i := value]]
  {
    hide StoreOk;
    hide Merged;
    hide ValuesOk;
    var values' := values[e := values[e][i := value]];
    StillOk(records, values, t, transform, e, i, value);
    assert ValuesOf(values', t, transform, e) == ValuesOf(values, t, transform, e)[i := value];
    StoreChange(records, values, t, values', t, transform, e, ValuesOf(values, t, transform, e)[i := value]);
  }

  lemma StoreCreate<C, M>(records: seq<Record<C>>, values: map<Entity, Values<C>>, t: Transforms<C, M>, transform: nat,
                          e: Entity, world: World<C, M>)
    requires StoreOk(records, values, t, transform) && transform < |records| && records[transform].builtIn
    ensures var values' := values[e := InitialValues(records)];
            var t' := t[e := Transform(records[transform].initial, world)];
            && StoreOk(records, values', t', transform)
            && Merged(values', t', transform) == Merged(values, t, transform)[e := InitialValues(records)]
  {
    hide *;
    var values' := values[e := InitialValues(records)];
    var t' := t[e := Transform(records[transform].initial, world)];
    MergedKeys(records, values, t, transform);
    InitialIs(records, values', t', transform, e);
    forall x | x in values && x in t && x != e
      ensures ValuesOf(values', t', transform, x) == ValuesOf(values, t, transform, x)
    {
      SameValues(values, t, values', t', transform, x);
    }
    StoreChange(records, values, t, values', t', transform, e, InitialValues(records));
  }

  lemma InitialIs<C, M>(records: seq<Record<C>>, values: map<Entity, Values<C>>, t: Transforms<C, M>, transform: nat, e: Entity)
    requires transform < |records| && records[transform].builtIn && e in values && e in t
    requires values[e] == InitialValues(records) && t[e].local == records[transform].initial
    ensures ValuesOf(values, t, transform, e) == InitialValues(records) && ValuesOk(records, InitialValues(records))
  {
  }

  lemma SameValues<C, M>(values: map<Entity, Values<C>>, t: Transforms<C, M>, values': map<Entity, Values<C>>, t': Transforms<C, M>,
                         transform: nat, x: Entity)
    requires x in values && x in t && x in values' && x in t' && values'[x] == values[x] && t'[x] == t[x]
    ensures ValuesOf(values', t', transform, x) == ValuesOf(values, t, transform, x)
  {
  }

  lemma MergedKeys<C, M>(records: seq<Record<C>>, values: map<Entity, Values<C>>, t: Transforms<C, M>, transform: nat)
    requires StoreOk(records, values, t, transform)
    ensures values.Keys == t.Keys == Merged(values, t, transform).Keys && transform < |records|
    ensures forall e :: e in Merged(values, t, transform) ==> ValuesOk(records, Merged(values, t, transform)[e])
  {
  }

  lemma MergedAt<C, M>(records: seq<Record<C>>, values: map<Entity, Values<C>>, t: Transforms<C, M>, transform: nat, e: Entity)
    requires StoreOk(records, values, t, transform) && e in values
    ensures e in t && e in Merged(values, t, transform)
    ensures Merged(values, t, transform)[e] == ValuesOf(values, t, transform, e)
    ensures ValuesOk(records, ValuesOf(values, t, transform, e))
  {
  }

  lemma StoreRecord<C, M>(records: seq<Record<C>>, values: map<Entity, Values<C>>, t: Transforms<C, M>, transform: nat)
    requires StoreOk(records, values, t, transform)
    ensures transform < |records| && records[transform].builtIn
  {
  }

  /** The local values decide what the store holds; the cached worlds do not. */
  lemma StoreIgnoresWorlds<C, M>(records: seq<Record<C>>, values: map<Entity, Values<C>>, t: Transforms<C, M>, t': Transforms<C, M>,
                                 transform: nat)
    requires StoreOk(records, values, t, transform) && Locals(t) == Locals(t')
    ensures StoreOk(records, values, t', transform) && Merged(values, t', transform) == Merged(values, t, transform)
  {
    assert t.Keys == Locals(t).Keys == Locals(t').Keys == t'.Keys;
    forall x | x in values ensures ValuesOf(values, t', transform, x) == ValuesOf(values, t, transform, x) {
      assert Locals(t)[x] == t[x].local && Locals(t')[x] == t'[x].local;
    }
  }

  /** The rows that describe the listed entities. */
  ghost function DescribedRows<C>(records: seq<Record<C>>, vals: map<Entity, Values<C>>, list: seq<Entity>, parents: seq<int>)
    : (rows: seq<Row>)
    requires |list| == |parents| && forall i :: 0 <= i < |list| ==> -1 <= parents[i] < i && list[i] in vals
    ensures |rows| == |list|
  {
    seq(|list|, i requires 0 <= i < |list| => DescribedRow(records, vals, list, parents, i))
  }

  ghost function DescribedRow<C>(records: seq<Record<C>>, vals: map<Entity, Values<C>>, list: seq<Entity>, parents: seq<int>, i: nat): Row
    requires i < |list| == |parents| && -1 <= parents[i] && list[i] in vals
  {
    Row(i, ParentField(parents[i]), BlocksOf(records, vals[list[i]], Writing(RowMap(list)), |records|))
  }

  lemma DescribedBy<C>(records: seq<Record<C>>, f: Forest, vals: map<Entity, Values<C>>,
                       roots: seq<Entity>, list: seq<Entity>, parents: seq<int>)
    requires WellFormed(f) && BfsAt(f, roots, list, parents, |list|) && |list| == |parents|
    requires forall x :: x in roots ==> x in f.parent && f.parent[x] == NONE
    requires forall x :: x in f.parent <==> x in list
    requires forall i :: 0 <= i < |list| ==> -1 <= parents[i] < i && list[i] in vals
    ensures Described(records, f, vals, DescribedRows(records, vals, list, parents), roots, list, parents)
  {
    hide BlocksOf;
    hide BfsAt;
    var rows := DescribedRows(records, vals, list, parents);
    forall i | 0 <= i < |list| ensures RowDescribed(records, vals, rows, list, parents, i) {
      assert rows[i] == DescribedRow(records, vals, list, parents, i);
    }
  }

  // ----- What fits the file -----

  /** Component types whose tags and number fit their fields. */
  ghost predicate RegistryFits<C>(records: seq<Record<C>>) {
    |records| < Pow256(4) && forall i :: 0 <= i < |records| ==> records[i].tag < Pow256(8)
  }

  /** No payload exceeds the length of a block. */
  ghost predicate PayloadsFit(rows: seq<Row>) {
    forall i :: 0 <= i < |rows| ==> Small(rows[i].blocks)
  }

  ghost predicate Small(blocks: seq<Block>) {
    forall k :: 0 <= k < |blocks| ==> |blocks[k].payload| <= BLOB_MAX_COUNT
  }

  lemma {:induction false} BlocksMeasured<C>(records: seq<Record<C>>, vals: Values<C>, f: Entity -> Entity, n: nat, m: nat)
    requires n <= m <= |records| && RegistryFits(records)
    ensures BlocksOf(records, vals, f, n) <= BlocksOf(records, vals, f, m) && |BlocksOf(records, vals, f, m)| <= m
    ensures forall k :: 0 <= k < |BlocksOf(records, vals, f, m)| ==> BlocksOf(records, vals, f, m)[k].tag < Pow256(8)
  {
    hide Pow256;
    if n < m {
      BlocksMeasured(records, vals, f, n, m - 1);
    } else if 0 < m {
      BlocksMeasured(records, vals, f, m - 1, m - 1);
    }
  }

  lemma NoBlocks<C>(records: seq<Record<C>>, vals: Values<C>, f: Entity -> Entity)
    ensures BlocksOf(records, vals, f, 0) == [] && BlocksBytes([]) == [] && Small([])
  {
  }

  /** What the next type adds to the blocks of an entity and their bytes. */
  lemma NextBlock<C>(records: seq<Record<C>>, vals: Values<C>, f: Entity -> Entity, i: nat)
    requires i < |records| && RegistryFits(records)
    ensures i !in vals ==> BlocksOf(records, vals, f, i + 1) == BlocksOf(records, vals, f, i)
    ensures i in vals ==>
              var block := Block(records[i].tag, records[i].encode(records[i].mapRefs(vals[i], f)));
              var blocks, blocks' := BlocksOf(records, vals, f, i), BlocksOf(records, vals, f, i + 1);
              && |blocks'| == |blocks| + 1 && BlocksBytes(blocks') == BlocksBytes(blocks) + BlockBytes(block)
              && (Small(blocks') <==> Small(blocks) && |block.payload| <= BLOB_MAX_COUNT)
    ensures !Small(BlocksOf(records, vals, f, i + 1)) ==> !Small(BlocksOf(records, vals, f, |records|))
  {
    hide BlockBytes;
    hide BlocksBytes;
    hide Small;
    hide RegistryFits;
    BlocksMeasured(records, vals, f, i + 1, |records|);
    SmallPrefix(BlocksOf(records, vals, f, i + 1), BlocksOf(records, vals, f, |records|));
    if i in vals {
      var block := Block(records[i].tag, records[i].encode(records[i].mapRefs(vals[i], f)));
      assert BlocksOf(records, vals, f, i + 1) == BlocksOf(records, vals, f, i) + [block];
      BlockMore(BlocksOf(records, vals, f, i), block);
      SmallMore(BlocksOf(records, vals, f, i), block);
    }
  }

  lemma SmallMore(blocks: seq<Block>, block: Block)
    ensures Small(blocks + [block]) <==> Small(blocks) && |block.payload| <= BLOB_MAX_COUNT
  {
    var all := blocks + [block];
    assert all[|blocks|] == block;
    assert forall k :: 0 <= k < |blocks| ==> all[k] == blocks[k];
  }

  lemma SmallPrefix(blocks: seq<Block>, blocks': seq<Block>)
    requires blocks <= blocks'
    ensures Small(blocks') ==> Small(blocks)
  {
    assert forall k :: 0 <= k < |blocks| ==> blocks[k] == blocks'[k];
  }

  lemma PayloadsMore(rows: seq<Row>, n: nat)
    requires n < |rows|
    ensures PayloadsFit(rows[..n + 1]) <==> PayloadsFit(rows[..n]) && Small(rows[n].blocks)
    ensures PayloadsFit(rows) ==> Small(rows[n].blocks)
    ensures RowsBytes(rows[..n + 1]) == RowsBytes(rows[..n]) + (RowHead(rows[n]) + BlocksBytes(rows[n].blocks))
  {
    hide Small;
    hide RowsBytes;
    hide RowHead;
    hide BlocksBytes;
    var front, all := rows[..n], rows[..n + 1];
    assert all == front + [rows[n]] && all[n] == rows[n];
    assert forall k :: 0 <= k < n ==> all[k] == front[k];
    RowMore(front, rows[n]);
  }

  lemma DescribedAt<C>(records: seq<Record<C>>, vals: map<Entity, Values<C>>, list: seq<Entity>, parents: seq<int>, i: nat)
    requires |list| == |parents| && forall i :: 0 <= i < |list| ==> -1 <= parents[i] < i && list[i] in vals
    requires i < |list|
    ensures DescribedRows(records, vals, list, parents)[i] ==
            Row(i, ParentField(parents[i]), BlocksOf(records, vals[list[i]], Writing(RowMap(list)), |records|))
  {
  }

  lemma RowHeadIs(row: Row)
    ensures RowHead(row) == HeadBytes(row.id, row.parent, |row.blocks|)
  {
  }

  lemma NoRows(rows: seq<Row>)
    ensures RowsBytes(rows[..0]) == [] && PayloadsFit(rows[..0])
  {
  }

  lemma StartAndRows(id: nat, rows: seq<Row>, before: seq<Byte>, start: seq<Byte>)
    requires start == before + (HeaderBytes(SCENE_KIND) + (LittleEndian(8, id) + LittleEndian(4, |rows|)))
    ensures start + RowsBytes(rows) == before + FileBytes(0, id, rows)
  {
    hide LittleEndian;
    hide RowsBytes;
    hide FlaggedHeader;
  }

  lemma WrittenFits<C>(records: seq<Record<C>>, vals: map<Entity, Values<C>>, list: seq<Entity>, parents: seq<int>, id: nat)
    requires RegistryFits(records) && id < Pow256(8) && |list| < NO_PARENT
    requires |list| == |parents| && forall i :: 0 <= i < |list| ==> -1 <= parents[i] < i && list[i] in vals
    requires PayloadsFit(DescribedRows(records, vals, list, parents))
    ensures FileFits(0, id, DescribedRows(records, vals, list, parents))
  {
    hide BlocksOf;
    hide Pow256;
    hide RowMap;
    Pow256Four();
    var rows := DescribedRows(records, vals, list, parents);
    forall i | 0 <= i < |rows| ensures InPlace(rows[i].id, rows[i].parent, 0 + i) && BlocksFit(rows[i].blocks) {
      BlocksMeasured(records, vals[list[i]], Writing(RowMap(list)), |records|, |records|);
      assert Small(rows[i].blocks);
    }
  }

  /** Each listed entity has as many children as counted. */
  ghost predicate CountsOk(f: Forest, list: seq<Entity>, counts: seq<nat>) {
    && |counts| == |list|
    && (forall i {:trigger CountOk(f, list, counts, i)} :: 0 <= i < |list| ==> CountOk(f, list, counts, i))
  }

  ghost predicate CountOk(f: Forest, list: seq<Entity>, counts: seq<nat>, i: nat)
    requires i < |list| == |counts|
  {
    list[i] in f.kids && counts[i] == |f.kids[list[i]]|
  }

  lemma CountRoot(f: Forest, list: seq<Entity>, parents: seq<int>, counts: seq<nat>, e: Entity)
    requires Built(f, list, parents) && CountsOk(f, list, counts) && e !in f.parent
    ensures CountsOk(AddRoot(f, e), list + [e], counts + [0])
  {
    hide BuiltRow;
    var list', counts' := list + [e], counts + [0];
    forall i | 0 <= i < |list'| ensures CountOk(AddRoot(f, e), list', counts', i) {
      if i < |list| {
        assert list[i] in list;
        assert CountOk(f, list, counts, i);
      }
    }
  }

  lemma CountChild(f: Forest, list: seq<Entity>, parents: seq<int>, counts: seq<nat>, e: Entity, p: nat)
    requires Built(f, list, parents) && CountsOk(f, list, counts) && e.Valid() && e !in f.parent && p < |list|
    ensures |counts| == |list| && WellFormed(AddRoot(f, e)) && list[p] in f.kids && counts[p] == |f.kids[list[p]]|
    ensures CanMove(AddRoot(f, e), e, list[p], counts[p])
    ensures CountsOk(Move(AddRoot(f, e), e, list[p], counts[p]), list + [e], (counts + [0])[p := counts[p] + 1])
  {
    hide BuiltRow;
    hide WellFormed;
    hide Move;
    hide CanMove;
    assert list[p] in list;
    assert CountOk(f, list, counts, p);
    NewRootMoves(f, e, list[p]);
    var g := Move(AddRoot(f, e), e, list[p], counts[p]);
    var list', counts' := list + [e], (counts + [0])[p := counts[p] + 1];
    forall i | 0 <= i < |list'| ensures CountOk(g, list', counts', i) {
      if i < |list| {
        assert list[i] in list;
        assert CountOk(f, list, counts, i);
      }
    }
  }

  // ----- Visiting every entity -----

  ghost function ChangedAll<C>(records: seq<Record<C>>, all: map<Entity, Values<C>>, change: (int, C) -> C): map<Entity, Values<C>> {
    map e | e in all :: Changed(records, all[e], change)
  }

  ghost predicate SomeAny<C>(records: seq<Record<C>>, all: map<Entity, Values<C>>, tells: (int, C) -> bool) {
    exists e :: e in all && SomeFirst(all[e], tells, |records|)
  }

  /** The values of the entities in `done` are changed, those of the others not yet. */
  ghost predicate ChangedTo<C>(records: seq<Record<C>>, all: map<Entity, Values<C>>, now: map<Entity, Values<C>>,
                               done: seq<Entity>, change: (int, C) -> C) {
    && now.Keys == all.Keys
    && (forall e :: e in all ==> now[e] == if e in done then Changed(records, all[e], change) else all[e])
  }

  ghost predicate SomeTo<C>(records: seq<Record<C>>, all: map<Entity, Values<C>>, done: seq<Entity>, tells: (int, C) -> bool) {
    exists e :: e in done && e in all && SomeFirst(all[e], tells, |records|)
  }

  lemma NoneVisited<C>(records: seq<Record<C>>, all: map<Entity, Values<C>>, entities: seq<Entity>,
                       change: (int, C) -> C, tells: (int, C) -> bool)
    ensures ChangedTo(records, all, all, entities[..0], change) && !SomeTo(records, all, entities[..0], tells)
  {
  }

  lemma NextChanged<C>(records: seq<Record<C>>, all: map<Entity, Values<C>>, now: map<Entity, Values<C>>,
                       entities: seq<Entity>, index: nat, change: (int, C) -> C)
    requires Distinct(entities) && index < |entities| && entities[index] in all
    requires ChangedTo(records, all, now, entities[..index], change)
    ensures forall e :: e in now <==> e in all
    ensures var e := entities[index];
            && e in now && now[e] == all[e]
            && ChangedTo(records, all, now[e := Changed(records, all[e], change)], entities[..index + 1], change)
  {
    hide Changed;
    assert entities[..index + 1] == entities[..index] + [entities[index]];
  }

  lemma NextTold<C>(records: seq<Record<C>>, all: map<Entity, Values<C>>, entities: seq<Entity>, index: nat, tells: (int, C) -> bool)
    requires index < |entities| && entities[index] in all
    ensures SomeTo(records, all, entities[..index + 1], tells) <==>
            SomeTo(records, all, entities[..index], tells) || SomeFirst(all[entities[index]], tells, |records|)
  {
    hide SomeFirst;
    assert entities[..index + 1] == entities[..index] + [entities[index]];
  }

  lemma AllVisited<C>(records: seq<Record<C>>, all: map<Entity, Values<C>>, now: map<Entity, Values<C>>,
                      done: seq<Entity>, change: (int, C) -> C, tells: (int, C) -> bool)
    requires forall e :: e in all ==> e in done
    ensures ChangedTo(records, all, now, done, change) ==> now == ChangedAll(records, all, change)
    ensures SomeAny(records, all, tells) <==> SomeTo(records, all, done, tells)
  {
    hide Changed;
    hide SomeFirst;
  }

  /** Beside every id the scene refers to stands its handle, and nothing else has changed. */
  ghost predicate AllFilled<C>(records: seq<Record<C>>, all: map<Entity, Values<C>>, now: map<Entity, Values<C>>,
                               handles: map<nat, Entity>)
  {
    && now.Keys == all.Keys
    && forall e :: e in all && e in now ==> ValuesFilled(records, all[e], now[e], handles)
  }

  lemma AllFilledBy<C(!new)>(records: seq<Record<C>>, all: map<Entity, Values<C>>, handles: map<nat, Entity>)
    requires RegistryOk(records) && forall e :: e in all ==> ValuesOk(records, all[e])
    ensures AllFilled(records, all, ChangedAll(records, all, Filling(records, handles)), handles)
  {
    hide RegistryOk;
    hide ValuesFilled;
    hide ValuesOk;
    hide Changed;
    hide Filling;
    forall e | e in all ensures ValuesFilled(records, all[e], Changed(records, all[e], Filling(records, handles)), handles) {
      FillingMeans(records, all[e], handles);
    }
  }

  /** Every id in `more` that was not there yet is appended. */
  method AddIds(ids: seq<nat>, more: seq<nat>) returns (ids': seq<nat>)
    requires Distinct(ids)
    ensures Distinct(ids') && forall id :: id in ids' <==> id in ids || id in more
  {
    ids' := ids;
    var k := 0;
    while k < |more|
      invariant k <= |more| && Distinct(ids')
      invariant forall id :: id in ids' <==> id in ids || id in more[..k]
    {
      assert more[..k + 1] == more[..k] + [more[k]];
      if more[k] !in ids' {
        ids' := ids' + [more[k]];
      }
      k := k + 1;
    }
    assert more[..k] == more;
  }

  /** Each entity read so far holds what its row alone yields. */
  ghost predicate RowsRead<C>(records: seq<Record<C>>, all: map<Entity, Values<C>>, rows: seq<Row>, entities: seq<Entity>)
  {
    && |entities| == |rows|
    && (forall i {:trigger entities[i]} :: 0 <= i < |entities| ==>
          entities[i] in all && all[entities[i]] == RowValues(records, rows[i]))
  }

  lemma NothingRead<C>(records: seq<Record<C>>, all: map<Entity, Values<C>>)
    ensures Built(EMPTY, [], ParentsOf([])) && CountsOk(EMPTY, [], [])
    ensures RowsRead(records, all, [], [])
  {
  }

  lemma RowsReadCount<C>(records: seq<Record<C>>, all: map<Entity, Values<C>>, rows: seq<Row>, entities: seq<Entity>)
    requires RowsRead(records, all, rows, entities)
    ensures |entities| == |rows|
  {
  }

  lemma ReadNext<C>(records: seq<Record<C>>, before: map<Entity, Values<C>>, rows: seq<Row>, row: Row, entities: seq<Entity>, e: Entity)
    requires RowsRead(records, before, rows, entities) && e !in before
    ensures var all := before[e := InitialValues(records)];
            RowsRead(records, all[e := ApplyBlocks(records, all[e], row.blocks)], rows + [row], entities + [e])
    ensures ParentsOf(rows + [row]) == ParentsOf(rows) + [ParentIndex(row.parent)]
  {
    hide ApplyBlocks;
    hide InitialValues;
  }

  /** A reference out of range in some entity is one in some row. */
  lemma MalformedIs<C>(records: seq<Record<C>>, all: map<Entity, Values<C>>, rows: seq<Row>, entities: seq<Entity>, f: Forest)
    requires RowsRead(records, all, rows, entities)
    requires Built(f, entities, ParentsOf(rows)) && all.Keys == f.parent.Keys
    requires forall i :: 0 <= i < |rows| ==> InPlace(rows[i].id, rows[i].parent, i)
    ensures SomeAny(records, all, Misplaced(records, |entities|)) <==> !Readable(records, rows)
  {
    hide WellFormed;
    hide BuiltRow;
    hide BadRefs;
    hide SomeFirst;
    hide RowValues;
    forall e | e in all
      ensures SomeFirst(all[e], Misplaced(records, |entities|), |records|) <==> BadRefs(records, all[e], |entities|)
    {
      MappingMeans(records, all[e], Reading(entities), |entities|);
    }
    if SomeAny(records, all, Misplaced(records, |entities|)) {
      var e :| e in all && SomeFirst(all[e], Misplaced(records, |entities|), |records|);
      assert e in entities;
    }
    if !Readable(records, rows) {
      var i :| 0 <= i < |rows| && BadRefs(records, RowValues(records, rows[i]), |rows|);
      assert all[entities[i]] == RowValues(records, rows[i]);
    }
  }

  lemma RebuiltBy<C>(records: seq<Record<C>>, all: map<Entity, Values<C>>, rows: seq<Row>, entities: seq<Entity>, f: Forest)
    requires RowsRead(records, all, rows, entities) && Built(f, entities, ParentsOf(rows))
    ensures Rebuilt(records, f, ChangedAll(records, all, Mapping(records, Reading(entities))), rows, entities)
  {
    hide Built;
    hide MapValues;
    hide Changed;
    hide RowValues;
    forall i | 0 <= i < |entities|
      ensures Changed(records, all[entities[i]], Mapping(records, Reading(entities))) ==
              MapValues(records, RowValues(records, rows[i]), Reading(entities))
    {
      MappingMeans(records, all[entities[i]], Reading(entities), |entities|);
    }
  }

  method AppendRows(entities: seq<Entity>, parents: seq<int>, children: seq<Entity>, index: nat)
    returns (entities': seq<Entity>, parents': seq<int>)
    ensures entities' == entities + children && parents' == parents + Repeat(|children|, index)
  {
    entities', parents' := entities, parents;
    var c := 0;
    while c < |children|
      invariant c <= |children| && entities' == entities + children[..c]
      invariant parents' == parents + Repeat(c, index)
    {
      RepeatMore(c, index);
      entities' := entities' + [children[c]];
      parents' := parents' + [index];
      c := c + 1;
    }
    assert children[..c] == children;
  }

  lemma Unchanged<V>(m: map<Entity, V>, e: Entity)
    requires e in m
    ensures m[e := m[e]] == m
  {
  }

  lemma Overwritten<V>(m: map<Entity, V>, e: Entity, v: V, w: V)
    ensures m[e := v][e] == v && m[e := v][e := w] == m[e := w]
  {
  }

  // ----- The outcome of reading -----

  /** What reading some bytes ends with: an error of the bytes, or a reference past the last row. */
  ghost function Outcome<C>(records: seq<Record<C>>, bytes: seq<Byte>): Option<ReadError> {
    match ScanFile(bytes)
    case Bad(error) => Some(error)
    case Got(file, _) => if Readable(records, file.1) then None else Some(Malformed)
  }

  lemma OutcomeMeans<C>(records: seq<Record<C>>, bytes: seq<Byte>)
    ensures ScanFile(bytes).Bad? ==> Outcome(records, bytes) == Some(ScanFile(bytes).error)
    ensures ScanFile(bytes).Got? ==>
              Outcome(records, bytes) == if Readable(records, ScanFile(bytes).value.1) then None else Some(Malformed)
  {
  }

  /** Bytes are read exactly if they are those of a file, with some flags, whose rows can be read. */
  lemma ReadsExactly<C>(records: seq<Record<C>>, bytes: seq<Byte>)
    ensures Outcome(records, bytes) == None <==>
            exists flags, id, rows :: FileFits(flags, id, rows) && bytes == FileBytes(flags, id, rows) && Readable(records, rows)
  {
    hide ScanFile;
    hide FileFits;
    hide FileBytes;
    hide Readable;
    if ScanFile(bytes).Got? {
      FileWas(bytes);
    }
    forall flags: nat, id: nat, rows | FileFits(flags, id, rows) && bytes == FileBytes(flags, id, rows)
      ensures ScanFile(bytes) == Got((id, rows), [])
    {
      FileBack(flags, id, rows);
    }
  }

  /** A file that can be read cannot any more once it is cut off or carried on. */
  lemma CutOrCarriedOn<C>(records: seq<Record<C>>, bytes: seq<Byte>, n: nat, more: seq<Byte>)
    requires Outcome(records, bytes) == None && n < |bytes| && more != []
    ensures Outcome(records, bytes[..n]) == Some(Truncated) && Outcome(records, bytes + more) == Some(Malformed)
  {
    hide ScanFile;
    CutIsTruncated(bytes, n);
    FileLonger(bytes, more);
  }

  /** A scene together with the serialisable values of its entities. The local transform values
      are one of the component types; they live in the scene. */
  class ComponentScene<C(!new), M(!new)> {
    const scene: Scene<C, M>
    const records: seq<Record<C>>
    const transform: nat
    var values: map<Entity, Values<C>>

    ghost predicate Structure()
      reads this, scene
    {
      && scene.Structure()
      && RegistryOk(records)
      && StoreOk(records, values, scene.transforms, transform)
      && records[transform].initial == scene.g.initial && HasNoAssets(records[transform])
    }

    ghost predicate Valid()
      reads this, scene, scene.slots
    {
      Structure() && scene.Valid()
    }

    /** The value of type `i` that `e` holds, if any. */
    function Component(e: Entity, i: nat): Option<C>
      requires e in values && e in scene.transforms
      reads this, scene
    {
      var vals := ValuesOf(values, scene.transforms, transform, e);
      if i in vals then Some(vals[i]) else None
    }

    ghost function AllValues(): map<Entity, Values<C>>
      reads this, scene
    {
      Merged(values, scene.transforms, transform)
    }

    /** What the structure offers at a glance. */
    lemma Facts()
      requires Structure()
      ensures scene.Structure() && WellFormed(scene.forest)
      ensures values.Keys == AllValues().Keys == scene.forest.parent.Keys == scene.hierarchy.Keys == scene.transforms.Keys
    {
      hide WellFormed;
      hide RegistryOk;
      Links.LinkedKeys(scene.hierarchy, scene.forest);
      MergedKeys(records, values, scene.transforms, transform);
    }

    lemma Holds(e: Entity)
      requires Structure() && e in scene.forest.parent
      ensures e in values && e in AllValues()
    {
      Facts();
    }

    constructor (scene: Scene<C, M>, records: seq<Record<C>>, transform: nat)
      requires scene.Valid() && scene.forest == EMPTY && RegistryOk(records)
      requires transform < |records| && records[transform].builtIn && records[transform].initial == scene.g.initial
      requires HasNoAssets(records[transform])
      ensures Valid() && this.scene == scene && this.records == records && this.transform == transform
    {
      this.scene, this.records, this.transform := scene, records, transform;
      values := map[];
    }

    /** Overwrites one value of `e`; no cached world is refreshed. */
    method SetValue(e: Entity, i: nat, value: C)
      requires Structure() && e in values && i < |records|
      modifies this`values, scene`transforms
      ensures Structure() && scene.forest == old(scene.forest) && values.Keys == old(values.Keys)
      ensures e in old(AllValues()) && AllValues() == old(AllValues())[e := old(AllValues())[e][i := value]]
      ensures e in old(scene.transforms) && (i != transform || value == old(scene.transforms)[e].local) ==>
                scene.transforms == old(scene.transforms)
    {
      hide WellFormed;
      hide Links.Linked;
      hide RegistryOk;
      hide StoreOk;
      hide Merged;
      MergedKeys(records, values, scene.transforms, transform);
      Links.LinkedKeys(scene.hierarchy, scene.forest);
      if i == transform {
        SetTransform(e, value);
      } else {
        SetOther(e, i, value);
      }
    }

    method SetTransform(e: Entity, value: C)
      requires Structure() && e in values && e in scene.hierarchy
      modifies scene`transforms
      ensures Structure()
      ensures e in old(AllValues()) && AllValues() == old(AllValues())[e := old(AllValues())[e][transform := value]]
      ensures e in old(scene.transforms) && value == old(scene.transforms)[e].local ==> scene.transforms == old(scene.transforms)
    {
      hide WellFormed;
      hide Links.Linked;
      hide RegistryOk;
      hide StoreOk;
      hide Merged;
      MergedKeys(records, values, scene.transforms, transform);
      StoreSetLocal(records, values, scene.transforms, transform, e, value);
      scene.OverwriteLocal(e, value);
    }

    method SetOther(e: Entity, i: nat, value: C)
      requires Structure() && e in values && i < |records| && i != transform
      modifies this`values
      ensures Structure() && values.Keys == old(values.Keys)
      ensures e in old(AllValues()) && AllValues() == old(AllValues())[e := old(AllValues())[e][i := value]]
    {
      hide WellFormed;
      hide Links.Linked;
      hide RegistryOk;
      hide StoreOk;
      hide Merged;
      MergedKeys(records, values, scene.transforms, transform);
      StoreSetValue(records, values, scene.transforms, transform, e, i, value);
      values := values[e := values[e][i := value]];
    }

    /** A new entity with the initial value of every built-in type. */
    method CreateEntity() returns (e: Entity)
      requires Structure() && scene.Stored() && scene.slots.CanCreate()
      modifies this`values, scene, scene.slots
      ensures Structure() && scene.Stored() && scene.Spare() >= old(scene.Spare()) - 1
      ensures e.Valid() && e !in old(scene.forest.parent) && scene.forest == AddRoot(old(scene.forest), e)
      ensures AllValues() == old(AllValues())[e := InitialValues(records)]
    {
      hide WellFormed;
      hide Links.Linked;
      hide RegistryOk;
      hide AddRoot;
      hide StoreOk;
      hide Merged;
      hide EntitySlots.Valid;
      hide EntitySlots.Live;
      Links.LinkedKeys(scene.hierarchy, scene.forest);
      StoreRecord(records, values, scene.transforms, transform);
      ghost var t := scene.transforms;
      e := scene.CreateEntity();
      StoreCreate(records, values, t, transform, e, Origin(scene.g));
      values := values[e := InitialValues(records)];
    }
  
    // ----- Writing -----

    /** Lists the entities breadth first, each with the row of its parent, and gives every one its row. */
    method ListRows() returns (entities: seq<Entity>, parents: seq<int>, rowOf: map<Entity, nat>, ghost roots: seq<Entity>)
      requires scene.Structure()
      ensures BfsAt(scene.forest, roots, entities, parents, |entities|) && |parents| == |entities|
      ensures forall x :: x in roots ==> x in scene.forest.parent && scene.forest.parent[x] == NONE
      ensures forall x :: x in scene.forest.parent <==> x in entities
      ensures rowOf == RowMap(entities) && |entities| <= |scene.hierarchy|
    {
      hide WellFormed;
      hide Links.Linked;
      hide BfsAt;
      hide Apart;
      hide RowMap;
      hide UnderAny;
      ghost var f := scene.forest;
      Links.LinkedKeys(scene.hierarchy, f);
      ForestKeys(f);
      entities := scene.GetRoots();
      roots := entities;
      parents := Repeat(|entities|, -1);
      RootsApart(f, roots);
      BfsStarts(f, roots);
      rowOf := map[];
      RowMapEmpty();
      var index := 0;
      while index < |entities|
        invariant BfsAt(f, roots, entities, parents, index) && index <= |entities|
        invariant rowOf == RowMap(entities[..index])
        decreases |f.parent| - index
      {
        BfsBound(f, roots, entities, parents, index);
        BfsStep(f, roots, entities, parents, index);
        var children := scene.GetChildren(entities[index]);
        ghost var listed := entities;
        entities, parents := AppendRows(entities, parents, children, index);
        BfsDistinct(f, roots, entities, parents, index + 1);
        RowMapPush(entities, index);
        assert entities[..index] == listed[..index];
        rowOf := rowOf[entities[index] := index];
        index := index + 1;
      }
      assert entities[..index] == entities;
      BfsLength(f, roots, entities, parents, index);
      BfsDone(f, roots, entities, parents);
      BfsBound(f, roots, entities, parents, index);
      assert |f.parent| == |f.parent.Keys| == |scene.hierarchy|;
    }

    /** The blocks of one entity, its references replaced by row numbers. A payload that exceeds the length of a
        block stops the engine; `fits` tells if there is none. */
    method WriteBlocks(e: Entity, rowOf: map<Entity, nat>, writer: Writer) returns (fits: bool, count: nat)
      requires Structure() && e in values && RegistryFits(records)
      modifies writer.buffer
      ensures e in AllValues()
      ensures var blocks := BlocksOf(records, AllValues()[e], Writing(rowOf), |records|);
              && (fits <==> Small(blocks))
              && (fits ==> count == |blocks| && writer.buffer.bytes == old(writer.buffer.bytes) + BlocksBytes(blocks))
    {
      hide WellFormed;
      hide Links.Linked;
      hide RegistryOk;
      hide StoreOk;
      hide Merged;
      hide RegistryFits;
      hide BlocksOf;
      hide BlockBytes;
      hide BlocksBytes;
      hide Small;
      MergedAt(records, values, scene.transforms, transform, e);
      ghost var vals, before := AllValues()[e], writer.buffer.bytes;
      fits, count := true, 0;
      NoBlocks(records, vals, Writing(rowOf));
      var i := 0;
      while i < |records|
        invariant i <= |records|
        invariant count == |BlocksOf(records, vals, Writing(rowOf), i)| && Small(BlocksOf(records, vals, Writing(rowOf), i))
        invariant writer.buffer.bytes == before + BlocksBytes(BlocksOf(records, vals, Writing(rowOf), i))
      {
        NextBlock(records, vals, Writing(rowOf), i);
        var component := Component(e, i);
        if component.Some? {
          var written := records[i].mapRefs(component.value, Writing(rowOf));
          var payload := records[i].encode(written);
          if |payload| > BLOB_MAX_COUNT {
            return false, count;
          }
          PutBlock(writer, Block(records[i].tag, payload));
          count := count + 1;
        }
        i := i + 1;
      }
    }

    /** One row and its blocks, which are collected in a buffer of their own first. */
    method WriteRow(e: Entity, index: nat, parent: int, rowOf: map<Entity, nat>, writer: Writer, blockWriter: Writer)
      returns (fits: bool)
      requires Structure() && e in values && RegistryFits(records) && -1 <= parent && writer.buffer != blockWriter.buffer
      modifies writer.buffer, blockWriter.buffer
      ensures e in AllValues()
      ensures var row := Row(index, ParentField(parent), BlocksOf(records, AllValues()[e], Writing(rowOf), |records|));
              && (fits <==> Small(row.blocks))
              && (fits ==> writer.buffer.bytes == old(writer.buffer.bytes) + (RowHead(row) + BlocksBytes(row.blocks)))
    {
      hide *;
      ghost var all, before := AllValues(), writer.buffer.bytes;
      blockWriter.buffer.bytes := [];
      var count;
      fits, count := WriteBlocks(e, rowOf, blockWriter);
      if !fits {
        return;
      }
      ghost var blocks := BlocksOf(records, all[e], Writing(rowOf), |records|);
      assert blockWriter.buffer.bytes == BlocksBytes(blocks);
      RowHeadIs(Row(index, ParentField(parent), blocks));
      PutHead(writer, index, ParentField(parent), count);
      writer.WriteBytes(blockWriter.buffer.bytes);
      assert writer.buffer.bytes == before + (HeadBytes(index, ParentField(parent), count) + BlocksBytes(blocks));
    }

    /** One row for each listed entity. */
    method WriteRows(entities: seq<Entity>, parents: seq<int>, rowOf: map<Entity, nat>, writer: Writer) returns (fits: bool)
      requires Structure() && RegistryFits(records) && rowOf == RowMap(entities) && |entities| == |parents|
      requires forall i :: 0 <= i < |entities| ==> -1 <= parents[i] < i && entities[i] in AllValues()
      modifies writer.buffer
      ensures AllValues() == old(AllValues())
      ensures fits <==> PayloadsFit(DescribedRows(records, old(AllValues()), entities, parents))
      ensures fits ==>
                writer.buffer.bytes ==
                old(writer.buffer.bytes) + RowsBytes(DescribedRows(records, old(AllValues()), entities, parents))
    {
      hide *;
      ghost var all, before := AllValues(), writer.buffer.bytes;
      ghost var rows := DescribedRows(records, all, entities, parents);
      var blocks := new ByteBuffer();
      var blockWriter := new Writer(blocks);
      NoRows(rows);
      var index := 0;
      while index < |entities|
        invariant index <= |entities| && AllValues() == all && Structure()
        invariant PayloadsFit(rows[..index]) && writer.buffer.bytes == before + RowsBytes(rows[..index])
      {
        Facts();
        PayloadsMore(rows, index);
        DescribedAt(records, all, entities, parents, index);
        fits := WriteRow(entities[index], index, parents[index], rowOf, writer, blockWriter);
        if !fits {
          return;
        }
        index := index + 1;
      }
      assert rows[..index] == rows;
      fits := true;
    }

    /** Writes the whole scene out. `fits` is false exactly if some payload exceeds the length of a block. */
    method Write(id: nat, out: ByteBuffer)
      returns (fits: bool, ghost rows: seq<Row>, ghost roots: seq<Entity>, ghost list: seq<Entity>, ghost parents: seq<int>)
      requires Structure() && RegistryFits(records) && id < Pow256(8) && |scene.hierarchy| < NO_PARENT
      modifies out
      ensures Structure() && AllValues() == old(AllValues())
      ensures |list| < NO_PARENT && Described(records, scene.forest, AllValues(), rows, roots, list, parents)
      ensures Readable(records, rows) && |rows| <= |scene.hierarchy|
      ensures fits <==> PayloadsFit(rows)
      ensures fits ==> FileFits(0, id, rows) && out.bytes == old(out.bytes) + FileBytes(0, id, rows)
    {
      hide *;
      Facts();
      ghost var vals, before := AllValues(), out.bytes;
      var entities, above, rowOf;
      entities, above, rowOf, roots := ListRows();
      assert AllValues() == vals;
      list, parents := entities, above;
      BfsParents(scene.forest, roots, list, parents);
      rows := DescribedRows(records, vals, list, parents);
      DescribedBy(records, scene.forest, vals, roots, list, parents);
      StoredOk();
      WrittenIsReadable(records, scene.forest, vals, rows, roots, list, parents);
      var writer := new Writer(out);
      PutStart(writer, id, |entities|);
      assert AllValues() == vals;
      ghost var start := out.bytes;
      fits := WriteRows(entities, above, rowOf, writer);
      assert AllValues() == vals;
      if fits {
        WrittenFits(records, vals, list, parents, id);
        StartAndRows(id, rows, before, start);
      }
    }

    lemma StoredOk()
      requires Structure()
      ensures RegistryOk(records) && forall e :: e in AllValues() ==> ValuesOk(records, AllValues()[e])
    {
      hide WellFormed;
      hide RegistryOk;
      MergedKeys(records, values, scene.transforms, transform);
      forall e | e in AllValues() ensures ValuesOk(records, AllValues()[e]) {
        MergedAt(records, values, scene.transforms, transform, e);
      }
    }
  
    // ----- Reading -----

    /** Empties the scene after a failed read. */
    method Fail()
      requires Structure() && scene.Stored()
      modifies this`values, scene, scene.slots
      ensures Structure() && scene.Stored() && scene.Fresh() && scene.forest == EMPTY
    {
      scene.Clear();
      values := map[];
    }

    /** Creates the entity of one row, below its parent's if it has one, as its last child. */
    method AddRow(parent: nat, entities: seq<Entity>, counts: seq<nat>, ghost parents: seq<int>)
      returns (entity: Entity, counts': seq<nat>)
      requires Structure() && scene.Stored() && scene.slots.CanCreate()
      requires Built(scene.forest, entities, parents) && CountsOk(scene.forest, entities, counts)
      requires parent == NO_PARENT || parent < |entities|
      modifies this`values, scene, scene.slots
      ensures Structure() && scene.Stored() && scene.Spare() >= old(scene.Spare()) - 1
      ensures entity !in old(AllValues())
      ensures Built(scene.forest, entities + [entity], parents + [ParentIndex(parent)])
      ensures CountsOk(scene.forest, entities + [entity], counts')
      ensures AllValues() == old(AllValues())[entity := InitialValues(records)]
    {
      hide WellFormed;
      hide Links.Linked;
      hide RegistryOk;
      hide StoreOk;
      hide Merged;
      hide Built;
      hide AddRoot;
      hide Move;
      hide CanMove;
      hide CountsOk;
      Links.LinkedKeys(scene.hierarchy, scene.forest);
      MergedKeys(records, values, scene.transforms, transform);
      ghost var f := scene.forest;
      entity := CreateEntity();
      counts' := counts + [0];
      if parent == NO_PARENT {
        BuildRoot(f, entities, parents, entity);
        CountRoot(f, entities, parents, counts, entity);
      } else {
        counts' := PlaceRow(entity, parent, entities, counts', f, counts, parents);
      }
    }

    method PlaceRow(entity: Entity, parent: nat, entities: seq<Entity>, counts1: seq<nat>,
                    ghost f: Forest, ghost counts: seq<nat>, ghost parents: seq<int>)
      returns (counts': seq<nat>)
      requires Structure() && Built(f, entities, parents) && CountsOk(f, entities, counts) && parent < |entities|
      requires entity.Valid() && entity !in f.parent && scene.forest == AddRoot(f, entity) && counts1 == counts + [0]
      modifies scene`hierarchy, scene`transforms, scene`forest
      ensures Structure() && scene.hierarchy.Keys == old(scene.hierarchy.Keys)
      ensures Built(scene.forest, entities + [entity], parents + [parent])
      ensures CountsOk(scene.forest, entities + [entity], counts')
      ensures AllValues() == old(AllValues())
    {
      hide WellFormed;
      hide Links.Linked;
      hide RegistryOk;
      hide StoreOk;
      hide Merged;
      hide Built;
      hide AddRoot;
      hide Move;
      hide CanMove;
      hide CountsOk;
      BuildChild(f, entities, parents, entity, parent);
      CountChild(f, entities, parents, counts, entity, parent);
      counts' := counts1;
      LinkLast(entity, entities[parent], counts'[parent]);
      counts' := counts'[parent := counts'[parent] + 1];
    }

    /** Puts the new entity below `parent`. The link is never rejected. */
    method LinkLast(entity: Entity, parent: Entity, position: nat)
      requires Structure() && CanMove(scene.forest, entity, parent, position)
      modifies scene`hierarchy, scene`transforms, scene`forest
      ensures Structure() && scene.forest == Move(old(scene.forest), entity, parent, position)
      ensures scene.hierarchy.Keys == old(scene.hierarchy.Keys)
      ensures AllValues() == old(AllValues())
    {
      hide WellFormed;
      hide Links.Linked;
      hide RegistryOk;
      hide StoreOk;
      hide Merged;
      hide Move;
      hide CanMove;
      hide Locals;
      ghost var t := scene.transforms;
      var linked := scene.SetParent(entity, parent, position);
      assert linked;
      StoreIgnoresWorlds(records, values, t, scene.transforms, transform);
    }

    /** Reads one block over the values an entity has. */
    method ReadBlock(e: Entity, block: Block)
      requires Structure() && e in values
      modifies this`values, scene`transforms
      ensures Structure() && scene.forest == old(scene.forest) && values.Keys == old(values.Keys)
      ensures e in old(AllValues())
      ensures AllValues() == old(AllValues())[e := ApplyBlock(records, old(AllValues())[e], block)]
    {
      hide ComponentScene.Structure;
      hide FindRecord;
      hide Merged;
      Facts();
      ghost var all := AllValues();
      assert all == all[e := all[e]];
      var found := FindRecord(records, block.tag);
      if found.Some? {
        var value := records[found.value].decode(block.payload);
        if value.Some? {
          SetValue(e, found.value, value.value);
        }
      }
    }

    /** Reads the blocks of one entity over the values it has, until the bytes run out. */
    method ReadBlocks(e: Entity, reader: Reader, n: nat) returns (ghost blocks: seq<Block>)
      requires Structure() && e in values && reader.Valid() && reader.error.None?
      modifies this`values, scene`transforms, reader
      ensures Structure() && scene.forest == old(scene.forest) && values.Keys == old(values.Keys)
      ensures reader.Valid()
      ensures reader.error.Some? ==> ScanBlocks(old(reader.Rest()), n) == Bad(reader.error.value)
      ensures reader.error.None? ==> ScanBlocks(old(reader.Rest()), n) == Got(blocks, reader.Rest())
      ensures e in old(AllValues())
      ensures AllValues() == old(AllValues())[e := ApplyBlocks(records, old(AllValues())[e], blocks)]
    {
      hide *;
      Facts();
      ghost var all, scan := AllValues(), ScanBlocks(reader.Rest(), n);
      ghost var vals := all[e];
      blocks := [];
      ApplyNone(records, vals);
      Unchanged(all, e);
      PrefixedNone(scan);
      var k := 0;
      while k < n
        invariant k <= n && e in values && reader.Valid() && reader.error.None?
        invariant Structure() && scene.forest == old(scene.forest) && values.Keys == old(values.Keys)
        invariant AllValues() == all[e := vals] && vals == ApplyBlocks(records, all[e], blocks)
        invariant scan == Prefixed(blocks, ScanBlocks(reader.Rest(), n - k))
      {
        BlocksGoOn(scan, blocks, reader.Rest(), n - k);
        var block := TakeBlock(reader);
        if reader.error.Some? {
          return;
        }
        ReadBlock(e, block);
        Overwritten(all, e, vals, ApplyBlock(records, vals, block));
        vals := ApplyBlock(records, vals, block);
        ApplyMore(records, all[e], blocks, block);
        blocks := blocks + [block];
        k := k + 1;
      }
      NoMoreBlocks(blocks, reader.Rest());
    }

    /** Visits the values of one entity: each is changed, and it is told if one is of some kind. */
    method VisitEntity(e: Entity, change: (int, C) -> C, tells: (int, C) -> bool) returns (told: bool)
      requires Structure() && e in values
      modifies this`values, scene`transforms
      ensures Structure() && scene.forest == old(scene.forest) && values.Keys == old(values.Keys)
      ensures e in old(AllValues())
      ensures AllValues() == old(AllValues())[e := Changed(records, old(AllValues())[e], change)]
      ensures told <==> SomeFirst(old(AllValues())[e], tells, |records|)
      ensures Leaves(change, transform) ==> scene.transforms == old(scene.transforms)
    {
      hide *;
      Facts();
      StoredOk();
      ghost var all, t := AllValues(), scene.transforms;
      ghost var vals := all[e];
      ChangesNone(records, vals, change, tells);
      ChangesAll(records, vals, change);
      told := false;
      Unchanged(all, e);
      ghost var now := vals;
      var i := 0;
      while i < |records|
        invariant i <= |records| && e in values
        invariant Structure() && scene.forest == old(scene.forest) && values.Keys == old(values.Keys)
        invariant AllValues() == all[e := now] && now == ChangedFirst(records, vals, change, i)
        invariant told <==> SomeFirst(vals, tells, i)
        invariant Leaves(change, transform) ==> scene.transforms == t
      {
        ChangesNext(records, vals, change, tells, i);
        ComponentIs(e, i);
        var component := Component(e, i);
        if component.Some? {
          if Leaves(change, transform) && i == transform {
            LeavesMeans(change, transform, component.value);
          }
          told := told || tells(i, component.value);
          ghost var last := now;
          now := last[i := change(i, component.value)];
          Overwritten(all, e, last, now);
          SetValue(e, i, change(i, component.value));
        }
        i := i + 1;
      }
    }

    lemma ComponentIs(e: Entity, i: nat)
      requires Structure() && e in values
      ensures e in scene.transforms && e in AllValues()
      ensures Component(e, i) == if i in AllValues()[e] then Some(AllValues()[e][i]) else None
      ensures i == transform ==> Component(e, i) == Some(scene.transforms[e].local)
    {
      hide WellFormed;
      hide RegistryOk;
      MergedAt(records, values, scene.transforms, transform, e);
    }

    /** Adds the resources one entity refers to. */
    method CollectEntity(e: Entity, ids: seq<nat>) returns (ids': seq<nat>)
      requires Structure() && e in values && Distinct(ids)
      ensures e in AllValues() && Distinct(ids')
      ensures forall id :: id in ids' <==> id in ids || RefersToAsset(records, AllValues()[e], id)
    {
      hide *;
      Facts();
      StoredOk();
      ghost var vals := AllValues()[e];
      ids' := ids;
      forall id ensures !SomeFirst(vals, Referring(records, id), 0) {
        NoneReferring(records, vals, id);
      }
      var i := 0;
      while i < |records|
        invariant i <= |records| && Distinct(ids')
        invariant forall id :: id in ids' <==> id in ids || SomeFirst(vals, Referring(records, id), i)
      {
        forall id
          ensures SomeFirst(vals, Referring(records, id), i + 1) <==>
                  SomeFirst(vals, Referring(records, id), i) || (i in vals && id in records[i].assets(vals[i]))
        {
          NextReferring(records, vals, id, i);
        }
        ComponentIs(e, i);
        var component := Component(e, i);
        if component.Some? {
          ids' := AddIds(ids', records[i].assets(component.value));
        }
        i := i + 1;
      }
      forall id ensures RefersToAsset(records, vals, id) <==> SomeFirst(vals, Referring(records, id), |records|) {
        ReferringMeans(records, vals, id);
      }
    }

    /** The roots, to start listing from. */
    method StartListing() returns (entities: seq<Entity>, ghost parents: seq<int>)
      requires scene.Structure()
      ensures Apart(scene.forest, entities) && BfsAt(scene.forest, entities, entities, parents, 0)
      ensures forall x :: x in scene.forest.parent ==> UnderAny(scene.forest, x, entities)
    {
      hide WellFormed;
      hide Links.Linked;
      hide BfsAt;
      hide Apart;
      hide UnderAny;
      Links.LinkedKeys(scene.hierarchy, scene.forest);
      entities := scene.GetRoots();
      RootsApart(scene.forest, entities);
      BfsStarts(scene.forest, entities);
      parents := Repeat(|entities|, -1);
    }

    /** Appends the children of the entity at `index`. */
    method ListChildren(entities: seq<Entity>, index: nat, ghost roots: seq<Entity>, ghost parents: seq<int>)
      returns (entities': seq<Entity>, ghost parents': seq<int>)
      requires Structure() && Apart(scene.forest, roots) && BfsAt(scene.forest, roots, entities, parents, index) && index < |entities|
      ensures BfsAt(scene.forest, roots, entities', parents', index + 1)
      ensures index < |entities'| && index < |scene.forest.parent|
      ensures Distinct(entities') && entities'[index] == entities[index] && entities'[..index] == entities[..index]
      ensures entities[index] in values && entities[index] in AllValues()
      ensures AllValues() == old(AllValues())
    {
      hide *;
      Facts();
      ghost var f, all := scene.forest, AllValues();
      BfsBound(f, roots, entities, parents, index);
      BfsStep(f, roots, entities, parents, index);
      var children := scene.GetChildren(entities[index]);
      assert AllValues() == all;
      entities' := entities + children;
      parents' := parents + Repeat(|children|, index);
      BfsDistinct(f, roots, entities', parents', index + 1);
      Holds(entities[index]);
    }

    /** Visits the values of every entity, breadth first. */
    method VisitReferences(change: (int, C) -> C, tells: (int, C) -> bool) returns (told: bool)
      requires Structure()
      modifies this`values, scene`transforms
      ensures Structure() && scene.forest == old(scene.forest) && values.Keys == old(values.Keys)
      ensures AllValues() == ChangedAll(records, old(AllValues()), change)
      ensures told <==> SomeAny(records, old(AllValues()), tells)
      ensures Leaves(change, transform) ==> scene.transforms == old(scene.transforms)
    {
      hide *;
      ghost var f, all, t := scene.forest, AllValues(), scene.transforms;
      Facts();
      var entities;
      ghost var roots, parents;
      entities, parents := StartListing();
      roots := entities;
      assert AllValues() == all;
      NoneVisited(records, all, entities, change, tells);
      told := false;
      var index := 0;
      while index < |entities|
        invariant Structure() && scene.forest == f && values.Keys == old(values.Keys)
        invariant BfsAt(f, roots, entities, parents, index) && index <= |entities|
        invariant ChangedTo(records, all, AllValues(), entities[..index], change)
        invariant told <==> SomeTo(records, all, entities[..index], tells)
        invariant Leaves(change, transform) ==> scene.transforms == t
        decreases |f.parent| - index
      {
        ghost var now := AllValues();
        entities, parents := ListChildren(entities, index, roots, parents);
        NextChanged(records, all, now, entities, index, change);
        NextTold(records, all, entities, index, tells);
        var found := VisitEntity(entities[index], change, tells);
        told := told || found;
        index := index + 1;
      }
      assert entities[..index] == entities;
      BfsLength(f, roots, entities, parents, index);
      BfsDone(f, roots, entities, parents);
      Facts();
      AllVisited(records, all, AllValues(), entities, change, tells);
    }

    /** The resources the scene refers to, each once. */
    method CollectReferences() returns (ids: seq<nat>)
      requires Structure()
      ensures Distinct(ids)
      ensures forall id :: id in ids <==> SomeAny(records, AllValues(), Referring(records, id))
    {
      hide *;
      ghost var f, all := scene.forest, AllValues();
      Facts();
      var entities;
      ghost var roots, parents;
      entities, parents := StartListing();
      roots := entities;
      assert AllValues() == all;
      ids := [];
      NothingDistinct<nat>();
      forall id ensures !SomeTo(records, all, entities[..0], Referring(records, id)) {
        NoneVisited(records, all, entities, (i, c) => c, Referring(records, id));
      }
      var index := 0;
      while index < |entities|
        invariant BfsAt(f, roots, entities, parents, index) && index <= |entities| && Distinct(ids)
        invariant Structure() && scene.forest == f && AllValues() == all
        invariant forall id :: id in ids <==> SomeTo(records, all, entities[..index], Referring(records, id))
        decreases |f.parent| - index
      {
        entities, parents := ListChildren(entities, index, roots, parents);
        forall id
          ensures SomeTo(records, all, entities[..index + 1], Referring(records, id)) <==>
                  SomeTo(records, all, entities[..index], Referring(records, id)) || RefersToAsset(records, all[entities[index]], id)
        {
          NextTold(records, all, entities, index, Referring(records, id));
          ReferringMeans(records, all[entities[index]], id);
        }
        ids := CollectEntity(entities[index], ids);
        index := index + 1;
      }
      assert entities[..index] == entities;
      BfsLength(f, roots, entities, parents, index);
      BfsDone(f, roots, entities, parents);
      Facts();
      forall id ensures SomeAny(records, all, Referring(records, id)) <==> SomeTo(records, all, entities, Referring(records, id)) {
        AllVisited(records, all, all, entities, (i, c) => c, Referring(records, id));
      }
    }

    /** Replaces the row numbers in the values of every entity, and tells if one is past the last row. */
    method ResolveReferences(list: seq<Entity>) returns (malformed: bool)
      requires Structure()
      modifies this`values, scene`transforms
      ensures Structure() && scene.forest == old(scene.forest) && values.Keys == old(values.Keys)
      ensures AllValues() == ChangedAll(records, old(AllValues()), Mapping(records, Reading(list)))
      ensures malformed <==> SomeAny(records, old(AllValues()), Misplaced(records, |list|))
    {
      hide *;
      malformed := VisitReferences(Mapping(records, Reading(list)), Misplaced(records, |list|));
    }

    /** Gives every reference to a resource the handle of its entry. */
    method FillHandles(handles: map<nat, Entity>)
      requires Structure()
      modifies this`values, scene`transforms
      ensures Structure() && scene.forest == old(scene.forest) && values.Keys == old(values.Keys)
      ensures AllValues() == ChangedAll(records, old(AllValues()), Filling(records, handles))
      ensures AllFilled(records, old(AllValues()), AllValues(), handles)
      ensures scene.transforms == old(scene.transforms) && (old(scene.Fresh()) ==> scene.Fresh())
    {
      hide ComponentScene.Structure;
      hide ComponentScene.AllValues;
      hide Scene.Structure;
      hide WorldsOk;
      hide RegistryOk;
      hide HasNoAssets;
      hide Leaves;
      hide Filling;
      hide ChangedAll;
      hide AllFilled;
      hide ValuesOk;
      Facts();
      StoredOk();
      AllFilledBy(records, AllValues(), handles);
      TransformPlain();
      FillingNone(records, transform, handles);
      var told := VisitReferences(Filling(records, handles), (i, c) => false);
    }

    lemma TransformPlain()
      requires Structure()
      ensures RegistryOk(records) && transform < |records| && HasNoAssets(records[transform])
    {
      hide WellFormed;
      hide RegistryOk;
      hide HasNoAssets;
      StoreRecord(records, values, scene.transforms, transform);
    }

    /** Reads one row: creates its entity, links it and reads its blocks. */
    method ReadRow(reader: Reader, entities: seq<Entity>, counts: seq<nat>, ghost rows: seq<Row>)
      returns (error: Option<ReadError>, entity: Entity, counts': seq<nat>, ghost row: Row)
      requires Structure() && scene.Stored() && reader.Valid() && reader.error.None?
      requires scene.Spare() > 0 || |reader.Rest()| < ROW_SIZE
      requires Built(scene.forest, entities, ParentsOf(rows)) && CountsOk(scene.forest, entities, counts)
      requires RowsRead(records, AllValues(), rows, entities)
      modifies this`values, scene, scene.slots, reader
      ensures Structure() && scene.Stored() && reader.Valid()
      ensures error.Some? ==> ScanRow(old(reader.Rest()), |rows|) == Bad(error.value)
      ensures error.None? ==> reader.error.None? && ScanRow(old(reader.Rest()), |rows|) == Got(row, reader.Rest())
      ensures error.None? ==> |old(reader.Rest())| >= ROW_SIZE + |reader.Rest()| && scene.Spare() >= old(scene.Spare()) - 1
      ensures error.None? ==> Built(scene.forest, entities + [entity], ParentsOf(rows + [row]))
      ensures error.None? ==> CountsOk(scene.forest, entities + [entity], counts')
      ensures error.None? ==> RowsRead(records, AllValues(), rows + [row], entities + [entity])
    {
      hide *;
      ghost var before, here := AllValues(), |rows|;
      RowsReadCount(records, before, rows, entities);
      RowParts(reader.Rest(), here);
      var parent, count;
      error, parent, count := TakeHead(reader, |entities|);
      if error.Some? {
        return error, NONE, counts, Row(0, 0, []);
      }
      scene.SpareRoom();
      entity, counts' := AddRow(parent, entities, counts, ParentsOf(rows));
      Facts();
      ghost var behind := reader.Rest();
      ghost var blocks := ReadBlocks(entity, reader, count);
      row := Row(here, parent, blocks);
      if reader.error.Some? {
        return reader.error, NONE, counts, row;
      }
      BlocksTake(behind, count);
      ReadNext(records, before, rows, row, entities, entity);
    }

    /** Creates the entities of the rows, links them and reads their blocks; it stops at the first row that is
        cut off or out of place, leaving the scene empty. */
    method ReadRows(reader: Reader, count: nat) returns (error: Option<ReadError>, entities: seq<Entity>, ghost rows: seq<Row>)
      requires Structure() && scene.Stored() && scene.forest == EMPTY && reader.Valid() && reader.error.None?
      requires Room(scene.Spare(), count, |reader.Rest()|)
      modifies this`values, scene, scene.slots, reader
      ensures Structure() && scene.Stored() && reader.Valid()
      ensures error.Some? ==> ScanRows(old(reader.Rest()), 0, count) == Bad(error.value) && scene.Fresh() && scene.forest == EMPTY
      ensures error.None? ==> reader.error.None? && ScanRows(old(reader.Rest()), 0, count) == Got(rows, reader.Rest())
      ensures error.None? ==> Built(scene.forest, entities, ParentsOf(rows)) && RowsRead(records, AllValues(), rows, entities)
    {
      hide *;
      Facts();
      NothingRead(records, AllValues());
      ghost var scan := ScanRows(reader.Rest(), 0, count);
      PrefixedNone(scan);
      error, entities, rows := None, [], [];
      var counts: seq<nat> := [];
      var row := 0;
      while row < count
        invariant row <= count && |rows| == row && reader.Valid() && reader.error.None?
        invariant Structure() && scene.Stored() && Room(scene.Spare(), count - row, |reader.Rest()|) && error.None?
        invariant Built(scene.forest, entities, ParentsOf(rows)) && CountsOk(scene.forest, entities, counts)
        invariant RowsRead(records, AllValues(), rows, entities)
        invariant scan == Prefixed(rows, ScanRows(reader.Rest(), row, count))
      {
        RowsGoOn(scan, rows, reader.Rest(), row, count);
        RoomForOne(scene.Spare(), count - row, |reader.Rest()|);
        ghost var spare, left := scene.Spare(), |reader.Rest()|;
        var entity;
        ghost var next;
        error, entity, counts, next := ReadRow(reader, entities, counts, rows);
        if error.Some? {
          Fail();
          return;
        }
        RoomForOthers(spare, count - row, left, scene.Spare(), |reader.Rest()|);
        entities, rows := entities + [entity], rows + [next];
        row := row + 1;
      }
      NoMoreRows(rows, reader.Rest(), count);
    }

    /** Reads bytes into an empty scene: it succeeds exactly on the bytes of a file whose rows can be read, and
        then holds what they say, every cached world refreshed; otherwise it leaves the scene empty. */
    method Read(bytes: seq<Byte>) returns (error: Option<ReadError>, id: nat, ghost rows: seq<Row>, ghost list: seq<Entity>)
      requires Structure() && scene.Stored() && scene.forest == EMPTY && RoomFor(scene.Spare(), bytes)
      modifies this`values, scene, scene.slots
      ensures Structure() && scene.Stored() && scene.Fresh()
      ensures error == Outcome(records, bytes)
      ensures error.None? ==> ScanFile(bytes) == Got((id, rows), []) && Rebuilt(records, scene.forest, AllValues(), rows, list)
      ensures error.None? ==> RowsResolved(records, AllValues(), rows, list)
      ensures error.Some? ==> scene.forest == EMPTY
    {
      hide *;
      rows, list := [], [];
      RoomMeans(scene.Spare(), bytes);
      FileParts(bytes);
      OutcomeMeans(records, bytes);
      var reader := new Reader(bytes);
      var count;
      id, count := TakeStart(reader);
      if reader.error.Some? {
        error := reader.error;
        Fail();
        return;
      }
      var entities;
      error, entities, rows := ReadRows(reader, count);
      if error.Some? {
        return;
      }
      if reader.Rest() != [] {
        error := Some(Malformed);
        Fail();
        return;
      }
      ghost var all, f := AllValues(), scene.forest;
      Facts();
      var malformed := ResolveReferences(entities);
      ScannedInPlace(bytes);
      RowsReadCount(records, all, rows, entities);
      MalformedIs(records, all, rows, entities, f);
      if malformed {
        error := Some(Malformed);
        Fail();
        return;
      }
      RebuiltBy(records, all, rows, entities, f);
      RefreshWorlds();
      list := entities;
      StoredOk();
      RebuiltResolved(records, f, AllValues(), rows, list);
    }

    /** Refreshes the cached worlds, which changes no component value. */
    method RefreshWorlds()
      requires Structure()
      modifies scene`transforms
      ensures Structure() && scene.Fresh()
      ensures AllValues() == old(AllValues())
    {
      hide WellFormed;
      hide Links.Linked;
      hide RegistryOk;
      hide StoreOk;
      hide Merged;
      hide Locals;
      ghost var t := scene.transforms;
      scene.PropagateTransforms();
      StoreIgnoresWorlds(records, values, t, scene.transforms, transform);
    }
  }

  /** Reading into one scene leaves the other alone. */
  method ReadBeside<C(!new), M(!new)>(source: ComponentScene<C, M>, target: ComponentScene<C, M>, bytes: seq<Byte>)
    returns (error: Option<ReadError>, id: nat, ghost rows: seq<Row>, ghost to: seq<Entity>)
    requires target.Structure() && target.scene.Stored() && target.scene.forest == EMPTY
    requires target != source && target.scene != source.scene && RoomFor(target.scene.Spare(), bytes)
    modifies target`values, target.scene, target.scene.slots
    ensures target.Structure() && target.scene.Fresh() && error == Outcome(target.records, bytes)
    ensures error.None? ==>
              ScanFile(bytes) == Got((id, rows), [])
              && Rebuilt(target.records, target.scene.forest, target.AllValues(), rows, to)
    ensures source.AllValues() == old(source.AllValues()) && source.scene.forest == old(source.scene.forest)
  {
    hide *;
    error, id, rows, to := target.Read(bytes);
  }

  /** A scene written out and read into an empty one: unless a payload is too long to be written, this never
      fails, and the other scene then mirrors the first. */
  method Copy<C(!new), M(!new)>(source: ComponentScene<C, M>, target: ComponentScene<C, M>, id: nat)
    returns (fits: bool, error: Option<ReadError>, id': nat, ghost rows: seq<Row>, ghost roots: seq<Entity>,
             ghost from: seq<Entity>, ghost parents: seq<int>, ghost to: seq<Entity>)
    requires source.Structure() && |source.scene.hierarchy| < NO_PARENT && RegistryFits(source.records) && id < Pow256(8)
    requires target.Structure() && target.scene.Stored() && target.scene.forest == EMPTY
    requires target != source && target.scene != source.scene && target.records == source.records
    requires target.scene.Spare() >= |source.scene.hierarchy|
    modifies target`values, target.scene, target.scene.slots
    ensures WellFormed(source.scene.forest) && source.AllValues() == old(source.AllValues())
    ensures Described(source.records, source.scene.forest, source.AllValues(), rows, roots, from, parents)
    ensures fits <==> PayloadsFit(rows)
    ensures fits ==> error.None? && id' == id && target.Structure() && target.scene.Fresh()
    ensures fits ==>
              Mirrored(source.records, source.scene.forest, source.AllValues(), from, target.scene.forest, target.AllValues(), to)
  {
    hide *;
    error, id', to := None, 0, [];
    source.StoredOk();
    source.Facts();
    ghost var f, vals := source.scene.forest, source.AllValues();
    var buffer := new ByteBuffer();
    fits, rows, roots, from, parents := source.Write(id, buffer);
    assert source.scene.forest == f && source.AllValues() == vals;
    if !fits {
      return;
    }
    NothingBefore(FileBytes(0, id, rows));
    FileBack(0, id, rows);
    OutcomeMeans(source.records, buffer.bytes);
    RoomForRows(0, id, rows, target.scene.Spare());
    ghost var read;
    error, id', read, to := ReadBeside(source, target, buffer.bytes);
    assert source.scene.forest == f;
    BothMirrored(source.records, f, vals, rows, roots, from, parents, target.scene.forest, target.AllValues(), to);
  }

  lemma NothingBefore(bytes: seq<Byte>)
    ensures [] + bytes == bytes
  {
  }

  /** The same forest entity by entity, and the same values but for renamed references and emptied handles. */
  ghost predicate Mirrored<C>(records: seq<Record<C>>, f0: Forest, vals0: map<Entity, Values<C>>, from: seq<Entity>,
                              f1: Forest, vals1: map<Entity, Values<C>>, to: seq<Entity>)
  {
    && Isomorphic(f0, from, f1, to)
    && forall i :: 0 <= i < |from| ==>
         && from[i] in vals0 && to[i] in vals1
         && vals1[to[i]] == MapValues(records, BareValues(records, vals0[from[i]]), Renaming(from, to))
         && ValuesRenamed(records, vals0[from[i]], vals1[to[i]], from, to)
  }

  lemma BothMirrored<C(!new)>(records: seq<Record<C>>, f0: Forest, vals0: map<Entity, Values<C>>, rows: seq<Row>,
                              roots: seq<Entity>, from: seq<Entity>, parents: seq<int>,
                              f1: Forest, vals1: map<Entity, Values<C>>, to: seq<Entity>)
    requires RegistryOk(records) && WellFormed(f0) && |from| < NO_PARENT
    requires forall e :: e in vals0 ==> ValuesOk(records, vals0[e])
    requires Described(records, f0, vals0, rows, roots, from, parents)
    requires Rebuilt(records, f1, vals1, rows, to)
    ensures Mirrored(records, f0, vals0, from, f1, vals1, to)
  {
    hide RegistryOk;
    hide Described;
    hide Rebuilt;
    hide MapValues;
    hide ValuesRenamed;
    RoundTrip(records, f0, vals0, rows, roots, from, parents, f1, vals1, to);
  }
}
