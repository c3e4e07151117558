/** One archetype: the entities with one set of component types, and a column for each type. */
module Archetypes {
  import opened Entities
  import opened ArchetypeTables

  class Archetype<V> {
    const signature: seq<TypeId>
    var entities: seq<Entity>
    var columns: map<TypeId, seq<V>>
    var adds: map<TypeId, Edge<Archetype<V>>>
    var removes: map<TypeId, Edge<Archetype<V>>>

    ghost function Value(): Table<Archetype<V>, V>
      reads this
    {
      Table(signature, entities, columns, adds, removes)
    }

    constructor (signature: seq<TypeId>)
      requires Sorted(signature)
      ensures Value() == Table(signature, [], EmptyColumns(signature), map[], map[])
      ensures TableOk(Value()) && Empty(Value())
    {
      this.signature := signature;
      entities := [];
      columns := EmptyColumns(signature);
      adds, removes := map[], map[];
    }

    /** Looks a type up in the sorted signature. */
    method Contains(c: TypeId) returns (found: bool)
      requires Sorted(signature)
      ensures found <==> c in TypesOf(signature)
    {
      var low, high := 0, |signature|;
      while low < high
        invariant 0 <= low <= high <= |signature|
        invariant forall i :: 0 <= i < low ==> signature[i] < c
        invariant forall i :: high <= i < |signature| ==> c < signature[i]
      {
        var middle := low + (high - low) / 2;
        if signature[middle] == c {
          return true;
        }
        if signature[middle] < c {
          low := middle + 1;
        } else {
          high := middle;
        }
      }
      found := false;
    }

    /** Appends a row of default values. */
    method AddEntity(entity: Entity, defaults: TypeId -> V) returns (row: nat)
      requires TableOk(Value())
      modifies this`entities, this`columns
      ensures row == |old(entities)|
      ensures Value() == RowAdded(old(Value()), entity, DefaultRow(old(columns).Keys, defaults))
    {
      row := |entities|;
      ghost var t := Value();
      entities := entities + [entity];
      columns := AppendDefaults(columns, defaults);
      assert columns == RowAdded(t, entity, DefaultRow(t.columns.Keys, defaults)).columns;
    }

    /** Appends a row filled from row `from` of other columns, with an added value where there is one. */
    method AppendCopy(entity: Entity, source: map<TypeId, seq<V>>, shared: seq<TypeId>, from: nat, ghost row: map<TypeId, V>,
                      added: Added<V>, defaults: TypeId -> V) returns (to: nat)
      requires TableOk(Value())
      requires forall c :: c in shared ==> c in columns && c in source && from < |source[c]| && c in row && row[c] == source[c][from]
      requires added.Value? ==> added.component in columns
      modifies this`entities, this`columns
      ensures to == |old(entities)|
      ensures old(columns).Keys == MovedRow(old(columns).Keys, shared, row, added, defaults).Keys
      ensures Value() == RowAdded(old(Value()), entity, MovedRow(old(columns).Keys, shared, row, added, defaults))
    {
      hide MovedRow;
      hide RowAdded;
      hide TableOk;
      ghost var t := Value();
      CellLengths(t);
      RowAddedShape(t, entity, DefaultRow(t.columns.Keys, defaults));
      to := AddEntity(entity, defaults);
      columns := CopyCells(columns, source, shared, to, from, added);
      CellsFilled(t, entity, Value(), source, shared, from, row, added, defaults);
    }

    /** Takes a row out; the last row takes its place, and its entity is given back. */
    method EraseSwap(row: nat) returns (swapped: Entity)
      requires TableOk(Value()) && row < |entities|
      modifies this`entities, this`columns
      ensures swapped == old(entities)[|old(entities)| - 1]
      ensures Value() == RowErased(old(Value()), row)
    {
      swapped := entities[|entities| - 1];
      ghost var t := Value();
      if row + 1 < |entities| {
        entities := entities[row := swapped];
      }
      entities := entities[..|entities| - 1];
      columns := EraseFromColumns(columns, row);
      assert columns == RowErased(t, row).columns;
    }
  }

  /** Copies the cells of one row, column by column, and sets the added one. */
  method CopyCells<V>(destination0: map<TypeId, seq<V>>, source: map<TypeId, seq<V>>, shared: seq<TypeId>,
                      to: nat, from: nat, added: Added<V>) returns (columns: map<TypeId, seq<V>>)
    requires forall c :: c in destination0 ==> to < |destination0[c]|
    requires forall c :: c in shared ==> c in destination0 && c in source && from < |source[c]|
    requires added.Value? ==> added.component in destination0
    ensures columns == map c | c in destination0 ::
              if added.Value? && c == added.component then destination0[c][to := added.value]
              else if c in shared then destination0[c][to := source[c][from]] else destination0[c]
  {
    columns := destination0;
    var i := 0;
    while i < |shared|
      invariant 0 <= i <= |shared| && columns.Keys == destination0.Keys
      invariant forall c :: c in columns ==>
                  columns[c] == if c in shared[..i] then destination0[c][to := source[c][from]] else destination0[c]
    {
      var c := shared[i];
      assert c in shared;
      columns := columns[c := columns[c][to := source[c][from]]];
      i := i + 1;
    }
    assert shared[..i] == shared;
    if added.Value? {
      var c := added.component;
      assert columns[c][to := added.value] == destination0[c][to := added.value];
      columns := columns[c := columns[c][to := added.value]];
    }
  }

  method AppendDefaults<V>(columns0: map<TypeId, seq<V>>, defaults: TypeId -> V) returns (columns: map<TypeId, seq<V>>)
    ensures columns == map c | c in columns0 :: columns0[c] + [defaults(c)]
  {
    columns := columns0;
    var rest := columns.Keys;
    while rest != {}
      invariant rest <= columns.Keys == columns0.Keys
      invariant forall c :: c in columns ==> columns[c] == if c in rest then columns0[c] else columns0[c] + [defaults(c)]
      decreases |rest|
    {
      var c :| c in rest;
      columns := columns[c := columns[c] + [defaults(c)]];
      rest := rest - {c};
    }
  }

  method EraseFromColumns<V>(columns0: map<TypeId, seq<V>>, row: nat) returns (columns: map<TypeId, seq<V>>)
    requires forall c :: c in columns0 ==> row < |columns0[c]|
    ensures columns == map c | c in columns0 :: SwapErased(columns0[c], row)
  {
    columns := columns0;
    var rest := columns.Keys;
    while rest != {}
      invariant rest <= columns.Keys == columns0.Keys
      invariant forall c :: c in columns ==> columns[c] == if c in rest then columns0[c] else SwapErased(columns0[c], row)
      decreases |rest|
    {
      var c :| c in rest;
      columns := columns[c := SwapErased(columns[c], row)];
      rest := rest - {c};
    }
  }

  function EmptyColumns<V>(signature: seq<TypeId>): (columns: map<TypeId, seq<V>>)
    ensures columns.Keys == TypesOf(signature)
  {
    map c | c in signature :: []
  }
}
