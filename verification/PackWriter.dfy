/** Writing a pack. */
module PackWriters {
  import opened Serialization
  import opened Wrappers
  import opened PackFormat

  class PackWriter {
    var entries: seq<PackInput>
    var bootRecord: seq<Byte>

    ghost predicate Valid()
      reads this
    {
      && (forall i :: 0 <= i < |entries| ==> entries[i].id != 0)
      && (forall i, j :: 0 <= i < j < |entries| ==> entries[i].id != entries[j].id)
    }

    constructor ()
      ensures Valid() && entries == [] && bootRecord == []
    {
      entries, bootRecord := [], [];
    }

    method Add(input: PackInput)
      requires Valid() && input.id != 0 && forall i :: 0 <= i < |entries| ==> entries[i].id != input.id
      modifies this`entries
      ensures Valid() && entries == old(entries) + [input]
    {
      entries := entries + [input];
    }

    method SetBootRecord(record: seq<Byte>)
      modifies this`bootRecord
      ensures bootRecord == record
    {
      bootRecord := record;
    }

    /** Appends a whole pack to `out`. Padding only ever lengthens the output. */
    method Write(out: ByteBuffer) returns (ghost sorted: seq<PackInput>)
      requires Valid() && |entries| <= BLOB_MAX_COUNT && NamesFit(entries)
      modifies out
      ensures SortedInputs(sorted) && multiset(sorted) == multiset(entries)
      ensures out.bytes == old(out.bytes) + Image(sorted, bootRecord)
    {
      hide Image;
      hide Payloads;
      hide Front;
      hide Position;
      hide NamesBefore;
      var inputs := SortById(entries);
      sorted := inputs;
      NamesStillFit(entries, inputs);
      var nameOffsets, namesSize := NameOffsets(inputs);
      var payloadOffsets, position := PayloadOffsets(inputs, namesSize);
      var bootOffset := if bootRecord == [] then 0 else AlignUp(position);
      var start := |out.bytes|;
      WriteFront(out, inputs, nameOffsets, payloadOffsets, bootOffset);
      WritePayloads(out, inputs, payloadOffsets, start, old(out.bytes));
      WriteBoot(out, inputs, bootOffset, start, old(out.bytes));
    }

    method WriteFront(out: ByteBuffer, inputs: seq<PackInput>, nameOffsets: seq<nat>, payloadOffsets: seq<nat>, bootOffset: nat)
      requires |nameOffsets| == |payloadOffsets| == |inputs| && bootOffset == BootOffset(inputs, bootRecord)
      requires forall i :: 0 <= i < |inputs| ==> nameOffsets[i] == NamesBefore(inputs, i) && payloadOffsets[i] == PayloadOffset(inputs, i)
      requires forall i :: 0 <= i < |inputs| ==> |inputs[i].name| <= BLOB_MAX_COUNT
      modifies out
      ensures out.bytes == old(out.bytes) + Front(inputs, bootRecord)
    {
      hide LittleEndian;
      hide NamesBefore;
      hide PayloadOffset;
      hide BootOffset;
      ghost var before := out.bytes;
      var writer := new Writer(out);
      writer.WriteHeader(PACK_KIND);
      writer.WriteNumber(4, |inputs|);
      writer.WriteNumber(8, bootOffset);
      writer.WriteNumber(8, |bootRecord|);
      ghost var header := PackHeader(|inputs|, bootOffset, |bootRecord|);
      assert out.bytes == before + header;
      WriteTable(out, inputs, nameOffsets, payloadOffsets);
      WriteNames(out, inputs);
      Joined(before, header, TableBytes(inputs, |inputs|), NamesBytes(inputs, |inputs|));
    }

    method WriteTable(out: ByteBuffer, inputs: seq<PackInput>, nameOffsets: seq<nat>, payloadOffsets: seq<nat>)
      requires |nameOffsets| == |payloadOffsets| == |inputs|
      requires forall i :: 0 <= i < |inputs| ==> nameOffsets[i] == NamesBefore(inputs, i) && payloadOffsets[i] == PayloadOffset(inputs, i)
      modifies out
      ensures out.bytes == old(out.bytes) + TableBytes(inputs, |inputs|)
    {
      hide LittleEndian;
      hide NamesBefore;
      hide PayloadOffset;
      ghost var before := out.bytes;
      var writer := new Writer(out);
      var i := 0;
      assert before + TableBytes(inputs, 0) == before;
      while i < |inputs|
        invariant 0 <= i <= |inputs| && writer.buffer == out
        invariant out.bytes == before + TableBytes(inputs, i)
      {
        ghost var now := out.bytes;
        writer.WriteNumber(8, inputs[i].id);
        writer.WriteNumber(8, inputs[i].typeTag);
        writer.WriteNumber(8, payloadOffsets[i]);
        writer.WriteNumber(8, |inputs[i].payload|);
        writer.WriteNumber(4, nameOffsets[i]);
        assert out.bytes == now + RowBytes(inputs, i);
        i := i + 1;
      }
    }

    method WriteNames(out: ByteBuffer, inputs: seq<PackInput>)
      requires forall i :: 0 <= i < |inputs| ==> |inputs[i].name| <= BLOB_MAX_COUNT
      modifies out
      ensures out.bytes == old(out.bytes) + NamesBytes(inputs, |inputs|)
    {
      ghost var before := out.bytes;
      var writer := new Writer(out);
      var i := 0;
      assert before + NamesBytes(inputs, 0) == before;
      while i < |inputs|
        invariant 0 <= i <= |inputs| && writer.buffer == out
        invariant out.bytes == before + NamesBytes(inputs, i)
      {
        writer.WriteString(inputs[i].name);
        i := i + 1;
      }
    }

    method WritePayloads(out: ByteBuffer, inputs: seq<PackInput>, payloadOffsets: seq<nat>, start: nat, ghost before: seq<Byte>)
      requires |payloadOffsets| == |inputs| && forall i :: 0 <= i < |inputs| ==> payloadOffsets[i] == PayloadOffset(inputs, i)
      requires |before| == start && out.bytes == before + Front(inputs, bootRecord)
      modifies out
      ensures out.bytes == before + Payloads(inputs, bootRecord, |inputs|)
    {
      hide Payloads;
      hide Position;
      hide Front;
      FirstPayloads(inputs, bootRecord);
      var writer := new Writer(out);
      var i := 0;
      while i < |inputs|
        invariant 0 <= i <= |inputs| && writer.buffer == out
        invariant out.bytes == before + Payloads(inputs, bootRecord, i)
      {
        PayloadsStep(inputs, bootRecord, i + 1);
        out.Resize(start + payloadOffsets[i]);
        writer.WriteBytes(inputs[i].payload);
        i := i + 1;
      }
    }

    method WriteBoot(out: ByteBuffer, inputs: seq<PackInput>, bootOffset: nat, start: nat, ghost before: seq<Byte>)
      requires bootOffset == BootOffset(inputs, bootRecord)
      requires |before| == start && out.bytes == before + Payloads(inputs, bootRecord, |inputs|)
      modifies out
      ensures out.bytes == before + Image(inputs, bootRecord)
    {
      hide Payloads;
      hide Position;
      if bootRecord != [] {
        AlignUpIs(Position(inputs, |inputs|));
        var writer := new Writer(out);
        out.Resize(start + bootOffset);
        writer.WriteBytes(bootRecord);
      }
    }
  }

  lemma Joined(a: seq<Byte>, b: seq<Byte>, c: seq<Byte>, d: seq<Byte>)
    ensures ((a + b) + c) + d == a + (b + c + d)
  {
  }

  /** The names block fits its 32-bit offsets. */
  ghost predicate NamesFit(entries: seq<PackInput>) {
    NamesBefore(entries, |entries|) <= BLOB_MAX_COUNT
  }

  method NameOffsets(inputs: seq<PackInput>) returns (offsets: seq<nat>, namesSize: nat)
    ensures |offsets| == |inputs| && namesSize == NamesBefore(inputs, |inputs|)
    ensures forall i :: 0 <= i < |inputs| ==> offsets[i] == NamesBefore(inputs, i)
  {
    offsets, namesSize := [], 0;
    var i := 0;
    while i < |inputs|
      invariant 0 <= i <= |inputs| && |offsets| == i && namesSize == NamesBefore(inputs, i)
      invariant forall k :: 0 <= k < i ==> offsets[k] == NamesBefore(inputs, k)
    {
      offsets := offsets + [namesSize];
      namesSize := namesSize + 4 + |inputs[i].name|;
      i := i + 1;
    }
  }

  method PayloadOffsets(inputs: seq<PackInput>, namesSize: nat) returns (offsets: seq<nat>, position: nat)
    requires namesSize == NamesBefore(inputs, |inputs|)
    ensures |offsets| == |inputs| && position == Position(inputs, |inputs|)
    ensures forall i :: 0 <= i < |inputs| ==> offsets[i] == PayloadOffset(inputs, i)
  {
    offsets, position := [], PACK_HEADER_SIZE + |inputs| * PACK_ENTRY_SIZE + namesSize;
    var i := 0;
    while i < |inputs|
      invariant 0 <= i <= |inputs| && |offsets| == i && position == Position(inputs, i)
      invariant forall k :: 0 <= k < i ==> offsets[k] == PayloadOffset(inputs, k)
    {
      position := AlignUp(position);
      offsets := offsets + [position];
      position := position + |inputs[i].payload|;
      i := i + 1;
    }
  }

  // ----- Sorting -----

  method SortById(entries: seq<PackInput>) returns (sorted: seq<PackInput>)
    requires forall i, j :: 0 <= i < j < |entries| ==> entries[i].id != entries[j].id
    ensures SortedInputs(sorted) && multiset(sorted) == multiset(entries)
  {
    sorted := [];
    var i := 0;
    while i < |entries|
      invariant 0 <= i <= |entries| && SortedInputs(sorted) && multiset(sorted) == multiset(entries[..i])
    {
      FreshId(entries, i, sorted);
      sorted := InsertById(sorted, entries[i]);
      assert entries[..i + 1] == entries[..i] + [entries[i]];
      i := i + 1;
    }
    assert entries[..i] == entries;
  }

  lemma FreshId(entries: seq<PackInput>, i: nat, sorted: seq<PackInput>)
    requires i < |entries| && multiset(sorted) == multiset(entries[..i])
    requires forall i, j :: 0 <= i < j < |entries| ==> entries[i].id != entries[j].id
    ensures forall k :: 0 <= k < |sorted| ==> sorted[k].id != entries[i].id
  {
    forall k | 0 <= k < |sorted| ensures sorted[k].id != entries[i].id {
      assert sorted[k] in multiset(entries[..i]);
      var j :| 0 <= j < i && entries[..i][j] == sorted[k];
    }
  }

  method InsertById(s: seq<PackInput>, x: PackInput) returns (result: seq<PackInput>)
    requires SortedInputs(s) && forall k :: 0 <= k < |s| ==> s[k].id != x.id
    ensures SortedInputs(result) && multiset(result) == multiset(s) + multiset{x}
  {
    hide SortedInputs;
    var i := 0;
    while i < |s| && s[i].id < x.id
      invariant 0 <= i <= |s| && forall k :: 0 <= k < i ==> s[k].id < x.id
    {
      i := i + 1;
    }
    result := s[..i] + [x] + s[i..];
    InsertedById(s, i, x);
  }

  lemma InsertedById(s: seq<PackInput>, i: nat, x: PackInput)
    requires SortedInputs(s) && i <= |s| && (forall k :: 0 <= k < i ==> s[k].id < x.id) && (i < |s| ==> x.id < s[i].id)
    ensures SortedInputs(s[..i] + [x] + s[i..]) && multiset(s[..i] + [x] + s[i..]) == multiset(s) + multiset{x}
  {
    hide SortedInputs;
    SortedAround(s, i, x);
    MultisetAround(s, i, x);
  }

  lemma SortedAround(s: seq<PackInput>, i: nat, x: PackInput)
    requires SortedInputs(s) && i <= |s| && (forall k :: 0 <= k < i ==> s[k].id < x.id) && (i < |s| ==> x.id < s[i].id)
    ensures SortedInputs(s[..i] + [x] + s[i..])
  {
    var t := s[..i] + [x] + s[i..];
    forall j, k | 0 <= j < k < |t| ensures t[j].id < t[k].id {
      var a, b := if j < i then j else j - 1, if k < i then k else k - 1;
      if j == i {
        assert t[k] == s[b] && (i == b || s[i].id < s[b].id);
      } else if k == i {
        assert t[j] == s[a];
      } else {
        assert t[j] == s[a] && t[k] == s[b];
      }
    }
  }

  lemma MultisetAround(s: seq<PackInput>, i: nat, x: PackInput)
    requires i <= |s|
    ensures multiset(s[..i] + [x] + s[i..]) == multiset(s) + multiset{x}
  {
    var a, b := s[..i], s[i..];
    assert s == a + b;
    assert multiset(a + b) == multiset(a) + multiset(b);
    assert multiset(a + [x] + b) == multiset(a + [x]) + multiset(b);
  }

  /** The total size of the names does not depend on the order. */
  lemma NamesStillFit(entries: seq<PackInput>, sorted: seq<PackInput>)
    requires multiset(sorted) == multiset(entries) && NamesFit(entries)
    ensures forall i :: 0 <= i < |sorted| ==> |sorted[i].name| <= BLOB_MAX_COUNT
  {
    forall i | 0 <= i < |sorted| ensures |sorted[i].name| <= BLOB_MAX_COUNT {
      assert sorted[i] in multiset(entries);
      var j :| 0 <= j < |entries| && entries[j] == sorted[i];
      NamesGrow(entries, j + 1, |entries|);
    }
  }

  lemma {:induction false} NamesGrow(entries: seq<PackInput>, i: nat, j: nat)
    requires i <= j <= |entries|
    ensures NamesBefore(entries, i) <= NamesBefore(entries, j)
    decreases j
  {
    if i < j {
      NamesGrow(entries, i, j - 1);
    }
  }
}
