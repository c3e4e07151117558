/** Opening a pack and reading from it. */
module PackReaders {
  import opened Serialization
  import opened Wrappers
  import opened PackFormat

  /** A range of a file, if the file is long enough. */
  function ReadRange(file: seq<Byte>, offset: nat, size: nat): Option<seq<Byte>> {
    if offset + size > |file| then None else Some(file[offset..offset + size])
  }

  /** The number stored at a place of a file. */
  function Field(file: seq<Byte>, at: nat, width: nat): nat
    requires at + width <= |file|
  {
    FromLittleEndian(file[at..at + width])
  }

  function TableEnd(count: nat): nat {
    PACK_HEADER_SIZE + count * PACK_ENTRY_SIZE
  }

  /** The count of entries a file with a good header declares. */
  function CountOf(file: seq<Byte>): nat
    requires PACK_HEADER_SIZE <= |file|
  {
    Field(file, 8, 4)
  }

  function EntryAt(file: seq<Byte>, i: nat): PackEntry
    requires TableEnd(i + 1) <= |file|
  {
    var at := TableEnd(i);
    PackEntry(Field(file, at, 8), Field(file, at + 8, 8), Field(file, at + 16, 8), Field(file, at + 24, 8))
  }

  ghost predicate HeaderOk(file: seq<Byte>) {
    PACK_HEADER_SIZE <= |file| && Field(file, 0, 4) == PACK_KIND.magic && Field(file, 4, 2) == PACK_KIND.version
  }

  /** An entry inside the file, past the table, aligned. */
  ghost predicate Inside(file: seq<Byte>, e: PackEntry) {
    PACK_HEADER_SIZE <= |file| && e.offset % PACK_ALIGNMENT == 0 && TableEnd(CountOf(file)) <= e.offset && e.offset + e.size <= |file|
  }

  ghost predicate EntryOk(file: seq<Byte>, i: nat) {
    && TableEnd(i + 1) <= |file| && EntryAt(file, i).id != 0
    && (i > 0 ==> TableEnd(i) <= |file| && EntryAt(file, i - 1).id < EntryAt(file, i).id)
    && Inside(file, EntryAt(file, i))
  }

  ghost predicate BootOk(file: seq<Byte>)
    requires PACK_HEADER_SIZE <= |file|
  {
    Field(file, 20, 8) == 0 || (TableEnd(CountOf(file)) <= Field(file, 12, 8) && Field(file, 12, 8) + Field(file, 20, 8) <= |file|)
  }

  /** `entries` are the first rows of the table. */
  ghost predicate RowsAre(file: seq<Byte>, entries: seq<PackEntry>) {
    forall i {:trigger entries[i]} :: 0 <= i < |entries| ==> RowIs(file, i, entries[i])
  }

  ghost predicate RowIs(file: seq<Byte>, i: nat, entry: PackEntry) {
    TableEnd(i + 1) <= |file| && entry == EntryAt(file, i)
  }

  /** Rows in order are inside the file, with rising ids. */
  lemma RowsRise(file: seq<Byte>, entries: seq<PackEntry>, count: nat)
    requires RowsAre(file, entries) && |entries| == count && forall i :: 0 <= i < count ==> EntryOk(file, i)
    ensures forall i :: 0 <= i < count ==> Inside(file, entries[i])
    ensures forall i, j :: 0 <= i < j < count ==> entries[i].id < entries[j].id
  {
    hide Inside;
    forall i | 0 <= i < count ensures Inside(file, entries[i]) {
      assert EntryOk(file, i);
    }
    forall i, j | 0 <= i < j < count ensures entries[i].id < entries[j].id {
      IdsRise(file, entries, i, j);
    }
  }

  lemma {:induction false} IdsRise(file: seq<Byte>, entries: seq<PackEntry>, i: nat, j: nat)
    requires RowsAre(file, entries) && i < j < |entries| && forall k :: 0 <= k < |entries| ==> EntryOk(file, k)
    ensures entries[i].id < entries[j].id
    decreases j
  {
    hide Inside;
    assert EntryOk(file, j) && entries[j] == EntryAt(file, j) && entries[j - 1] == EntryAt(file, j - 1);
    if i < j - 1 {
      IdsRise(file, entries, i, j - 1);
    }
  }

  lemma RowsMore(file: seq<Byte>, entries: seq<PackEntry>, entry: PackEntry)
    requires RowsAre(file, entries) && TableEnd(|entries| + 1) <= |file| && entry == EntryAt(file, |entries|)
    ensures RowsAre(file, entries + [entry])
  {
    var all := entries + [entry];
    assert RowIs(file, |entries|, entry);
    hide RowIs;
    forall i | 0 <= i < |all| ensures RowIs(file, i, all[i]) {
      assert all[i] == if i < |entries| then entries[i] else entry;
    }
  }

  /** The files that open accepts. */
  ghost predicate WellFormed(file: seq<Byte>) {
    && HeaderOk(file) && TableEnd(CountOf(file)) <= |file|
    && (forall i :: 0 <= i < CountOf(file) ==> EntryOk(file, i))
    && BootOk(file)
  }

  /** The header of a file, field by field. */
  lemma HeaderFields(file: seq<Byte>)
    ensures PACK_HEADER_SIZE == 28 && BLOB_HEADER_SIZE == 8
    ensures |file| < 28 ==> ReadRange(file, 0, PACK_HEADER_SIZE) == None && !HeaderOk(file)
    ensures |file| >= 28 ==>
              var bytes := file[..28];
              && ReadRange(file, 0, PACK_HEADER_SIZE) == Some(bytes) && |bytes| == 28
              && FromLittleEndian(bytes[0..4]) == Field(file, 0, 4) && FromLittleEndian(bytes[4..6]) == Field(file, 4, 2)
              && FromLittleEndian(bytes[8..12]) == CountOf(file) && FromLittleEndian(bytes[12..20]) == Field(file, 12, 8)
              && FromLittleEndian(bytes[20..28]) == Field(file, 20, 8)
              && (HeaderOk(file) <==> Field(file, 0, 4) == PACK_KIND.magic && Field(file, 4, 2) == PACK_KIND.version)
  {
    hide FromLittleEndian;
    if |file| >= 28 {
      var bytes := file[..28];
      assert bytes[0..4] == file[0..4] && bytes[4..6] == file[4..6] && bytes[8..12] == file[8..12];
      assert bytes[12..20] == file[12..20] && bytes[20..28] == file[20..28] && file[0..28] == bytes;
    }
  }

  class PackReader {
    const file: seq<Byte>
    var entries: seq<PackEntry>
    var record: PackEntry

    /** Whatever is listed lies in the file, and the ids rise. */
    ghost predicate Valid()
      reads this
    {
      && (forall i :: 0 <= i < |entries| ==> Inside(file, entries[i]))
      && (forall i, j :: 0 <= i < j < |entries| ==> entries[i].id < entries[j].id)
      && record.offset + record.size <= |file|
    }

    constructor (file: seq<Byte>)
      ensures Valid() && this.file == file && entries == [] && record == NO_RECORD
    {
      this.file, entries, record := file, [], NO_RECORD;
    }

    /** Reads the header and the table, and takes them only if all of it holds together. */
    method Open() returns (error: Option<ReadError>)
      modifies this
      ensures Valid()
      ensures error.None? <==> WellFormed(file)
      ensures error.None? ==> |entries| == CountOf(file)
                              && RowsAre(file, entries)
                              && record == (if Field(file, 20, 8) == 0 then NO_RECORD
                                            else PackEntry(0, 0, Field(file, 12, 8), Field(file, 20, 8)))
      ensures error.Some? ==> entries == [] && record == NO_RECORD
      ensures |file| < PACK_HEADER_SIZE ==> error == Some(Truncated)
      ensures |file| >= PACK_HEADER_SIZE && Field(file, 0, 4) != PACK_KIND.magic ==> error == Some(BadMagic)
      ensures |file| >= PACK_HEADER_SIZE && Field(file, 0, 4) == PACK_KIND.magic && Field(file, 4, 2) != PACK_KIND.version ==>
                error == Some(BadVersion)
      ensures HeaderOk(file) && |file| < TableEnd(CountOf(file)) ==> error == Some(Truncated)
      ensures HeaderOk(file) && |file| >= TableEnd(CountOf(file)) && !WellFormed(file) ==> error == Some(Malformed)
    {
      entries, record := [], NO_RECORD;
      var headerError, count, bootOffset, bootSize := ReadPackHeader();
      if headerError.Some? {
        return headerError;
      }
      var tableEnd := TableEnd(count);
      var table := ReadRange(file, PACK_HEADER_SIZE, count * PACK_ENTRY_SIZE);
      if table.None? {
        return Some(Truncated);
      }
      var malformed, read := ReadTable(table.value, count);
      if malformed {
        return Some(Malformed);
      }
      if bootSize != 0 && (bootOffset < tableEnd || bootOffset > |file| || bootSize > |file| - bootOffset) {
        return Some(Malformed);
      }
      RowsRise(file, read, count);
      entries := read;
      if bootSize != 0 {
        record := PackEntry(0, 0, bootOffset, bootSize);
      }
      error := None;
    }

    method ReadPackHeader() returns (error: Option<ReadError>, count: nat, bootOffset: nat, bootSize: nat)
      ensures error.None? <==> HeaderOk(file)
      ensures error.None? ==> count == CountOf(file) && bootOffset == Field(file, 12, 8) && bootSize == Field(file, 20, 8)
      ensures |file| < PACK_HEADER_SIZE ==> error == Some(Truncated)
      ensures |file| >= PACK_HEADER_SIZE && Field(file, 0, 4) != PACK_KIND.magic ==> error == Some(BadMagic)
      ensures |file| >= PACK_HEADER_SIZE && Field(file, 0, 4) == PACK_KIND.magic && Field(file, 4, 2) != PACK_KIND.version ==>
                error == Some(BadVersion)
    {
      hide *;
      HeaderFields(file);
      count, bootOffset, bootSize := 0, 0, 0;
      var header := ReadRange(file, 0, PACK_HEADER_SIZE);
      if header.None? {
        return Some(Truncated), count, bootOffset, bootSize;
      }
      var bytes := header.value;
      var reader := new Reader(bytes);
      reader.ReadHeader(PACK_KIND);
      count := reader.ReadNumber(4);
      bootOffset := reader.ReadNumber(8);
      bootSize := reader.ReadNumber(8);
      error := reader.error;
    }

    /** Reads and checks the rows of the table, one by one. */
    method ReadTable(table: seq<Byte>, count: nat) returns (malformed: bool, read: seq<PackEntry>)
      requires HeaderOk(file) && count == CountOf(file) && TableEnd(count) <= |file|
      requires table == file[PACK_HEADER_SIZE..TableEnd(count)]
      ensures !malformed <==> forall i :: 0 <= i < count ==> EntryOk(file, i)
      ensures !malformed ==> |read| == count && RowsAre(file, read)
    {
      hide *;
      malformed, read := false, [];
      NoRows(file);
      var reader := new Reader(table);
      var tableEnd := TableEnd(count);
      var index := 0;
      while index < count
        invariant 0 <= index <= count && |read| == index && !malformed
        invariant reader.Valid() && reader.error.None? && reader.position == index * PACK_ENTRY_SIZE
        invariant RowsAre(file, read)
        invariant forall i :: 0 <= i < index ==> EntryOk(file, i)
      {
        RowFits(count, index);
        var entry := ReadRow(reader, index, count);
        RowChecked(file, read, count, entry);
        if entry.id == 0 || (read != [] && entry.id <= read[|read| - 1].id) {
          malformed := true;
          return;
        }
        if entry.offset % PACK_ALIGNMENT != 0 || entry.offset < tableEnd || entry.offset > |file| || entry.size > |file| - entry.offset {
          malformed := true;
          return;
        }
        RowsMore(file, read, entry);
        read := read + [entry];
        index := index + 1;
      }
    }

    method ReadRow(reader: Reader, index: nat, ghost count: nat) returns (entry: PackEntry)
      requires index < count && TableEnd(count) <= |file| && TableEnd(index + 1) <= TableEnd(count)
      requires reader.buffer == file[PACK_HEADER_SIZE..TableEnd(count)]
      requires reader.Valid() && reader.error.None? && reader.position == index * PACK_ENTRY_SIZE
      modifies reader
      ensures reader.Valid() && reader.error.None? && reader.position == (index + 1) * PACK_ENTRY_SIZE
      ensures TableEnd(index + 1) <= |file| && entry == EntryAt(file, index)
    {
      hide *;
      ghost var at := index * PACK_ENTRY_SIZE;
      RowPlace(file, index, count);
      FieldOfSlice(file, PACK_HEADER_SIZE, TableEnd(count), at, 8);
      FieldOfSlice(file, PACK_HEADER_SIZE, TableEnd(count), at + 8, 8);
      FieldOfSlice(file, PACK_HEADER_SIZE, TableEnd(count), at + 16, 8);
      FieldOfSlice(file, PACK_HEADER_SIZE, TableEnd(count), at + 24, 8);
      var id := reader.ReadNumber(8);
      var typeTag := reader.ReadNumber(8);
      var offset := reader.ReadNumber(8);
      var size := reader.ReadNumber(8);
      var nameOffset := reader.ReadNumber(4);
      entry := PackEntry(id, typeTag, offset, size);
    }

    /** Looks an id up by bisection. */
    method Find(id: nat) returns (found: bool, entry: PackEntry)
      requires Valid()
      ensures found <==> exists i :: 0 <= i < |entries| && entries[i].id == id
      ensures found ==> entry in entries && entry.id == id
    {
      var low, high := 0, |entries|;
      while low < high
        invariant 0 <= low <= high <= |entries|
        invariant forall i :: 0 <= i < low ==> entries[i].id < id
        invariant forall i :: high <= i < |entries| ==> id <= entries[i].id
      {
        var middle := low + (high - low) / 2;
        if entries[middle].id < id {
          low := middle + 1;
        } else {
          high := middle;
        }
      }
      if low == |entries| || entries[low].id != id {
        return false, NO_RECORD;
      }
      found, entry := true, entries[low];
    }

    method BootRecord() returns (found: bool, entry: PackEntry)
      requires Valid()
      ensures found <==> record.size != 0
      ensures found ==> entry == record && entry.offset + entry.size <= |file|
    {
      found, entry := record.size != 0, record;
    }

    /** Reading a listed entry, or the boot record, never fails; what is read are the bytes at the entry's place. */
    method Read(entry: PackEntry) returns (bytes: Option<seq<Byte>>)
      requires Valid()
      ensures entry in entries || entry == record ==> bytes.Some?
      ensures bytes.None? <==> entry.offset + entry.size > |file|
      ensures bytes.Some? ==> |bytes.value| == entry.size
      ensures bytes.Some? ==> forall k :: 0 <= k < entry.size ==> bytes.value[k] == file[entry.offset + k]
    {
      bytes := ReadRange(file, entry.offset, entry.size);
    }
  }

  lemma NoRows(file: seq<Byte>)
    ensures RowsAre(file, []) && PACK_ALIGNMENT == 16
  {
  }

  /** The checks on the next row, after good ones. */
  lemma RowChecked(file: seq<Byte>, read: seq<PackEntry>, count: nat, entry: PackEntry)
    requires HeaderOk(file) && count == CountOf(file) && TableEnd(count) <= |file|
    requires RowsAre(file, read) && |read| < count && TableEnd(|read| + 1) <= |file| && entry == EntryAt(file, |read|)
    ensures EntryOk(file, |read|) <==>
            && entry.id != 0 && (read != [] ==> read[|read| - 1].id < entry.id)
            && entry.offset % PACK_ALIGNMENT == 0 && TableEnd(count) <= entry.offset && entry.offset + entry.size <= |file|
  {
    hide EntryAt;
    hide CountOf;
    hide TableEnd;
    if read != [] {
      assert RowIs(file, |read| - 1, read[|read| - 1]);
    }
  }

  /** Where row `index` begins and ends in the table and in the file, and what it holds. */
  lemma RowPlace(file: seq<Byte>, index: nat, count: nat)
    requires index < count && TableEnd(count) <= |file|
    ensures var at := index * PACK_ENTRY_SIZE;
            && 0 <= at && at + 36 == (index + 1) * PACK_ENTRY_SIZE
            && PACK_HEADER_SIZE <= TableEnd(count) && PACK_HEADER_SIZE + at + 36 == TableEnd(index + 1) <= TableEnd(count)
            && |file[PACK_HEADER_SIZE..TableEnd(count)]| == TableEnd(count) - PACK_HEADER_SIZE
            && EntryAt(file, index) == PackEntry(Field(file, PACK_HEADER_SIZE + at, 8), Field(file, PACK_HEADER_SIZE + at + 8, 8),
                                                 Field(file, PACK_HEADER_SIZE + at + 16, 8), Field(file, PACK_HEADER_SIZE + at + 24, 8))
  {
    hide Field;
    RowFits(count, index);
  }

  lemma RowFits(count: nat, index: nat)
    requires index < count
    ensures TableEnd(index + 1) <= TableEnd(count)
  {
  }

  /** A number read out of a slice is the number stored in the whole. */
  lemma FieldOfSlice(file: seq<Byte>, from: nat, to: nat, at: nat, width: nat)
    requires from <= to <= |file| && from + at + width <= to
    ensures FromLittleEndian(file[from..to][at..at + width]) == Field(file, from + at, width)
  {
    var a, b := file[from..to][at..at + width], file[from + at..from + at + width];
    forall k | 0 <= k < width ensures a[k] == b[k] {
      assert file[from..to][at + k] == file[from + at + k];
    }
    assert a == b;
  }
}
