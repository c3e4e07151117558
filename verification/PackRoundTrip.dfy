/** What a pack writer wrote, a pack reader opens, and it reads back what was put in. */
module PackRoundTrips {
  import opened Serialization
  import opened Wrappers
  import opened PackFormat
  import opened PackWriters
  import opened PackReaders

  /** Every number in a pack fits the bytes it is stored in. */
  ghost predicate Fits(entries: seq<PackInput>, boot: seq<Byte>) {
    && |entries| <= BLOB_MAX_COUNT && |Image(entries, boot)| < 0x1_0000_0000_0000_0000
    && forall i :: 0 <= i < |entries| ==>
         0 < entries[i].id < 0x1_0000_0000_0000_0000 && entries[i].typeTag < 0x1_0000_0000_0000_0000
  }

  /** A number stored at the right place of a slice of the file is read back. */
  lemma StoredField(file: seq<Byte>, from: nat, part: seq<Byte>, at: nat, width: nat, value: nat)
    requires from + |part| <= |file| && file[from..from + |part|] == part
    requires at + width <= |part| && part[at..at + width] == LittleEndian(width, value) && value < Pow256(width)
    ensures Field(file, from + at, width) == value
  {
    FieldOfSlice(file, from, from + |part|, at, width);
    LittleEndianRoundTrip(width, value);
  }

  lemma RowParts(a: seq<Byte>, b: seq<Byte>, c: seq<Byte>, d: seq<Byte>, e: seq<Byte>)
    requires |a| == |b| == |c| == |d| == 8
    ensures var r := a + b + c + d + e;
            r[0..8] == a && r[8..16] == b && r[16..24] == c && r[24..32] == d && r[32..32 + |e|] == e
  {
  }

  lemma HeaderParts(a: seq<Byte>, b: seq<Byte>, c: seq<Byte>, d: seq<Byte>, e: seq<Byte>, f: seq<Byte>)
    requires |a| == 4 && |b| == 2 && |c| == 2 && |d| == 4 && |e| == |f| == 8
    ensures var h := (a + b + c) + d + e + f;
            h[0..4] == a && h[4..6] == b && h[8..12] == d && h[12..20] == e && h[20..28] == f
  {
  }

  lemma ImageHeader(entries: seq<PackInput>, boot: seq<Byte>)
    requires Fits(entries, boot)
    ensures var file := Image(entries, boot);
            && HeaderOk(file) && CountOf(file) == |entries|
            && Field(file, 12, 8) == BootOffset(entries, boot) && Field(file, 20, 8) == |boot|
  {
    hide Image;
    hide LittleEndian;
    hide BootOffset;
    hide Pow256;
    var file := Image(entries, boot);
    var bootOffset := BootOffset(entries, boot);
    ImageFront(entries, boot);
    BootFits(entries, boot);
    Pow256Four();
    var header := PackHeader(|entries|, bootOffset, |boot|);
    HeaderParts(LittleEndian(4, PACK_KIND.magic), LittleEndian(2, PACK_KIND.version), LittleEndian(2, 0),
                LittleEndian(4, |entries|), LittleEndian(8, bootOffset), LittleEndian(8, |boot|));
    StoredField(file, 0, header, 0, 4, PACK_KIND.magic);
    StoredField(file, 0, header, 4, 2, PACK_KIND.version);
    StoredField(file, 0, header, 8, 4, |entries|);
    StoredField(file, 0, header, 12, 8, bootOffset);
    StoredField(file, 0, header, 20, 8, |boot|);
  }

  lemma BootFits(entries: seq<PackInput>, boot: seq<Byte>)
    ensures BootOffset(entries, boot) + |boot| <= |Image(entries, boot)|
  {
    if boot != [] {
      BootAt(entries, boot);
    }
  }

  /** The row of entry `i` lies in its place of the table. */
  lemma RowStored(entries: seq<PackInput>, boot: seq<Byte>, i: nat)
    requires i < |entries|
    ensures var file, at := Image(entries, boot), TableEnd(i);
            at + 36 == TableEnd(i + 1) <= |file| && |RowBytes(entries, i)| == 36 && file[at..at + 36] == RowBytes(entries, i)
  {
    hide *;
    var file, table := Image(entries, boot), TableBytes(entries, |entries|);
    TableStored(entries, boot);
    RowsEnd(i);
    RowsEnd(|entries|);
    RowOfTable(entries, i);
    SliceTwice(file, 28, TableEnd(|entries|), TableEnd(i) - 28, 36);
  }

  lemma RowsEnd(i: nat)
    ensures TableEnd(i) == 28 + i * 36 && TableEnd(i + 1) == TableEnd(i) + 36
  {
  }

  lemma TableStored(entries: seq<PackInput>, boot: seq<Byte>)
    ensures 28 <= TableEnd(|entries|) <= |Image(entries, boot)|
    ensures Image(entries, boot)[28..TableEnd(|entries|)] == TableBytes(entries, |entries|)
  {
    hide Image;
    hide TableBytes;
    hide Position;
    ImageFront(entries, boot);
  }

  lemma RowOfTable(entries: seq<PackInput>, i: nat)
    requires i < |entries|
    ensures 28 <= TableEnd(i) && TableEnd(i + 1) <= TableEnd(|entries|) && |RowBytes(entries, i)| == 36
    ensures |TableBytes(entries, |entries|)| == TableEnd(|entries|) - 28
    ensures TableBytes(entries, |entries|)[TableEnd(i) - 28..TableEnd(i) - 28 + 36] == RowBytes(entries, i)
  {
    hide TableBytes;
    hide RowBytes;
    RowAt(entries, |entries|, i);
    RowsEnd(i);
  }

  lemma RowFields(entries: seq<PackInput>, i: nat)
    requires i < |entries|
    ensures var row := RowBytes(entries, i);
            && row[0..8] == LittleEndian(8, entries[i].id) && row[8..16] == LittleEndian(8, entries[i].typeTag)
            && row[16..24] == LittleEndian(8, PayloadOffset(entries, i))
            && row[24..32] == LittleEndian(8, |entries[i].payload|)
            && row[32..36] == LittleEndian(4, NamesBefore(entries, i))
  {
    hide LittleEndian;
    hide PayloadOffset;
    hide NamesBefore;
    RowParts(LittleEndian(8, entries[i].id), LittleEndian(8, entries[i].typeTag), LittleEndian(8, PayloadOffset(entries, i)),
             LittleEndian(8, |entries[i].payload|), LittleEndian(4, NamesBefore(entries, i)));
  }

  lemma EntryIs(file: seq<Byte>, i: nat)
    requires TableEnd(i + 1) <= |file| && TableEnd(i) + 36 <= |file|
    ensures EntryAt(file, i) == PackEntry(Field(file, TableEnd(i), 8), Field(file, TableEnd(i) + 8, 8),
                                          Field(file, TableEnd(i) + 16, 8), Field(file, TableEnd(i) + 24, 8))
  {
    hide Field;
    hide TableEnd;
  }

  lemma EntryFits(entries: seq<PackInput>, boot: seq<Byte>, i: nat)
    requires Fits(entries, boot) && i < |entries|
    ensures entries[i].id < Pow256(8) && entries[i].typeTag < Pow256(8)
    ensures PayloadOffset(entries, i) < Pow256(8) && |entries[i].payload| < Pow256(8)
  {
    hide Image;
    hide PayloadOffset;
    hide Pow256;
    PayloadAt(entries, boot, i);
    Pow256Four();
  }

  lemma ImageEntry(entries: seq<PackInput>, boot: seq<Byte>, i: nat)
    requires Fits(entries, boot) && i < |entries|
    ensures var file := Image(entries, boot);
            && TableEnd(i + 1) <= |file|
            && EntryAt(file, i) == PackEntry(entries[i].id, entries[i].typeTag, PayloadOffset(entries, i), |entries[i].payload|)
  {
    hide *;
    var file, row, at := Image(entries, boot), RowBytes(entries, i), TableEnd(i);
    RowStored(entries, boot, i);
    RowFields(entries, i);
    EntryFits(entries, boot, i);
    StoredField(file, at, row, 0, 8, entries[i].id);
    StoredField(file, at, row, 8, 8, entries[i].typeTag);
    StoredField(file, at, row, 16, 8, PayloadOffset(entries, i));
    StoredField(file, at, row, 24, 8, |entries[i].payload|);
    EntryIs(file, i);
  }

  /** The row also says where the name of the entry begins among the names. */
  lemma NamePlace(entries: seq<PackInput>, boot: seq<Byte>, i: nat)
    requires NamesFit(entries) && i < |entries|
    ensures var file := Image(entries, boot);
            TableEnd(i) + 36 <= |file| && Field(file, TableEnd(i) + 32, 4) == NamesBefore(entries, i)
  {
    hide *;
    RowStored(entries, boot, i);
    RowFields(entries, i);
    NamesBounded(entries, i);
    Pow256Four();
    StoredField(Image(entries, boot), TableEnd(i), RowBytes(entries, i), 32, 4, NamesBefore(entries, i));
  }

  /** The first bytes of every pack. */
  lemma PackStart(entries: seq<PackInput>, boot: seq<Byte>)
    requires Fits(entries, boot)
    ensures var file := Image(entries, boot);
            && |file| >= 28 && file[..8] == [0x54, 0x45, 0x50, 0x4B, 1, 0, 0, 0]
            && Field(file, 8, 4) == |entries| && Field(file, 20, 8) == |boot|
            && (boot != [] ==>
                  Field(file, 12, 8) % 16 == 0 && Field(file, 12, 8) <= |file| && file[Field(file, 12, 8)..] == boot)
  {
    hide Image;
    hide BootOffset;
    hide LittleEndian;
    var file := Image(entries, boot);
    ImageHeader(entries, boot);
    HeaderFits(file);
    ImageFront(entries, boot);
    HeaderStarts(|entries|, BootOffset(entries, boot), |boot|);
    assert file[..8] == file[0..PACK_HEADER_SIZE][..8];
    if boot != [] {
      BootAt(entries, boot);
      BootAligned(entries, boot);
      assert file[BootOffset(entries, boot)..|file|] == file[BootOffset(entries, boot)..];
    }
  }

  lemma BootAligned(entries: seq<PackInput>, boot: seq<Byte>)
    ensures BootOffset(entries, boot) % 16 == 0
  {
    AlignUpIs(Position(entries, |entries|));
  }

  lemma HeaderStarts(count: nat, bootOffset: nat, bootSize: nat)
    ensures PackHeader(count, bootOffset, bootSize)[..8] == [0x54, 0x45, 0x50, 0x4B, 1, 0, 0, 0]
  {
    MagicBytes();
    assert PackHeader(count, bootOffset, bootSize)[..8] == HeaderBytes(PACK_KIND);
  }

  lemma MagicBytes()
    ensures HeaderBytes(PACK_KIND) == [0x54, 0x45, 0x50, 0x4B, 1, 0, 0, 0]
  {
    assert LittleEndian(4, 0x4B50_4554) == [0x54] + LittleEndian(3, 0x4B_5045);
    assert LittleEndian(3, 0x4B_5045) == [0x45] + LittleEndian(2, 0x4B50);
    assert LittleEndian(2, 0x4B50) == [0x50, 0x4B];
    assert LittleEndian(2, 1) == [1, 0] && LittleEndian(2, 0) == [0, 0];
  }

  /** What the bytes of a pack say of entry `i`, byte position by byte position: its row is the 36 bytes from
      28 + 36 * i, its payload begins at a multiple of 16, and its name lies among the names behind the rows. */
  lemma PackLayout(entries: seq<PackInput>, boot: seq<Byte>, i: nat)
    requires Fits(entries, boot) && NamesFit(entries) && i < |entries|
    ensures EntryLaidOut(Image(entries, boot), entries, i)
  {
    hide *;
    var file := Image(entries, boot);
    ImageEntry(entries, boot, i);
    PayloadAt(entries, boot, i);
    OffsetAligned(entries, i);
    NamePlace(entries, boot, i);
    NameStored(entries, boot, i);
    LaidOut(file, entries, i, PayloadOffset(entries, i));
  }

  ghost predicate EntryLaidOut(file: seq<Byte>, entries: seq<PackInput>, i: nat)
    requires i < |entries|
  {
    var at, names, size, length := 28 + 36 * i, 28 + 36 * |entries|, |entries[i].payload|, |entries[i].name|;
    && at + 36 <= |file|
    && Field(file, at, 8) == entries[i].id && Field(file, at + 8, 8) == entries[i].typeTag && Field(file, at + 24, 8) == size
    && var offset, name := Field(file, at + 16, 8), names + Field(file, at + 32, 4);
       && offset % 16 == 0 && offset + size <= |file| && file[offset..offset + size] == entries[i].payload
       && name + 4 + length <= |file| && Field(file, name, 4) == length && file[name + 4..name + 4 + length] == entries[i].name
  }

  lemma LaidOut(file: seq<Byte>, entries: seq<PackInput>, i: nat, offset: nat)
    requires i < |entries| && TableEnd(i + 1) <= |file|
    requires EntryAt(file, i) == PackEntry(entries[i].id, entries[i].typeTag, offset, |entries[i].payload|)
    requires offset % PACK_ALIGNMENT == 0 && offset + |entries[i].payload| <= |file|
    requires file[offset..offset + |entries[i].payload|] == entries[i].payload
    requires Field(file, TableEnd(i) + 32, 4) == NamesBefore(entries, i)
    requires var name := TableEnd(|entries|) + NamesBefore(entries, i);
             && name + 4 + |entries[i].name| <= |file| && Field(file, name, 4) == |entries[i].name|
             && file[name + 4..name + 4 + |entries[i].name|] == entries[i].name
    ensures EntryLaidOut(file, entries, i)
  {
    hide Field;
    hide NamesBefore;
  }

  lemma NamesBounded(entries: seq<PackInput>, i: nat)
    requires NamesFit(entries) && i < |entries|
    ensures NamesBefore(entries, i) < 0x1_0000_0000 && |entries[i].name| < 0x1_0000_0000
  {
    NamesGrow(entries, i, |entries|);
    NamesGrow(entries, i + 1, |entries|);
  }

  lemma NameStored(entries: seq<PackInput>, boot: seq<Byte>, i: nat)
    requires NamesFit(entries) && i < |entries|
    ensures var file, name := Image(entries, boot), TableEnd(|entries|) + NamesBefore(entries, i);
            && name + 4 + |entries[i].name| <= |file| && Field(file, name, 4) == |entries[i].name|
            && file[name + 4..name + 4 + |entries[i].name|] == entries[i].name
  {
    hide *;
    var file, start, text := Image(entries, boot), NamesBefore(entries, i), entries[i].name;
    NamesBounded(entries, i);
    NamesPlace(entries, boot);
    NameAt(entries, |entries|, i);
    StringParts(text);
    Pow256Four();
    var from := TableEnd(|entries|);
    SliceTwice(file, from, Position(entries, 0), start, 4 + |text|);
    StoredField(file, from + start, StringBytes(text), 0, 4, |text|);
    SliceTwice(file, from + start, from + start + 4 + |text|, 4, |text|);
  }

  lemma NamesPlace(entries: seq<PackInput>, boot: seq<Byte>)
    ensures TableEnd(|entries|) + NamesBefore(entries, |entries|) == Position(entries, 0) <= |Image(entries, boot)|
    ensures Image(entries, boot)[TableEnd(|entries|)..Position(entries, 0)] == NamesBytes(entries, |entries|)
  {
    hide Image;
    hide NamesBytes;
    hide TableBytes;
    ImageFront(entries, boot);
  }

  lemma StringParts(text: seq<Byte>)
    ensures |StringBytes(text)| == 4 + |text|
    ensures StringBytes(text)[0..4] == LittleEndian(4, |text|) && StringBytes(text)[4..4 + |text|] == text
  {
    hide LittleEndian;
  }

  lemma SliceTwice(file: seq<Byte>, from: nat, to: nat, at: nat, size: nat)
    requires from <= to <= |file| && from + at + size <= to
    ensures file[from..to][at..at + size] == file[from + at..from + at + size]
  {
    var a, b := file[from..to][at..at + size], file[from + at..from + at + size];
    forall k | 0 <= k < size ensures a[k] == b[k] {
      assert file[from..to][at + k] == file[from + at + k];
    }
    assert a == b;
  }

  /** A written pack is accepted. */
  lemma ImageAccepted(entries: seq<PackInput>, boot: seq<Byte>)
    requires SortedInputs(entries) && Fits(entries, boot)
    ensures WellFormed(Image(entries, boot))
  {
    hide Image;
    hide PayloadOffset;
    hide EntryAt;
    hide HeaderOk;
    hide BootOffset;
    var file := Image(entries, boot);
    ImageHeader(entries, boot);
    ImageFront(entries, boot);
    HeaderFits(file);
    forall i | 0 <= i < CountOf(file) ensures EntryOk(file, i) {
      ImageEntry(entries, boot, i);
      PayloadAt(entries, boot, i);
      OffsetAligned(entries, i);
      if i > 0 {
        ImageEntry(entries, boot, i - 1);
      }
    }
    BootFits(entries, boot);
    if boot != [] {
      BootAt(entries, boot);
    }
  }

  lemma HeaderFits(file: seq<Byte>)
    requires HeaderOk(file)
    ensures PACK_HEADER_SIZE <= |file|
  {
  }

  lemma OffsetAligned(entries: seq<PackInput>, i: nat)
    requires i < |entries|
    ensures PayloadOffset(entries, i) % PACK_ALIGNMENT == 0
  {
    AlignUpIs(Position(entries, i));
  }

  /** Reading an entry of a written pack gives its payload, byte for byte. */
  lemma PayloadReadBack(entries: seq<PackInput>, boot: seq<Byte>, i: nat)
    requires Fits(entries, boot) && i < |entries|
    ensures var file := Image(entries, boot);
            && TableEnd(i + 1) <= |file|
            && ReadRange(file, EntryAt(file, i).offset, EntryAt(file, i).size) == Some(entries[i].payload)
  {
    hide Image;
    hide PayloadOffset;
    hide EntryAt;
    ImageEntry(entries, boot, i);
    PayloadAt(entries, boot, i);
  }

  /** Ranges of different entries do not overlap. */
  lemma EntriesApart(entries: seq<PackInput>, boot: seq<Byte>, i: nat, j: nat)
    requires Fits(entries, boot) && i < j < |entries|
    ensures var file := Image(entries, boot);
            && TableEnd(i + 1) <= |file| && TableEnd(j + 1) <= |file|
            && EntryAt(file, i).offset + EntryAt(file, i).size <= EntryAt(file, j).offset
  {
    hide Image;
    hide PayloadOffset;
    hide EntryAt;
    ImageEntry(entries, boot, i);
    ImageEntry(entries, boot, j);
    PayloadsApart(entries, i, j);
  }

  /** Reading the boot record of a written pack gives the record, byte for byte. */
  lemma BootReadBack(entries: seq<PackInput>, boot: seq<Byte>)
    requires Fits(entries, boot) && boot != []
    ensures var file := Image(entries, boot);
            && PACK_HEADER_SIZE <= |file|
            && ReadRange(file, Field(file, 12, 8), Field(file, 20, 8)) == Some(boot)
  {
    hide Image;
    hide BootOffset;
    hide HeaderOk;
    ImageHeader(entries, boot);
    HeaderFits(Image(entries, boot));
    BootAt(entries, boot);
  }

  /** Writes a pack, opens it and looks for one of its entries. */
  method WriteAndFind(writer: PackWriter, input: PackInput) returns (payload: seq<Byte>)
    requires writer.Valid() && input in writer.entries && |writer.entries| <= BLOB_MAX_COUNT && NamesFit(writer.entries)
    requires forall sorted :: SortedInputs(sorted) && multiset(sorted) == multiset(writer.entries) ==> Fits(sorted, writer.bootRecord)
    ensures payload == input.payload
  {
    hide *;
    var out := new ByteBuffer();
    ghost var sorted := writer.Write(out);
    var file := out.bytes;
    assert file == Image(sorted, writer.bootRecord);
    ImageAccepted(sorted, writer.bootRecord);
    var reader := new PackReader(file);
    var error := reader.Open();
    ReadEntries(sorted, writer.bootRecord, reader.entries);
    assert input in multiset(sorted);
    ghost var i :| 0 <= i < |sorted| && sorted[i] == input;
    payload := FindPayload(reader, input.id, sorted, writer.bootRecord, i);
  }

  /** Finds the entry of an id in an opened pack and reads its payload. */
  method FindPayload(reader: PackReader, id: nat, ghost sorted: seq<PackInput>, ghost boot: seq<Byte>, ghost i: nat)
    returns (payload: seq<Byte>)
    requires reader.Valid() && reader.file == Image(sorted, boot) && Fits(sorted, boot) && RowsAre(reader.file, reader.entries)
    requires |reader.entries| == |sorted| && i < |sorted| && sorted[i].id == id
    requires forall k :: 0 <= k < |sorted| ==> reader.entries[k].id == sorted[k].id
    requires forall k, m :: 0 <= k < m < |sorted| ==> reader.entries[k].id < reader.entries[m].id
    ensures payload == sorted[i].payload
  {
    hide *;
    var found, entry := reader.Find(id);
    assert reader.entries[i].id == id;
    FoundIs(sorted, reader.entries, entry, i);
    PayloadReadBack(sorted, boot, i);
    FoundPayload(reader.file, reader.entries, entry, i, sorted[i].payload);
    var bytes := reader.Read(entry);
    payload := bytes.value;
    SameBytes(payload, reader.file, entry.offset, entry.size);
  }

  lemma FoundPayload(file: seq<Byte>, read: seq<PackEntry>, entry: PackEntry, i: nat, payload: seq<Byte>)
    requires RowsAre(file, read) && i < |read| && entry == read[i] && TableEnd(i + 1) <= |file|
    requires ReadRange(file, EntryAt(file, i).offset, EntryAt(file, i).size) == Some(payload)
    ensures entry.offset + entry.size <= |file| && payload == file[entry.offset..entry.offset + entry.size]
  {
    hide EntryAt;
    hide TableEnd;
  }

  lemma SameBytes(bytes: seq<Byte>, file: seq<Byte>, offset: nat, size: nat)
    requires offset + size <= |file| && |bytes| == size && forall k :: 0 <= k < size ==> bytes[k] == file[offset + k]
    ensures bytes == file[offset..offset + size]
  {
  }

  lemma ReadEntries(entries: seq<PackInput>, boot: seq<Byte>, read: seq<PackEntry>)
    requires SortedInputs(entries) && Fits(entries, boot)
    requires PACK_HEADER_SIZE <= |Image(entries, boot)|
    requires |read| == CountOf(Image(entries, boot)) && RowsAre(Image(entries, boot), read)
    ensures |read| == |entries|
    ensures forall i :: 0 <= i < |read| ==> read[i].id == entries[i].id
    ensures forall i, j :: 0 <= i < j < |read| ==> read[i].id < read[j].id
  {
    hide Image;
    hide EntryAt;
    hide PayloadOffset;
    ImageHeader(entries, boot);
    forall i | 0 <= i < |read| ensures read[i].id == entries[i].id && read[i] == EntryAt(Image(entries, boot), i) {
      ImageEntry(entries, boot, i);
    }
    forall i, j | 0 <= i < j < |read| ensures read[i].id < read[j].id {
      assert read[i].id == entries[i].id && read[j].id == entries[j].id;
    }
  }

  lemma FoundIs(entries: seq<PackInput>, read: seq<PackEntry>, entry: PackEntry, i: nat)
    requires |read| == |entries| && i < |entries| && entry in read && entry.id == entries[i].id
    requires forall k :: 0 <= k < |read| ==> read[k].id == entries[k].id
    requires forall k, m :: 0 <= k < m < |read| ==> read[k].id < read[m].id
    ensures entry == read[i]
  {
    var k :| 0 <= k < |read| && read[k] == entry;
    assert read[i].id == entries[i].id == read[k].id;
  }
}
