/** The layout of a pack file: header, table, names, aligned payloads, boot record. */
module PackFormat {
  import opened Serialization
  import opened Wrappers

  const PACK_KIND := BlobKind(0x4B50_4554, 1)
  const PACK_HEADER_SIZE: nat := BLOB_HEADER_SIZE + 4 + 8 + 8
  const PACK_ENTRY_SIZE: nat := 8 + 8 + 8 + 8 + 4
  const PACK_ALIGNMENT: nat := 16

  datatype PackInput = PackInput(id: nat, typeTag: nat, name: seq<Byte>, payload: seq<Byte>)

  datatype PackEntry = PackEntry(id: nat, typeTag: nat, offset: nat, size: nat)

  const NO_RECORD := PackEntry(0, 0, 0, 0)

  function AlignUp(offset: nat): nat {
    (offset + PACK_ALIGNMENT - 1) / PACK_ALIGNMENT * PACK_ALIGNMENT
  }

  lemma AlignUpIs(offset: nat)
    ensures AlignUp(offset) % PACK_ALIGNMENT == 0
    ensures offset <= AlignUp(offset) < offset + PACK_ALIGNMENT
  {
  }

  ghost predicate SortedInputs(entries: seq<PackInput>) {
    forall i, j :: 0 <= i < j < |entries| ==> entries[i].id < entries[j].id
  }

  // ----- Where things go -----

  /** The bytes of the names before entry `i`, each with its length. */
  function NamesBefore(entries: seq<PackInput>, i: nat): nat
    requires i <= |entries|
  {
    if i == 0 then 0 else NamesBefore(entries, i - 1) + 4 + |entries[i - 1].name|
  }

  /** Where the payload of entry `i` would start but for its alignment. */
  function Position(entries: seq<PackInput>, i: nat): nat
    requires i <= |entries|
  {
    if i == 0 then PACK_HEADER_SIZE + |entries| * PACK_ENTRY_SIZE + NamesBefore(entries, |entries|)
    else AlignUp(Position(entries, i - 1)) + |entries[i - 1].payload|
  }

  function PayloadOffset(entries: seq<PackInput>, i: nat): nat
    requires i < |entries|
  {
    AlignUp(Position(entries, i))
  }

  function BootOffset(entries: seq<PackInput>, boot: seq<Byte>): nat {
    if boot == [] then 0 else AlignUp(Position(entries, |entries|))
  }

  // ----- The bytes -----

  function PackHeader(count: nat, bootOffset: nat, bootSize: nat): (bytes: seq<Byte>)
    ensures |bytes| == PACK_HEADER_SIZE
  {
    HeaderBytes(PACK_KIND) + LittleEndian(4, count) + LittleEndian(8, bootOffset) + LittleEndian(8, bootSize)
  }

  function RowBytes(entries: seq<PackInput>, i: nat): (bytes: seq<Byte>)
    requires i < |entries|
    ensures |bytes| == PACK_ENTRY_SIZE
  {
    LittleEndian(8, entries[i].id) + LittleEndian(8, entries[i].typeTag) + LittleEndian(8, PayloadOffset(entries, i))
    + LittleEndian(8, |entries[i].payload|) + LittleEndian(4, NamesBefore(entries, i))
  }

  function TableBytes(entries: seq<PackInput>, n: nat): (bytes: seq<Byte>)
    requires n <= |entries|
    ensures |bytes| == n * PACK_ENTRY_SIZE
  {
    if n == 0 then [] else TableBytes(entries, n - 1) + RowBytes(entries, n - 1)
  }

  function NamesBytes(entries: seq<PackInput>, n: nat): (bytes: seq<Byte>)
    requires n <= |entries|
    ensures |bytes| == NamesBefore(entries, n)
  {
    if n == 0 then [] else NamesBytes(entries, n - 1) + StringBytes(entries[n - 1].name)
  }

  function Front(entries: seq<PackInput>, boot: seq<Byte>): (bytes: seq<Byte>)
    ensures |bytes| == Position(entries, 0)
  {
    PackHeader(|entries|, BootOffset(entries, boot), |boot|) + TableBytes(entries, |entries|) + NamesBytes(entries, |entries|)
  }

  function PaddedTo(bytes: seq<Byte>, size: nat): seq<Byte>
    requires |bytes| <= size
  {
    bytes + Zeros(size - |bytes|)
  }

  /** A pack with its first `n` payloads only. */
  function Payloads(entries: seq<PackInput>, boot: seq<Byte>, n: nat): (bytes: seq<Byte>)
    requires n <= |entries|
    ensures |bytes| == Position(entries, n)
  {
    if n == 0 then Front(entries, boot) else
    PaddedTo(Payloads(entries, boot, n - 1), PayloadOffset(entries, n - 1)) + entries[n - 1].payload
  }

  function Image(entries: seq<PackInput>, boot: seq<Byte>): seq<Byte> {
    var all := Payloads(entries, boot, |entries|);
    if boot == [] then all else PaddedTo(all, BootOffset(entries, boot)) + boot
  }

  // ----- What the image holds where -----

  lemma {:induction false} PayloadsGrow(entries: seq<PackInput>, boot: seq<Byte>, m: nat, n: nat)
    requires m <= n <= |entries|
    ensures Position(entries, m) <= Position(entries, n)
    ensures Payloads(entries, boot, n)[..Position(entries, m)] == Payloads(entries, boot, m)
    decreases n
  {
    if m < n {
      PayloadsGrow(entries, boot, m, n - 1);
      AlignUpIs(Position(entries, n - 1));
      var before := Payloads(entries, boot, n - 1);
      assert Payloads(entries, boot, n)[..|before|] == before;
      assert Payloads(entries, boot, n)[..Position(entries, m)] == before[..Position(entries, m)];
    }
  }

  lemma ImageStarts(entries: seq<PackInput>, boot: seq<Byte>)
    ensures Position(entries, |entries|) <= |Image(entries, boot)|
    ensures Image(entries, boot)[..Position(entries, |entries|)] == Payloads(entries, boot, |entries|)
  {
  }

  lemma SliceOfPrefix(all: seq<Byte>, prefix: seq<Byte>, start: nat, end: nat)
    requires |prefix| <= |all| && all[..|prefix|] == prefix && start <= end <= |prefix|
    ensures all[start..end] == prefix[start..end]
  {
    forall k | 0 <= k < end - start ensures all[start..end][k] == prefix[start..end][k] {
      assert all[..|prefix|][start + k] == prefix[start + k];
    }
  }

  lemma NextPayload(entries: seq<PackInput>, boot: seq<Byte>, i: nat)
    requires i < |entries|
    ensures var start := PayloadOffset(entries, i); var end := start + |entries[i].payload|;
            end == Position(entries, i + 1) && Payloads(entries, boot, i + 1)[start..end] == entries[i].payload
  {
    hide Front;
    hide Payloads;
    AlignUpIs(Position(entries, i));
    PayloadsStep(entries, boot, i + 1);
  }

  lemma PayloadsStep(entries: seq<PackInput>, boot: seq<Byte>, n: nat)
    requires 0 < n <= |entries|
    ensures Position(entries, n - 1) <= PayloadOffset(entries, n - 1)
    ensures Payloads(entries, boot, n) ==
            PaddedTo(Payloads(entries, boot, n - 1), PayloadOffset(entries, n - 1)) + entries[n - 1].payload
  {
    AlignUpIs(Position(entries, n - 1));
  }

  /** The payload of every entry lies at its offset. */
  lemma PayloadAt(entries: seq<PackInput>, boot: seq<Byte>, i: nat)
    requires i < |entries|
    ensures var start := PayloadOffset(entries, i); var end := start + |entries[i].payload|;
            && Position(entries, 0) <= start && end <= |Image(entries, boot)|
            && Image(entries, boot)[start..end] == entries[i].payload
  {
    hide Payloads;
    hide Position;
    hide Image;
    var start := PayloadOffset(entries, i);
    var end := start + |entries[i].payload|;
    PayloadsGrow(entries, boot, 0, i);
    PayloadsGrow(entries, boot, i + 1, |entries|);
    ImageStarts(entries, boot);
    AlignUpIs(Position(entries, i));
    NextPayload(entries, boot, i);
    SliceOfPrefix(Payloads(entries, boot, |entries|), Payloads(entries, boot, i + 1), start, end);
    SliceOfPrefix(Image(entries, boot), Payloads(entries, boot, |entries|), start, end);
  }

  lemma BootAt(entries: seq<PackInput>, boot: seq<Byte>)
    requires boot != []
    ensures var start := BootOffset(entries, boot); var end := start + |boot|;
            && Position(entries, 0) <= start && end == |Image(entries, boot)|
            && Image(entries, boot)[start..end] == boot
  {
    PayloadsGrow(entries, boot, 0, |entries|);
    AlignUpIs(Position(entries, |entries|));
  }

  /** Payloads lie one after the other, without overlap. */
  lemma {:induction false} PayloadsApart(entries: seq<PackInput>, i: nat, j: nat)
    requires i < j < |entries|
    ensures PayloadOffset(entries, i) + |entries[i].payload| <= PayloadOffset(entries, j)
    decreases j
  {
    AlignUpIs(Position(entries, j));
    if i < j - 1 {
      PayloadsApart(entries, i, j - 1);
    }
  }

  lemma {:induction false} RowAt(entries: seq<PackInput>, n: nat, i: nat)
    requires i < n <= |entries|
    ensures (i + 1) * PACK_ENTRY_SIZE <= n * PACK_ENTRY_SIZE
    ensures TableBytes(entries, n)[i * PACK_ENTRY_SIZE..(i + 1) * PACK_ENTRY_SIZE] == RowBytes(entries, i)
    decreases n
  {
    if i < n - 1 {
      RowAt(entries, n - 1, i);
      var front := TableBytes(entries, n - 1);
      assert TableBytes(entries, n)[..|front|] == front;
      assert TableBytes(entries, n)[i * PACK_ENTRY_SIZE..(i + 1) * PACK_ENTRY_SIZE]
          == front[i * PACK_ENTRY_SIZE..(i + 1) * PACK_ENTRY_SIZE];
    }
  }

  /** The name of an entry, with its length before it, lies where the names before it end. */
  lemma {:induction false} NameAt(entries: seq<PackInput>, n: nat, i: nat)
    requires i < n <= |entries|
    ensures var start := NamesBefore(entries, i); var end := start + 4 + |entries[i].name|;
            end <= NamesBefore(entries, n) && NamesBytes(entries, n)[start..end] == StringBytes(entries[i].name)
    decreases n
  {
    hide StringBytes;
    var start := NamesBefore(entries, i);
    var end := start + 4 + |entries[i].name|;
    if i < n - 1 {
      NameAt(entries, n - 1, i);
      var front := NamesBytes(entries, n - 1);
      assert NamesBytes(entries, n)[..|front|] == front;
      SliceOfPrefix(NamesBytes(entries, n), front, start, end);
    }
  }

  /** The image begins with the header, followed by the table and the names. */
  lemma ImageFront(entries: seq<PackInput>, boot: seq<Byte>)
    ensures var image := Image(entries, boot); var tableEnd := PACK_HEADER_SIZE + |entries| * PACK_ENTRY_SIZE;
            && tableEnd <= Position(entries, 0) <= |image|
            && image[0..PACK_HEADER_SIZE] == PackHeader(|entries|, BootOffset(entries, boot), |boot|)
            && image[PACK_HEADER_SIZE..tableEnd] == TableBytes(entries, |entries|)
            && image[tableEnd..Position(entries, 0)] == NamesBytes(entries, |entries|)
  {
    hide Payloads;
    hide Position;
    hide Image;
    hide Front;
    hide PackHeader;
    hide TableBytes;
    var front, tableEnd := Front(entries, boot), PACK_HEADER_SIZE + |entries| * PACK_ENTRY_SIZE;
    PayloadsGrow(entries, boot, 0, |entries|);
    ImageStarts(entries, boot);
    FrontParts(entries, boot);
    FirstPayloads(entries, boot);
    SliceOfPrefix(Payloads(entries, boot, |entries|), front, 0, PACK_HEADER_SIZE);
    SliceOfPrefix(Payloads(entries, boot, |entries|), front, PACK_HEADER_SIZE, tableEnd);
    SliceOfPrefix(Payloads(entries, boot, |entries|), front, tableEnd, |front|);
    SliceOfPrefix(Image(entries, boot), Payloads(entries, boot, |entries|), 0, PACK_HEADER_SIZE);
    SliceOfPrefix(Image(entries, boot), Payloads(entries, boot, |entries|), PACK_HEADER_SIZE, tableEnd);
    SliceOfPrefix(Image(entries, boot), Payloads(entries, boot, |entries|), tableEnd, |front|);
  }

  lemma FirstPayloads(entries: seq<PackInput>, boot: seq<Byte>)
    ensures Payloads(entries, boot, 0) == Front(entries, boot)
  {
  }

  lemma FrontParts(entries: seq<PackInput>, boot: seq<Byte>)
    ensures var front := Front(entries, boot); var tableEnd := PACK_HEADER_SIZE + |entries| * PACK_ENTRY_SIZE;
            && tableEnd <= Position(entries, 0) == |front|
            && front[0..PACK_HEADER_SIZE] == PackHeader(|entries|, BootOffset(entries, boot), |boot|)
            && front[PACK_HEADER_SIZE..tableEnd] == TableBytes(entries, |entries|)
            && front[tableEnd..|front|] == NamesBytes(entries, |entries|)
  {
    hide PackHeader;
    hide TableBytes;
    hide NamesBytes;
    var h, t, n := PackHeader(|entries|, BootOffset(entries, boot), |boot|), TableBytes(entries, |entries|), NamesBytes(entries, |entries|);
    Cuts(h, t, n);
  }

  lemma Cuts(h: seq<Byte>, t: seq<Byte>, n: seq<Byte>)
    ensures (h + t + n)[0..|h|] == h && (h + t + n)[|h|..|h| + |t|] == t && (h + t + n)[|h| + |t|..|h + t + n|] == n
  {
  }
}
