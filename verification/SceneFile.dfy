/** The bytes of a scene file: a header, the id of the scene, and its rows, each with the blocks of one entity. */
module SceneFiles {
  import opened Wrappers
  import opened Components
  import opened Serialization

  const SCENE_KIND: BlobKind := BlobKind(0x43534554, 1)
  const NO_PARENT: nat := 0xFFFF_FFFF
  const HEAD_SIZE: nat := 20       // the header, the id and the count of rows
  const ROW_SIZE: nat := 12        // a row, its blocks aside

  datatype Row = Row(id: nat, parent: nat, blocks: seq<Block>)

  /** A row stands in its place, below an earlier one or none. */
  predicate InPlace(id: nat, parent: nat, i: nat) {
    id == i && (parent == NO_PARENT || parent < i)
  }

  // ----- What is written -----

  function BlockBytes(block: Block): seq<Byte> {
    LittleEndian(8, block.tag) + StringBytes(block.payload)
  }

  function BlocksBytes(blocks: seq<Block>): seq<Byte> {
    if blocks == [] then [] else BlockBytes(blocks[0]) + BlocksBytes(blocks[1..])
  }

  function HeadBytes(id: nat, parent: nat, count: nat): seq<Byte> {
    LittleEndian(4, id) + (LittleEndian(4, parent) + LittleEndian(4, count))
  }

  function RowHead(row: Row): seq<Byte> {
    HeadBytes(row.id, row.parent, |row.blocks|)
  }

  function RowsBytes(rows: seq<Row>): seq<Byte> {
    if rows == [] then [] else (RowHead(rows[0]) + BlocksBytes(rows[0].blocks)) + RowsBytes(rows[1..])
  }

  function FileBytes(flags: nat, id: nat, rows: seq<Row>): seq<Byte> {
    FlaggedHeader(SCENE_KIND, flags) + (LittleEndian(8, id) + (LittleEndian(4, |rows|) + RowsBytes(rows)))
  }

  /** Every number fits its field. */
  ghost predicate BlocksFit(blocks: seq<Block>) {
    |blocks| < Pow256(4) && forall k :: 0 <= k < |blocks| ==> BlockFits(blocks[k])
  }

  ghost predicate BlockFits(block: Block) {
    block.tag < Pow256(8) && |block.payload| < Pow256(4)
  }

  /** The rows stand in their places, counted from `i`, and fit their fields. */
  ghost predicate RowsFit(rows: seq<Row>, i: nat) {
    && i + |rows| < Pow256(4)
    && forall k {:trigger rows[k]} :: 0 <= k < |rows| ==> InPlace(rows[k].id, rows[k].parent, i + k) && BlocksFit(rows[k].blocks)
  }

  ghost predicate FileFits(flags: nat, id: nat, rows: seq<Row>) {
    flags < Pow256(2) && id < Pow256(8) && RowsFit(rows, 0)
  }

  /** Where the numbers of a file stand, byte position by byte position, and what is behind them. */
  lemma FileLayout(flags: nat, id: nat, rows: seq<Row>)
    requires FileFits(flags, id, rows)
    ensures var file := FileBytes(flags, id, rows);
            && |file| >= 20 && file[..6] == [0x54, 0x45, 0x53, 0x43, 1, 0]
            && FromLittleEndian(file[6..8]) == flags && FromLittleEndian(file[8..16]) == id
            && FromLittleEndian(file[16..20]) == |rows| && file[20..] == RowsBytes(rows)
  {
    hide *;
    FileNumbers(flags, id, rows);
    SceneMagic();
    LittleEndianRoundTrip(2, flags);
    LittleEndianRoundTrip(8, id);
    LittleEndianRoundTrip(4, |rows|);
    FileSlices(LittleEndian(4, SCENE_KIND.magic), LittleEndian(2, SCENE_KIND.version), LittleEndian(2, flags),
               LittleEndian(8, id), LittleEndian(4, |rows|), RowsBytes(rows));
  }

  lemma FileNumbers(flags: nat, id: nat, rows: seq<Row>)
    requires FileFits(flags, id, rows)
    ensures flags < Pow256(2) && id < Pow256(8) && |rows| < Pow256(4)
    ensures FileBytes(flags, id, rows) ==
            (LittleEndian(4, SCENE_KIND.magic) + LittleEndian(2, SCENE_KIND.version) + LittleEndian(2, flags))
            + (LittleEndian(8, id) + (LittleEndian(4, |rows|) + RowsBytes(rows)))
  {
    hide LittleEndian;
    hide Pow256;
    hide RowsBytes;
  }

  lemma FileSlices(a: seq<Byte>, b: seq<Byte>, c: seq<Byte>, d: seq<Byte>, e: seq<Byte>, f: seq<Byte>)
    requires |a| == |e| == 4 && |b| == |c| == 2 && |d| == 8
    ensures var s := (a + b + c) + (d + (e + f));
            s[..6] == a + b && s[6..8] == c && s[8..16] == d && s[16..20] == e && s[20..] == f
  {
  }

  lemma SceneMagic()
    ensures LittleEndian(4, SCENE_KIND.magic) + LittleEndian(2, SCENE_KIND.version) == [0x54, 0x45, 0x53, 0x43, 1, 0]
  {
    assert LittleEndian(4, 0x43534554) == [0x54] + LittleEndian(3, 0x435345);
    assert LittleEndian(3, 0x435345) == [0x45] + LittleEndian(2, 0x4353);
    assert LittleEndian(2, 0x4353) == [0x53, 0x43] && LittleEndian(2, 1) == [1, 0];
  }

  /** A row begins with its number, its parent's and the count of its blocks; a block with its tag and its length. */
  lemma RowLayout(row: Row, block: Block)
    requires row.id < Pow256(4) && row.parent < Pow256(4) && BlocksFit(row.blocks) && BlockFits(block)
    ensures var head := RowHead(row);
            && |head| == 12 && FromLittleEndian(head[0..4]) == row.id && FromLittleEndian(head[4..8]) == row.parent
            && FromLittleEndian(head[8..12]) == |row.blocks|
    ensures var bytes := BlockBytes(block);
            && |bytes| == 12 + |block.payload| && FromLittleEndian(bytes[0..8]) == block.tag
            && FromLittleEndian(bytes[8..12]) == |block.payload| && bytes[12..] == block.payload
  {
    hide LittleEndian;
    hide FromLittleEndian;
    hide Pow256;
    LittleEndianRoundTrip(4, row.id);
    LittleEndianRoundTrip(4, row.parent);
    LittleEndianRoundTrip(4, |row.blocks|);
    LittleEndianRoundTrip(8, block.tag);
    LittleEndianRoundTrip(4, |block.payload|);
    var head, bytes := RowHead(row), BlockBytes(block);
    assert head[0..4] == LittleEndian(4, row.id) && head[4..8] == LittleEndian(4, row.parent);
    assert head[8..12] == LittleEndian(4, |row.blocks|);
    assert bytes[0..8] == LittleEndian(8, block.tag) && bytes[8..12] == LittleEndian(4, |block.payload|);
  }

  // ----- What is read -----

  function ScanBlock(bytes: seq<Byte>): Scan<Block> {
    match ScanNumber(bytes, 8)
    case Bad(error) => Bad(error)
    case Got(tag, behind) =>
      match ScanSpan(behind)
      case Bad(error) => Bad(error)
      case Got(payload, rest) => Got(Block(tag, payload), rest)
  }

  function ScanBlocks(bytes: seq<Byte>, n: nat): Scan<seq<Block>> {
    if n == 0 then Got([], bytes) else
    match ScanBlock(bytes)
    case Bad(error) => Bad(error)
    case Got(block, rest) => Prefixed([block], ScanBlocks(rest, n - 1))
  }

  function Prefixed<T>(front: seq<T>, scan: Scan<seq<T>>): Scan<seq<T>> {
    match scan
    case Bad(error) => Bad(error)
    case Got(back, rest) => Got(front + back, rest)
  }

  /** Row `i` up to its blocks: its id, its parent and how many blocks follow. Where it stands is checked here. */
  function ScanHead(bytes: seq<Byte>, i: nat): Scan<(nat, nat)> {
    match ScanNumber(bytes, 4)
    case Bad(error) => Bad(error)
    case Got(id, behindId) =>
      match ScanNumber(behindId, 4)
      case Bad(error) => Bad(error)
      case Got(parent, behindParent) =>
        match ScanNumber(behindParent, 4)
        case Bad(error) => Bad(error)
        case Got(count, rest) => if InPlace(id, parent, i) then Got((parent, count), rest) else Bad(Malformed)
  }

  function ScanRow(bytes: seq<Byte>, i: nat): Scan<Row> {
    match ScanHead(bytes, i)
    case Bad(error) => Bad(error)
    case Got(head, behind) =>
      match ScanBlocks(behind, head.1)
      case Bad(error) => Bad(error)
      case Got(blocks, rest) => Got(Row(i, head.0, blocks), rest)
  }

  /** Rows `i` up to `n`. */
  function ScanRows(bytes: seq<Byte>, i: nat, n: nat): Scan<seq<Row>>
    requires i <= n
    decreases n - i
  {
    if i == n then Got([], bytes) else
    match ScanRow(bytes, i)
    case Bad(error) => Bad(error)
    case Got(row, rest) => Prefixed([row], ScanRows(rest, i + 1, n))
  }

  /** The id of the scene and the count of its rows. */
  function ScanStart(bytes: seq<Byte>): Scan<(nat, nat)> {
    match ScanHeader(bytes, SCENE_KIND)
    case Bad(error) => Bad(error)
    case Got(flags, behindHeader) =>
      match ScanNumber(behindHeader, 8)
      case Bad(error) => Bad(error)
      case Got(id, behindId) =>
        match ScanNumber(behindId, 4)
        case Bad(error) => Bad(error)
        case Got(count, rest) => Got((id, count), rest)
  }

  /** A whole file: nothing may follow the last row. */
  function ScanFile(bytes: seq<Byte>): Scan<(nat, seq<Row>)> {
    match ScanStart(bytes)
    case Bad(error) => Bad(error)
    case Got(start, behind) =>
      match ScanRows(behind, 0, start.1)
      case Bad(error) => Bad(error)
      case Got(rows, rest) => if rest == [] then Got((start.0, rows), []) else Bad(Malformed)
  }

  // ----- One undoes the other -----

  lemma BlockBack(block: Block, rest: seq<Byte>)
    requires BlockFits(block)
    ensures ScanBlock(BlockBytes(block) + rest) == Got(block, rest)
  {
    hide ScanNumber;
    hide ScanSpan;
    hide Pow256;
    NumberBack(8, block.tag, StringBytes(block.payload) + rest);
    SpanBack(block.payload, rest);
    assert BlockBytes(block) + rest == LittleEndian(8, block.tag) + (StringBytes(block.payload) + rest);
  }

  lemma BlockWas(bytes: seq<Byte>)
    requires ScanBlock(bytes).Got?
    ensures var got := ScanBlock(bytes); BlockFits(got.value) && bytes == BlockBytes(got.value) + got.rest
  {
    hide ScanNumber;
    hide ScanSpan;
    hide Pow256;
    NumberWas(bytes, 8);
    var number, got := ScanNumber(bytes, 8), ScanBlock(bytes);
    SpanWas(number.rest);
    assert BlockBytes(got.value) + got.rest == LittleEndian(8, got.value.tag) + (StringBytes(got.value.payload) + got.rest);
  }

  lemma {:induction false} BlocksBack(blocks: seq<Block>, rest: seq<Byte>)
    requires forall k :: 0 <= k < |blocks| ==> BlockFits(blocks[k])
    ensures ScanBlocks(BlocksBytes(blocks) + rest, |blocks|) == Got(blocks, rest)
  {
    hide ScanBlock;
    hide BlockFits;
    hide BlockBytes;
    if blocks == [] {
      assert BlocksBytes(blocks) + rest == rest;
    } else {
      BlockBack(blocks[0], BlocksBytes(blocks[1..]) + rest);
      BlocksBack(blocks[1..], rest);
      assert BlocksBytes(blocks) + rest == BlockBytes(blocks[0]) + (BlocksBytes(blocks[1..]) + rest);
      assert [blocks[0]] + blocks[1..] == blocks;
    }
  }

  lemma {:induction false} BlocksWere(bytes: seq<Byte>, n: nat)
    requires ScanBlocks(bytes, n).Got?
    ensures var got := ScanBlocks(bytes, n);
            |got.value| == n && bytes == BlocksBytes(got.value) + got.rest
            && forall k :: 0 <= k < n ==> BlockFits(got.value[k])
    decreases n
  {
    hide ScanBlock;
    hide BlockFits;
    hide BlockBytes;
    if n > 0 {
      var first, got := ScanBlock(bytes), ScanBlocks(bytes, n);
      BlockWas(bytes);
      BlocksWere(first.rest, n - 1);
      assert got.value[1..] == ScanBlocks(first.rest, n - 1).value;
      assert BlockBytes(got.value[0]) + (BlocksBytes(got.value[1..]) + got.rest) == BlocksBytes(got.value) + got.rest;
    } else {
      assert bytes == BlocksBytes([]) + bytes;
    }
  }

  lemma HeadBack(row: Row, i: nat, rest: seq<Byte>)
    requires InPlace(row.id, row.parent, i) && i < Pow256(4) && |row.blocks| < Pow256(4)
    ensures ScanHead(RowHead(row) + rest, i) == Got((row.parent, |row.blocks|), rest)
  {
    hide ScanNumber;
    hide Pow256;
    Pow256Four();
    var behind := LittleEndian(4, row.parent) + (LittleEndian(4, |row.blocks|) + rest);
    NumberBack(4, row.id, behind);
    NumberBack(4, row.parent, LittleEndian(4, |row.blocks|) + rest);
    NumberBack(4, |row.blocks|, rest);
    assert RowHead(row) + rest == LittleEndian(4, row.id) + behind;
  }

  lemma HeadWas(bytes: seq<Byte>, i: nat)
    requires ScanHead(bytes, i).Got?
    ensures var got := ScanHead(bytes, i);
            && InPlace(i, got.value.0, i) && got.value.1 < Pow256(4) && i < Pow256(4)
            && bytes == HeadBytes(i, got.value.0, got.value.1) + got.rest
  {
    hide ScanNumber;
    hide Pow256;
    var id := ScanNumber(bytes, 4);
    var parent := ScanNumber(id.rest, 4);
    var count := ScanNumber(parent.rest, 4);
    NumberWas(bytes, 4);
    NumberWas(id.rest, 4);
    NumberWas(parent.rest, 4);
    var a, b, c := LittleEndian(4, i), LittleEndian(4, parent.value), LittleEndian(4, count.value);
    assert (a + (b + c)) + count.rest == a + (b + (c + count.rest));
  }

  lemma RowBack(row: Row, i: nat, rest: seq<Byte>)
    requires InPlace(row.id, row.parent, i) && i < Pow256(4) && BlocksFit(row.blocks)
    ensures ScanRow((RowHead(row) + BlocksBytes(row.blocks)) + rest, i) == Got(row, rest)
  {
    hide ScanHead;
    hide ScanBlocks;
    hide BlocksBytes;
    hide RowHead;
    hide Pow256;
    HeadBack(row, i, BlocksBytes(row.blocks) + rest);
    BlocksBack(row.blocks, rest);
    assert (RowHead(row) + BlocksBytes(row.blocks)) + rest == RowHead(row) + (BlocksBytes(row.blocks) + rest);
  }

  lemma RowWas(bytes: seq<Byte>, i: nat)
    requires ScanRow(bytes, i).Got?
    ensures var got := ScanRow(bytes, i);
            && InPlace(got.value.id, got.value.parent, i) && i < Pow256(4) && BlocksFit(got.value.blocks)
            && bytes == (RowHead(got.value) + BlocksBytes(got.value.blocks)) + got.rest
  {
    hide ScanHead;
    hide ScanBlocks;
    hide BlocksBytes;
    hide Pow256;
    HeadWas(bytes, i);
    var head, got := ScanHead(bytes, i), ScanRow(bytes, i);
    BlocksWere(head.rest, head.value.1);
    assert (RowHead(got.value) + BlocksBytes(got.value.blocks)) + got.rest == RowHead(got.value) + head.rest;
  }

  lemma {:induction false} RowsBack(rows: seq<Row>, i: nat, rest: seq<Byte>)
    requires RowsFit(rows, i)
    ensures ScanRows(RowsBytes(rows) + rest, i, i + |rows|) == Got(rows, rest)
    decreases |rows|
  {
    hide ScanRow;
    hide BlocksFit;
    hide BlocksBytes;
    hide RowHead;
    hide InPlace;
    hide Pow256;
    if rows == [] {
      assert RowsBytes(rows) + rest == rest;
    } else {
      assert InPlace(rows[0].id, rows[0].parent, i + 0);
      forall k | 0 <= k < |rows[1..]|
        ensures InPlace(rows[1..][k].id, rows[1..][k].parent, i + 1 + k) && BlocksFit(rows[1..][k].blocks)
      {
        assert rows[1..][k] == rows[k + 1];
      }
      RowBack(rows[0], i, RowsBytes(rows[1..]) + rest);
      RowsBack(rows[1..], i + 1, rest);
      var first := RowHead(rows[0]) + BlocksBytes(rows[0].blocks);
      assert RowsBytes(rows) + rest == first + (RowsBytes(rows[1..]) + rest);
      assert [rows[0]] + rows[1..] == rows;
    }
  }

  lemma {:induction false} RowsWere(bytes: seq<Byte>, i: nat, n: nat)
    requires i <= n < Pow256(4) && ScanRows(bytes, i, n).Got?
    ensures var got := ScanRows(bytes, i, n);
            |got.value| == n - i && RowsFit(got.value, i) && bytes == RowsBytes(got.value) + got.rest
    decreases n - i
  {
    hide ScanRow;
    hide BlocksFit;
    hide BlocksBytes;
    hide RowHead;
    hide InPlace;
    hide Pow256;
    if i < n {
      var first, got := ScanRow(bytes, i), ScanRows(bytes, i, n);
      RowWas(bytes, i);
      RowsWere(first.rest, i + 1, n);
      var others := ScanRows(first.rest, i + 1, n).value;
      assert got.value == [first.value] + others && got.value[1..] == others;
      forall k | 0 <= k < |got.value|
        ensures InPlace(got.value[k].id, got.value[k].parent, i + k) && BlocksFit(got.value[k].blocks)
      {
        assert k > 0 ==> got.value[k] == others[k - 1];
        assert k > 0 ==> i + k == i + 1 + (k - 1);
      }
      var one := RowHead(first.value) + BlocksBytes(first.value.blocks);
      assert one + (RowsBytes(others) + got.rest) == RowsBytes(got.value) + got.rest;
    } else {
      assert bytes == RowsBytes([]) + bytes;
    }
  }

  lemma StartBack(flags: nat, id: nat, rows: seq<Row>)
    requires FileFits(flags, id, rows)
    ensures ScanStart(FileBytes(flags, id, rows)) == Got((id, |rows|), RowsBytes(rows))
  {
    hide ScanNumber;
    hide ScanHeader;
    hide RowsFit;
    hide RowsBytes;
    hide Pow256;
    Pow256Four();
    var count := LittleEndian(4, |rows|) + RowsBytes(rows);
    HeaderBack(SCENE_KIND, flags, LittleEndian(8, id) + count);
    NumberBack(8, id, count);
    RowsFewer(rows, 0);
    NumberBack(4, |rows|, RowsBytes(rows));
  }

  lemma FileBack(flags: nat, id: nat, rows: seq<Row>)
    requires FileFits(flags, id, rows)
    ensures ScanFile(FileBytes(flags, id, rows)) == Got((id, rows), [])
  {
    hide ScanStart;
    hide ScanRows;
    hide RowsFit;
    hide RowsBytes;
    StartBack(flags, id, rows);
    RowsBack(rows, 0, []);
    assert RowsBytes(rows) + [] == RowsBytes(rows);
  }

  lemma RowsFewer(rows: seq<Row>, i: nat)
    requires RowsFit(rows, i)
    ensures i + |rows| < Pow256(4)
  {
  }

  lemma FileWas(bytes: seq<Byte>)
    requires ScanFile(bytes).Got?
    ensures var got := ScanFile(bytes).value;
            exists flags :: FileFits(flags, got.0, got.1) && bytes == FileBytes(flags, got.0, got.1)
  {
    hide ScanNumber;
    hide ScanHeader;
    hide ScanRows;
    hide RowsFit;
    hide RowsBytes;
    hide Pow256;
    HeaderWas(bytes, SCENE_KIND);
    var header, got := ScanHeader(bytes, SCENE_KIND), ScanFile(bytes).value;
    var id := ScanNumber(header.rest, 8);
    NumberWas(header.rest, 8);
    NumberWas(id.rest, 4);
    var count := ScanNumber(id.rest, 4);
    RowsWere(count.rest, 0, count.value);
    assert count.rest == RowsBytes(got.1) + [] == RowsBytes(got.1);
    assert FileFits(header.value, got.0, got.1) && bytes == FileBytes(header.value, got.0, got.1);
  }

  // ----- Rows out of place -----

  lemma HeadMisplaced(id: nat, parent: nat, count: nat, i: nat, rest: seq<Byte>)
    requires id < Pow256(4) && parent < Pow256(4) && count < Pow256(4) && !InPlace(id, parent, i)
    ensures ScanRow(HeadBytes(id, parent, count) + rest, i) == Bad(Malformed)
  {
    hide ScanNumber;
    hide Pow256;
    var behind := LittleEndian(4, parent) + (LittleEndian(4, count) + rest);
    NumberBack(4, id, behind);
    NumberBack(4, parent, LittleEndian(4, count) + rest);
    NumberBack(4, count, rest);
    assert HeadBytes(id, parent, count) + rest == LittleEndian(4, id) + behind;
  }

  lemma {:induction false} RowsMisplaced(rows: seq<Row>, i: nat, n: nat, behind: seq<Byte>)
    requires RowsFit(rows, i) && i + |rows| < n && ScanRow(behind, i + |rows|) == Bad(Malformed)
    ensures ScanRows(RowsBytes(rows) + behind, i, n) == Bad(Malformed)
    decreases |rows|
  {
    hide ScanRow;
    hide BlocksFit;
    hide BlocksBytes;
    hide RowHead;
    hide InPlace;
    hide Pow256;
    if rows == [] {
      assert RowsBytes(rows) + behind == behind;
    } else {
      assert InPlace(rows[0].id, rows[0].parent, i + 0);
      forall k | 0 <= k < |rows[1..]|
        ensures InPlace(rows[1..][k].id, rows[1..][k].parent, i + 1 + k) && BlocksFit(rows[1..][k].blocks)
      {
        assert rows[1..][k] == rows[k + 1];
      }
      RowBack(rows[0], i, RowsBytes(rows[1..]) + behind);
      RowsMisplaced(rows[1..], i + 1, n, behind);
      var first := RowHead(rows[0]) + BlocksBytes(rows[0].blocks);
      assert RowsBytes(rows) + behind == first + (RowsBytes(rows[1..]) + behind);
    }
  }

  /** After good rows, a row with the wrong number, or below one that is not there yet, makes the file malformed. */
  lemma OutOfPlace(flags: nat, scene: nat, n: nat, rows: seq<Row>, id: nat, parent: nat, count: nat, rest: seq<Byte>)
    requires FileFits(flags, scene, rows) && |rows| < n < Pow256(4)
    requires id < Pow256(4) && parent < Pow256(4) && count < Pow256(4) && !InPlace(id, parent, |rows|)
    ensures var behind := RowsBytes(rows) + (HeadBytes(id, parent, count) + rest);
            ScanFile(FlaggedHeader(SCENE_KIND, flags) + (LittleEndian(8, scene) + (LittleEndian(4, n) + behind))) == Bad(Malformed)
  {
    hide ScanNumber;
    hide ScanHeader;
    hide ScanRow;
    hide ScanRows;
    hide RowsFit;
    hide RowsBytes;
    hide HeadBytes;
    hide Pow256;
    Pow256Four();
    HeadMisplaced(id, parent, count, |rows|, rest);
    RowsMisplaced(rows, 0, n, HeadBytes(id, parent, count) + rest);
    var behind := RowsBytes(rows) + (HeadBytes(id, parent, count) + rest);
    HeaderBack(SCENE_KIND, flags, LittleEndian(8, scene) + (LittleEndian(4, n) + behind));
    NumberBack(8, scene, LittleEndian(4, n) + behind);
    NumberBack(4, n, behind);
  }

  /** A file scans exactly if it was written, with some flags: nothing else is taken for a scene. */
  lemma ScansExactly(bytes: seq<Byte>, id: nat, rows: seq<Row>)
    ensures ScanFile(bytes) == Got((id, rows), []) <==>
            exists flags :: FileFits(flags, id, rows) && bytes == FileBytes(flags, id, rows)
  {
    hide ScanFile;
    hide FileFits;
    hide FileBytes;
    if ScanFile(bytes) == Got((id, rows), []) {
      FileWas(bytes);
    }
    forall flags | FileFits(flags, id, rows) && bytes == FileBytes(flags, id, rows)
      ensures ScanFile(bytes) == Got((id, rows), [])
    {
      FileBack(flags, id, rows);
    }
  }

  // ----- Cut off and carried on -----

  /** More bytes behind change neither what was taken nor an error other than that bytes were missing. */
  ghost predicate Longer<T>(scan: Scan<T>, scan': Scan<T>, more: seq<Byte>) {
    match scan
    case Got(value, rest) => scan' == Got(value, rest + more)
    case Bad(error) => error != Truncated ==> scan' == Bad(error)
  }

  lemma NumberLonger(bytes: seq<Byte>, width: nat, more: seq<Byte>)
    ensures Longer(ScanNumber(bytes, width), ScanNumber(bytes + more, width), more)
  {
    if |bytes| >= width {
      assert (bytes + more)[..width] == bytes[..width] && (bytes + more)[width..] == bytes[width..] + more;
    }
  }

  lemma SpanLonger(bytes: seq<Byte>, more: seq<Byte>)
    ensures Longer(ScanSpan(bytes), ScanSpan(bytes + more), more)
  {
    hide ScanNumber;
    NumberLonger(bytes, 4, more);
    var number := ScanNumber(bytes, 4);
    if number.Got? && |number.rest| >= number.value {
      assert (number.rest + more)[..number.value] == number.rest[..number.value];
      assert (number.rest + more)[number.value..] == number.rest[number.value..] + more;
    }
  }

  lemma HeaderLonger(bytes: seq<Byte>, kind: BlobKind, more: seq<Byte>)
    ensures Longer(ScanHeader(bytes, kind), ScanHeader(bytes + more, kind), more)
  {
    hide ScanNumber;
    NumberLonger(bytes, 4, more);
    var magic := ScanNumber(bytes, 4);
    if magic.Got? {
      NumberLonger(magic.rest, 2, more);
      var version := ScanNumber(magic.rest, 2);
      if version.Got? {
        NumberLonger(version.rest, 2, more);
      }
    }
  }

  lemma BlockLonger(bytes: seq<Byte>, more: seq<Byte>)
    ensures Longer(ScanBlock(bytes), ScanBlock(bytes + more), more)
  {
    hide ScanNumber;
    hide ScanSpan;
    NumberLonger(bytes, 8, more);
    if ScanNumber(bytes, 8).Got? {
      SpanLonger(ScanNumber(bytes, 8).rest, more);
    }
  }

  lemma {:induction false} BlocksLonger(bytes: seq<Byte>, n: nat, more: seq<Byte>)
    ensures Longer(ScanBlocks(bytes, n), ScanBlocks(bytes + more, n), more)
    decreases n
  {
    hide ScanBlock;
    if n > 0 {
      BlockLonger(bytes, more);
      if ScanBlock(bytes).Got? {
        BlocksLonger(ScanBlock(bytes).rest, n - 1, more);
      }
    }
  }

  lemma HeadLonger(bytes: seq<Byte>, i: nat, more: seq<Byte>)
    ensures Longer(ScanHead(bytes, i), ScanHead(bytes + more, i), more)
  {
    hide ScanNumber;
    NumberLonger(bytes, 4, more);
    var id := ScanNumber(bytes, 4);
    if id.Got? {
      NumberLonger(id.rest, 4, more);
      var parent := ScanNumber(id.rest, 4);
      if parent.Got? {
        NumberLonger(parent.rest, 4, more);
      }
    }
  }

  lemma RowLonger(bytes: seq<Byte>, i: nat, more: seq<Byte>)
    ensures Longer(ScanRow(bytes, i), ScanRow(bytes + more, i), more)
  {
    hide ScanHead;
    hide ScanBlocks;
    HeadLonger(bytes, i, more);
    var head := ScanHead(bytes, i);
    if head.Got? {
      BlocksLonger(head.rest, head.value.1, more);
    }
  }

  lemma {:induction false} RowsLonger(bytes: seq<Byte>, i: nat, n: nat, more: seq<Byte>)
    requires i <= n
    ensures Longer(ScanRows(bytes, i, n), ScanRows(bytes + more, i, n), more)
    decreases n - i
  {
    hide ScanRow;
    if i < n {
      RowLonger(bytes, i, more);
      if ScanRow(bytes, i).Got? {
        RowsLonger(ScanRow(bytes, i).rest, i + 1, n, more);
      }
    }
  }

  lemma StartLonger(bytes: seq<Byte>, more: seq<Byte>)
    ensures Longer(ScanStart(bytes), ScanStart(bytes + more), more)
  {
    hide ScanNumber;
    hide ScanHeader;
    HeaderLonger(bytes, SCENE_KIND, more);
    var header := ScanHeader(bytes, SCENE_KIND);
    if header.Got? {
      NumberLonger(header.rest, 8, more);
      var id := ScanNumber(header.rest, 8);
      if id.Got? {
        NumberLonger(id.rest, 4, more);
      }
    }
  }

  /** Anything behind a whole file makes it malformed, and so does any malformed beginning. */
  lemma FileLonger(bytes: seq<Byte>, more: seq<Byte>)
    requires more != [] && ScanFile(bytes) != Bad(Truncated)
    ensures ScanFile(bytes + more) == if ScanFile(bytes).Bad? then ScanFile(bytes) else Bad(Malformed)
  {
    hide ScanStart;
    hide ScanRows;
    StartLonger(bytes, more);
    var start := ScanStart(bytes);
    if start.Got? {
      RowsLonger(start.rest, 0, start.value.1, more);
    }
  }

  /** Every truncation of a whole file is refused as truncated. */
  lemma CutIsTruncated(bytes: seq<Byte>, n: nat)
    requires ScanFile(bytes).Got? && n < |bytes|
    ensures ScanFile(bytes[..n]) == Bad(Truncated)
  {
    hide ScanFile;
    assert bytes == bytes[..n] + bytes[n..];
    if ScanFile(bytes[..n]) != Bad(Truncated) {
      FileLonger(bytes[..n], bytes[n..]);
    }
  }

  // ----- Writing and reading the pieces -----

  lemma {:induction false} BlockMore(blocks: seq<Block>, block: Block)
    ensures BlocksBytes(blocks + [block]) == BlocksBytes(blocks) + BlockBytes(block)
  {
    hide BlockBytes;
    if blocks == [] {
      assert [] + [block] == [block] && [block][1..] == [];
      assert BlocksBytes([block]) == BlockBytes(block) + BlocksBytes([]);
    } else {
      BlockMore(blocks[1..], block);
      assert (blocks + [block])[1..] == blocks[1..] + [block];
    }
  }

  lemma {:induction false} RowMore(rows: seq<Row>, row: Row)
    ensures RowsBytes(rows + [row]) == RowsBytes(rows) + (RowHead(row) + BlocksBytes(row.blocks))
  {
    hide RowHead;
    hide BlocksBytes;
    if rows == [] {
      assert [] + [row] == [row] && [row][1..] == [];
      assert RowsBytes([row]) == (RowHead(row) + BlocksBytes(row.blocks)) + RowsBytes([]);
    } else {
      RowMore(rows[1..], row);
      assert (rows + [row])[1..] == rows[1..] + [row];
      assert ((RowHead(rows[0]) + BlocksBytes(rows[0].blocks)) + RowsBytes(rows[1..])) + (RowHead(row) + BlocksBytes(row.blocks))
          == (RowHead(rows[0]) + BlocksBytes(rows[0].blocks)) + (RowsBytes(rows[1..]) + (RowHead(row) + BlocksBytes(row.blocks)));
    }
  }

  method PutBlock(writer: Writer, block: Block)
    modifies writer.buffer
    ensures writer.buffer.bytes == old(writer.buffer.bytes) + BlockBytes(block)
  {
    hide LittleEndian;
    writer.WriteNumber(8, block.tag);
    writer.WriteNumber(4, |block.payload|);
    writer.WriteBytes(block.payload);
  }

  method PutHead(writer: Writer, id: nat, parent: nat, count: nat)
    modifies writer.buffer
    ensures writer.buffer.bytes == old(writer.buffer.bytes) + HeadBytes(id, parent, count)
  {
    hide LittleEndian;
    writer.WriteNumber(4, id);
    writer.WriteNumber(4, parent);
    writer.WriteNumber(4, count);
  }

  method PutStart(writer: Writer, id: nat, count: nat)
    modifies writer.buffer
    ensures writer.buffer.bytes ==
            old(writer.buffer.bytes) + (HeaderBytes(SCENE_KIND) + (LittleEndian(8, id) + LittleEndian(4, count)))
  {
    hide LittleEndian;
    hide FlaggedHeader;
    writer.WriteHeader(SCENE_KIND);
    writer.WriteNumber(8, id);
    writer.WriteNumber(4, count);
  }

  method TakeBlock(reader: Reader) returns (block: Block)
    requires reader.Valid() && reader.error.None?
    modifies reader
    ensures reader.Valid()
    ensures reader.error.Some? ==> ScanBlock(old(reader.Rest())) == Bad(reader.error.value)
    ensures reader.error.None? ==> ScanBlock(old(reader.Rest())) == Got(block, reader.Rest())
  {
    hide ScanNumber;
    hide ScanSpan;
    var tag := reader.ReadNumber(8);
    var payload := reader.ReadSpan();
    block := Block(tag, payload);
  }

  /** A row up to its blocks, and whether it stands where it should. */
  method TakeHead(reader: Reader, i: nat) returns (error: Option<ReadError>, parent: nat, count: nat)
    requires reader.Valid() && reader.error.None?
    modifies reader
    ensures reader.Valid()
    ensures error.None? ==> reader.error.None? && ScanHead(old(reader.Rest()), i) == Got((parent, count), reader.Rest())
    ensures error.None? ==> (parent == NO_PARENT || parent < i) && |old(reader.Rest())| == ROW_SIZE + |reader.Rest()|
    ensures error.Some? ==> ScanHead(old(reader.Rest()), i) == Bad(error.value)
  {
    hide ScanNumber;
    var id := reader.ReadNumber(4);
    parent := reader.ReadNumber(4);
    count := reader.ReadNumber(4);
    error := if reader.error.Some? then reader.error else if InPlace(id, parent, i) then None else Some(Malformed);
  }

  method TakeStart(reader: Reader) returns (id: nat, count: nat)
    requires reader.Valid() && reader.error.None?
    modifies reader
    ensures reader.Valid()
    ensures reader.error.Some? ==> ScanStart(old(reader.Rest())) == Bad(reader.error.value)
    ensures reader.error.None? ==> ScanStart(old(reader.Rest())) == Got((id, count), reader.Rest())
  {
    hide ScanNumber;
    hide ScanHeader;
    reader.ReadHeader(SCENE_KIND);
    id := reader.ReadNumber(8);
    count := reader.ReadNumber(4);
  }

  // ----- How a scan goes on -----

  lemma BlocksGoOn(all: Scan<seq<Block>>, front: seq<Block>, bytes: seq<Byte>, n: nat)
    requires all == Prefixed(front, ScanBlocks(bytes, n)) && n > 0
    ensures ScanBlock(bytes).Bad? ==> all == Bad(ScanBlock(bytes).error)
    ensures ScanBlock(bytes).Got? ==> all == Prefixed(front + [ScanBlock(bytes).value], ScanBlocks(ScanBlock(bytes).rest, n - 1))
  {
    hide ScanBlock;
    if ScanBlock(bytes).Got? && ScanBlocks(ScanBlock(bytes).rest, n - 1).Got? {
      var block, back := ScanBlock(bytes).value, ScanBlocks(ScanBlock(bytes).rest, n - 1).value;
      assert front + ([block] + back) == (front + [block]) + back;
    }
  }

  lemma RowsGoOn(all: Scan<seq<Row>>, front: seq<Row>, bytes: seq<Byte>, i: nat, n: nat)
    requires i < n && all == Prefixed(front, ScanRows(bytes, i, n))
    ensures ScanRow(bytes, i).Bad? ==> all == Bad(ScanRow(bytes, i).error)
    ensures ScanRow(bytes, i).Got? ==>
              all == Prefixed(front + [ScanRow(bytes, i).value], ScanRows(ScanRow(bytes, i).rest, i + 1, n))
  {
    hide ScanRow;
    var row := ScanRow(bytes, i);
    if row.Got? && ScanRows(row.rest, i + 1, n).Got? {
      var back := ScanRows(row.rest, i + 1, n).value;
      assert front + ([row.value] + back) == (front + [row.value]) + back;
    }
  }

  lemma RowParts(bytes: seq<Byte>, i: nat)
    ensures var head := ScanHead(bytes, i);
            && (head.Bad? ==> ScanRow(bytes, i) == Bad(head.error))
            && (head.Got? ==>
                  var blocks := ScanBlocks(head.rest, head.value.1);
                  ScanRow(bytes, i) == if blocks.Bad? then Bad(blocks.error) else Got(Row(i, head.value.0, blocks.value), blocks.rest))
  {
  }

  lemma FileParts(bytes: seq<Byte>)
    ensures var start := ScanStart(bytes);
            && (start.Bad? ==> ScanFile(bytes) == Bad(start.error))
            && (start.Got? ==>
                  var rows := ScanRows(start.rest, 0, start.value.1);
                  ScanFile(bytes) == if rows.Bad? then Bad(rows.error)
                                     else if rows.rest == [] then Got((start.value.0, rows.value), []) else Bad(Malformed))
  {
  }

  lemma PrefixedNone<T>(scan: Scan<seq<T>>)
    ensures Prefixed([], scan) == scan
  {
    if scan.Got? {
      assert [] + scan.value == scan.value;
    }
  }

  /** Places enough for some rows, or for as many as fit in the bytes left. */
  ghost predicate Room(spare: int, rows: nat, left: nat) {
    rows <= spare || left <= ROW_SIZE * spare
  }

  lemma RoomForOne(spare: int, rows: nat, left: nat)
    requires Room(spare, rows, left) && rows > 0
    ensures spare > 0 || left < ROW_SIZE
  {
  }

  lemma RoomForOthers(spare: int, rows: nat, left: nat, spare': int, left': nat)
    requires Room(spare, rows, left) && rows > 0 && spare' >= spare - 1 && left' + ROW_SIZE <= left
    ensures Room(spare', rows - 1, left')
  {
  }

  /** Places enough for the rows a file says it has, or for as many as its bytes can hold. */
  ghost predicate RoomFor(spare: int, bytes: seq<Byte>) {
    ScanStart(bytes).Got? ==> Room(spare, ScanStart(bytes).value.1, |ScanStart(bytes).rest|)
  }

  lemma RoomMeans(spare: int, bytes: seq<Byte>)
    requires RoomFor(spare, bytes)
    ensures ScanStart(bytes).Got? ==> Room(spare, ScanStart(bytes).value.1, |ScanStart(bytes).rest|)
  {
  }

  lemma RoomForRows(flags: nat, id: nat, rows: seq<Row>, spare: int)
    requires FileFits(flags, id, rows) && |rows| <= spare
    ensures RoomFor(spare, FileBytes(flags, id, rows))
  {
    hide ScanStart;
    StartBack(flags, id, rows);
  }

  lemma NoMoreBlocks(blocks: seq<Block>, bytes: seq<Byte>)
    ensures Prefixed(blocks, ScanBlocks(bytes, 0)) == Got(blocks, bytes)
  {
    assert blocks + [] == blocks;
  }

  lemma NoMoreRows(rows: seq<Row>, bytes: seq<Byte>, n: nat)
    ensures Prefixed(rows, ScanRows(bytes, n, n)) == Got(rows, bytes)
  {
    assert rows + [] == rows;
  }

  /** Blocks take no more bytes than there are. */
  lemma BlocksTake(bytes: seq<Byte>, n: nat)
    ensures ScanBlocks(bytes, n).Got? ==> |ScanBlocks(bytes, n).rest| <= |bytes|
  {
    hide ScanBlocks;
    if ScanBlocks(bytes, n).Got? {
      BlocksWere(bytes, n);
    }
  }

  lemma ScannedInPlace(bytes: seq<Byte>)
    requires ScanFile(bytes).Got?
    ensures var rows := ScanFile(bytes).value.1; forall i :: 0 <= i < |rows| ==> InPlace(rows[i].id, rows[i].parent, i)
  {
    hide ScanFile;
    FileWas(bytes);
    var rows := ScanFile(bytes).value.1;
    forall i | 0 <= i < |rows| ensures InPlace(rows[i].id, rows[i].parent, i) {
      assert InPlace(rows[i].id, rows[i].parent, 0 + i);
    }
  }
}
