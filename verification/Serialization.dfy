/** Little-endian numbers and length-prefixed strings, appended by a writer and taken off by a reader. */
module Serialization {
  import opened Wrappers

  function Pow256(n: nat): (p: nat)
    ensures p > 0
  {
    if n == 0 then 1 else 256 * Pow256(n - 1)
  }

  /** The `width` bytes of a number, least significant first. */
  function LittleEndian(width: nat, value: nat): (bytes: seq<Byte>)
    ensures |bytes| == width
  {
    if width == 0 then [] else [value % 256] + LittleEndian(width - 1, value / 256)
  }

  function FromLittleEndian(bytes: seq<Byte>): nat {
    if bytes == [] then 0 else bytes[0] + 256 * FromLittleEndian(bytes[1..])
  }

  lemma {:induction false} LittleEndianRoundTrip(width: nat, value: nat)
    requires value < Pow256(width)
    ensures FromLittleEndian(LittleEndian(width, value)) == value
  {
    if width > 0 {
      assert value / 256 < Pow256(width - 1);
      LittleEndianRoundTrip(width - 1, value / 256);
      assert LittleEndian(width, value)[1..] == LittleEndian(width - 1, value / 256);
    }
  }

  lemma {:induction false} FromLittleEndianBack(bytes: seq<Byte>)
    ensures FromLittleEndian(bytes) < Pow256(|bytes|)
    ensures LittleEndian(|bytes|, FromLittleEndian(bytes)) == bytes
  {
    if bytes != [] {
      FromLittleEndianBack(bytes[1..]);
      assert FromLittleEndian(bytes) % 256 == bytes[0] && FromLittleEndian(bytes) / 256 == FromLittleEndian(bytes[1..]);
    }
  }

  lemma DivideTwice(n: nat, b: nat)
    requires b > 0
    ensures n / 256 / b == n / (256 * b)
  {
    var m := n / 256;
    var q, r := m / b, m % b;
    Divided(m, b);
    assert n == 256 * (b * q) + (256 * r + n % 256);
    Associative(b, q);
    QuotientIs(n, 256 * b, q, 256 * r + n % 256);
  }

  lemma Divided(m: nat, b: nat)
    requires b > 0
    ensures m == b * (m / b) + m % b && 0 <= m % b < b
  {
  }

  lemma Associative(b: nat, q: nat)
    ensures 256 * (b * q) == 256 * b * q
  {
  }

  lemma QuotientIs(n: nat, d: nat, q: nat, r: nat)
    requires n == d * q + r && r < d
    ensures n / d == q
  {
    var k := n / d;
    Divided(n, d);
    MultiplesApart(d, k, q);
    MultiplesApart(d, q, k);
  }

  lemma {:induction false} MultiplesApart(d: nat, k: nat, q: nat)
    ensures k < q ==> d * k + d <= d * q
    decreases q
  {
    if k < q {
      OneMultipleMore(d, q - 1);
      MultiplesApart(d, k, q - 1);
    }
  }

  lemma OneMultipleMore(d: nat, q: nat)
    ensures d * (q + 1) == d * q + d
  {
  }

  /** Byte `k` of a number is its digit number `k` to the base 256. */
  lemma {:induction false} LittleEndianDigit(width: nat, value: nat, k: nat)
    requires k < width
    ensures LittleEndian(width, value)[k] == value / Pow256(k) % 256
  {
    if k > 0 {
      LittleEndianDigit(width - 1, value / 256, k - 1);
      DivideTwice(value, Pow256(k - 1));
    }
  }

  /** The number read from some bytes has those bytes as its digits. */
  lemma FromLittleEndianDigit(bytes: seq<Byte>, k: nat)
    requires k < |bytes|
    ensures FromLittleEndian(bytes) / Pow256(k) % 256 == bytes[k]
  {
    FromLittleEndianBack(bytes);
    LittleEndianDigit(|bytes|, FromLittleEndian(bytes), k);
  }

  datatype ReadError = Truncated | BadMagic | BadVersion | Malformed

  datatype BlobKind = BlobKind(magic: nat, version: nat)

  const BLOB_HEADER_SIZE: nat := 8
  const BLOB_MAX_COUNT: nat := 0xFFFF_FFFF

  // ----- Taking bytes off the front -----

  /** What was taken and the bytes behind it, or why nothing could be taken. */
  datatype Scan<+T> = Got(value: T, rest: seq<Byte>) | Bad(error: ReadError)

  function ScanNumber(bytes: seq<Byte>, width: nat): Scan<nat> {
    if |bytes| < width then Bad(Truncated) else Got(FromLittleEndian(bytes[..width]), bytes[width..])
  }

  /** A count of 4 bytes and that many bytes. */
  function ScanSpan(bytes: seq<Byte>): Scan<seq<Byte>> {
    match ScanNumber(bytes, 4)
    case Bad(error) => Bad(error)
    case Got(count, rest) => if |rest| < count then Bad(Truncated) else Got(rest[..count], rest[count..])
  }

  /** The magic number is checked before the version is read; the flags may be anything. */
  function ScanHeader(bytes: seq<Byte>, kind: BlobKind): Scan<nat> {
    match ScanNumber(bytes, 4)
    case Bad(error) => Bad(error)
    case Got(magic, afterMagic) =>
      if magic != kind.magic then Bad(BadMagic) else
      match ScanNumber(afterMagic, 2)
      case Bad(error) => Bad(error)
      case Got(version, afterVersion) => if version != kind.version then Bad(BadVersion) else ScanNumber(afterVersion, 2)
  }

  lemma NumberBack(width: nat, value: nat, rest: seq<Byte>)
    requires value < Pow256(width)
    ensures ScanNumber(LittleEndian(width, value) + rest, width) == Got(value, rest)
  {
    LittleEndianRoundTrip(width, value);
    var bytes := LittleEndian(width, value) + rest;
    assert bytes[..width] == LittleEndian(width, value) && bytes[width..] == rest;
  }

  lemma NumberWas(bytes: seq<Byte>, width: nat)
    requires ScanNumber(bytes, width).Got?
    ensures var got := ScanNumber(bytes, width);
            got.value < Pow256(width) && bytes == LittleEndian(width, got.value) + got.rest
  {
    hide Pow256;
    hide LittleEndian;
    hide FromLittleEndian;
    FromLittleEndianBack(bytes[..width]);
    assert bytes == bytes[..width] + bytes[width..];
  }

  lemma SpanBack(text: seq<Byte>, rest: seq<Byte>)
    requires |text| < Pow256(4)
    ensures ScanSpan(StringBytes(text) + rest) == Got(text, rest)
  {
    hide ScanNumber;
    NumberBack(4, |text|, text + rest);
    assert StringBytes(text) + rest == LittleEndian(4, |text|) + (text + rest);
  }

  lemma SpanWas(bytes: seq<Byte>)
    requires ScanSpan(bytes).Got?
    ensures var got := ScanSpan(bytes);
            |got.value| < Pow256(4) && bytes == StringBytes(got.value) + got.rest
  {
    hide ScanNumber;
    hide Pow256;
    NumberWas(bytes, 4);
    var number, got := ScanNumber(bytes, 4), ScanSpan(bytes);
    assert number.rest == got.value + got.rest;
    assert StringBytes(got.value) + got.rest == LittleEndian(4, |got.value|) + (got.value + got.rest);
  }

  /** A header with some flags is what ScanHeader takes, and the only thing it takes. */
  lemma HeaderBack(kind: BlobKind, flags: nat, rest: seq<Byte>)
    requires kind.magic < Pow256(4) && kind.version < Pow256(2) && flags < Pow256(2)
    ensures ScanHeader(FlaggedHeader(kind, flags) + rest, kind) == Got(flags, rest)
  {
    hide ScanNumber;
    hide Pow256;
    var behind := LittleEndian(2, flags) + rest;
    NumberBack(4, kind.magic, LittleEndian(2, kind.version) + behind);
    NumberBack(2, kind.version, behind);
    NumberBack(2, flags, rest);
    assert FlaggedHeader(kind, flags) + rest == LittleEndian(4, kind.magic) + (LittleEndian(2, kind.version) + behind);
  }

  lemma HeaderWas(bytes: seq<Byte>, kind: BlobKind)
    requires ScanHeader(bytes, kind).Got?
    ensures var got := ScanHeader(bytes, kind);
            got.value < Pow256(2) && bytes == FlaggedHeader(kind, got.value) + got.rest
  {
    hide ScanNumber;
    hide Pow256;
    var magic := ScanNumber(bytes, 4);
    var version := ScanNumber(magic.rest, 2);
    NumberWas(bytes, 4);
    NumberWas(magic.rest, 2);
    NumberWas(version.rest, 2);
    var got := ScanHeader(bytes, kind);
    var behind := LittleEndian(2, got.value) + got.rest;
    assert FlaggedHeader(kind, got.value) + got.rest == LittleEndian(4, kind.magic) + (LittleEndian(2, kind.version) + behind);
  }

  /** A growing run of bytes. */
  class ByteBuffer {
    var bytes: seq<Byte>

    constructor ()
      ensures bytes == []
    {
      bytes := [];
    }

    /** Cuts the bytes off, or pads them with zeros, at `size`. */
    method Resize(size: nat)
      modifies this
      ensures |bytes| == size
      ensures size >= |old(bytes)| ==> bytes == old(bytes) + Zeros(size - |old(bytes)|)
      ensures size < |old(bytes)| ==> bytes == old(bytes)[..size]
    {
      if size >= |bytes| {
        bytes := bytes + Zeros(size - |bytes|);
      } else {
        bytes := bytes[..size];
      }
    }
  }

  function Zeros(n: nat): (zeros: seq<Byte>)
    ensures |zeros| == n && forall i :: 0 <= i < n ==> zeros[i] == 0
  {
    seq(n, _ => 0)
  }

  function FlaggedHeader(kind: BlobKind, flags: nat): seq<Byte> {
    LittleEndian(4, kind.magic) + LittleEndian(2, kind.version) + LittleEndian(2, flags)
  }

  function HeaderBytes(kind: BlobKind): seq<Byte> {
    FlaggedHeader(kind, 0)
  }

  function StringBytes(text: seq<Byte>): seq<Byte> {
    LittleEndian(4, |text|) + text
  }

  class Writer {
    const buffer: ByteBuffer

    constructor (buffer: ByteBuffer)
      ensures this.buffer == buffer
    {
      this.buffer := buffer;
    }

    method WriteBytes(bytes: seq<Byte>)
      modifies buffer
      ensures buffer.bytes == old(buffer.bytes) + bytes
    {
      buffer.bytes := buffer.bytes + bytes;
    }

    /** Appends a number of 1, 2, 4 or 8 bytes. */
    method WriteNumber(width: nat, value: nat)
      modifies buffer
      ensures buffer.bytes == old(buffer.bytes) + LittleEndian(width, value)
      ensures |buffer.bytes| == |old(buffer.bytes)| + width
      ensures forall k :: 0 <= k < width ==> buffer.bytes[|old(buffer.bytes)| + k] == value / Pow256(k) % 256
    {
      forall k: nat | k < width ensures LittleEndian(width, value)[k] == value / Pow256(k) % 256 {
        LittleEndianDigit(width, value, k);
      }
      WriteBytes(LittleEndian(width, value));
    }

    method WriteHeader(kind: BlobKind)
      modifies buffer
      ensures buffer.bytes == old(buffer.bytes) + HeaderBytes(kind)
    {
      hide LittleEndian;
      WriteNumber(4, kind.magic);
      WriteNumber(2, kind.version);
      WriteNumber(2, 0);
    }

    /** A string too long for its length prefix is written as an empty one. */
    method WriteString(text: seq<Byte>)
      modifies buffer
      ensures buffer.bytes == old(buffer.bytes) + if |text| <= BLOB_MAX_COUNT then StringBytes(text) else StringBytes([])
    {
      hide LittleEndian;
      if |text| > BLOB_MAX_COUNT {
        WriteNumber(4, 0);
        return;
      }
      WriteNumber(4, |text|);
      WriteBytes(text);
    }
  }

  class Reader {
    const buffer: seq<Byte>
    var position: nat
    var error: Option<ReadError>

    ghost predicate Valid()
      reads this
    {
      position <= |buffer|
    }

    constructor (buffer: seq<Byte>)
      ensures Valid() && position == 0 && error.None? && this.buffer == buffer && Rest() == buffer
    {
      this.buffer, position, error := buffer, 0, None;
    }

    function Rest(): seq<Byte>
      requires Valid()
      reads this
    {
      buffer[position..]
    }

    /** The next `count` bytes; after the first failure nothing moves any more. */
    method TakeRaw(count: nat) returns (bytes: seq<Byte>)
      requires Valid()
      modifies this
      ensures Valid()
      ensures old(error).Some? ==> error == old(error) && position == old(position) && bytes == []
      ensures old(error).None? && |buffer| - old(position) < count ==>
                error == Some(Truncated) && position == old(position) && bytes == []
      ensures old(error).None? && |buffer| - old(position) >= count ==>
                error.None? && position == old(position) + count && bytes == buffer[old(position)..position]
    {
      bytes := [];
      if error.Some? {
        return;
      }
      if |buffer| - position < count {
        error := Some(Truncated);
        return;
      }
      bytes := buffer[position..position + count];
      position := position + count;
    }

    method ReadNumber(width: nat) returns (value: nat)
      requires Valid()
      modifies this
      ensures Valid()
      ensures old(error).Some? ==> error == old(error) && position == old(position) && value == 0
      ensures old(error).None? && |buffer| - old(position) < width ==>
                error == Some(Truncated) && position == old(position) && value == 0
      ensures old(error).None? && |buffer| - old(position) >= width ==>
                error.None? && position == old(position) + width && value == FromLittleEndian(buffer[old(position)..position])
                && value < Pow256(width)
                && forall k :: 0 <= k < width ==> buffer[old(position) + k] == value / Pow256(k) % 256
      ensures error.None? ==> ScanNumber(old(Rest()), width) == Got(value, Rest())
      ensures old(error).None? && error.Some? ==> ScanNumber(old(Rest()), width) == Bad(error.value)
    {
      ghost var before := Rest();
      var bytes := TakeRaw(width);
      assert error.None? ==> bytes == before[..width] && Rest() == before[width..];
      value := FromLittleEndian(bytes);
      FromLittleEndianBack(bytes);
      forall k: nat | k < |bytes| ensures value / Pow256(k) % 256 == bytes[k] {
        FromLittleEndianDigit(bytes, k);
      }
    }

    /** A count and that many bytes; nothing is taken if there are fewer. */
    method ReadSpan() returns (bytes: seq<Byte>)
      requires Valid()
      modifies this
      ensures Valid()
      ensures old(error).Some? ==> error == old(error)
      ensures error.None? ==> ScanSpan(old(Rest())) == Got(bytes, Rest())
      ensures old(error).None? && error.Some? ==> ScanSpan(old(Rest())) == Bad(error.value)
    {
      bytes := [];
      var count := ReadNumber(4);
      if error.Some? {
        return;
      }
      ghost var behind := Rest();
      if |buffer| - position < count {
        error := Some(Truncated);
        return;
      }
      bytes := TakeRaw(count);
      assert bytes == behind[..count] && Rest() == behind[count..];
    }

    /** Checks the magic number, then the version. */
    method ReadHeader(kind: BlobKind)
      requires Valid() && error.None?
      modifies this
      ensures Valid()
      ensures |buffer| - old(position) < BLOB_HEADER_SIZE ==> error.Some?
      ensures |buffer| - old(position) >= BLOB_HEADER_SIZE ==>
                var p := old(position);
                if FromLittleEndian(buffer[p..p + 4]) != kind.magic then error == Some(BadMagic)
                else if FromLittleEndian(buffer[p + 4..p + 6]) != kind.version then error == Some(BadVersion)
                else error.None? && position == p + BLOB_HEADER_SIZE
      ensures error.None? ==> ScanHeader(old(Rest()), kind).Got? && ScanHeader(old(Rest()), kind).rest == Rest()
      ensures error.Some? ==> ScanHeader(old(Rest()), kind) == Bad(error.value)
    {
      var magic := ReadNumber(4);
      if error.Some? {
        return;
      }
      if magic != kind.magic {
        error := Some(BadMagic);
        return;
      }
      var formatVersion := ReadNumber(2);
      if error.Some? {
        return;
      }
      if formatVersion != kind.version {
        error := Some(BadVersion);
        return;
      }
      var flags := ReadNumber(2);
    }
  }

  lemma Pow256Four()
    ensures Pow256(2) == 0x1_0000 && Pow256(4) == 0x1_0000_0000 && Pow256(8) == 0x1_0000_0000_0000_0000
  {
    assert Pow256(2) == 0x1_0000;
    assert Pow256(4) == 0x1_0000_0000;
    assert Pow256(6) == 0x1_0000_0000_0000;
  }
}
