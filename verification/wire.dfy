/**
 * The byte-level wire format written and read by a BridgeStream, as pure
 * functions over byte sequences.
 *
 * Every multi-byte number is stored little-endian (the byte order of the
 * hosts the stream runs on). An `EncodeX` function gives the bytes a write
 * appends; a `ParseX(s, pos)` function gives the value a read starting at
 * `pos` returns together with the position just after it, or `None` when
 * the bytes at `pos` cannot be read (too few of them, or a negative length).
 */
module Wire {

  type byte = b: int | 0 <= b < 0x100

  /** A C# `int`. */
  type int32 = x: int | -0x8000_0000 <= x < 0x8000_0000

  /** A C# `long`. */
  type int64 = x: int | -0x8000_0000_0000_0000 <= x < 0x8000_0000_0000_0000

  /** A C# `float`, known only by its IEEE 754 binary32 bit pattern. */
  type float32 = bits: int | 0 <= bits < 0x1_0000_0000

  const MaxInt32: int := 0x7FFF_FFFF

  /** A byte array or the UTF-8 bytes of a string: its length fits a C# `int`. */
  type ByteSpan = s: seq<byte> | |s| <= MaxInt32

  datatype Option<+T> = None | Some(value: T)

  // ---------------------------------------------------------------------
  // Little-endian unsigned numbers

  function Pow256(n: nat): (r: nat)
    ensures r > 0
  {
    if n == 0 then 1 else 256 * Pow256(n - 1)
  }

  lemma Pow256Widths()
    ensures Pow256(4) == 0x1_0000_0000
    ensures Pow256(8) == 0x1_0000_0000_0000_0000
  {
  }

  /** The `width` bytes of `u`, least significant first. */
  function LittleEndian(u: nat, width: nat): (r: seq<byte>)
    requires u < Pow256(width)
    ensures |r| == width
  {
    if width == 0 then [] else [u % 256] + LittleEndian(u / 256, width - 1)
  }

  /** The unsigned number whose little-endian bytes are `bs`. */
  function FromLittleEndian(bs: seq<byte>): (r: nat)
    ensures r < Pow256(|bs|)
  {
    if bs == [] then 0 else bs[0] + 256 * FromLittleEndian(bs[1..])
  }

  lemma {:induction false} FromLittleEndianOfLittleEndian(u: nat, width: nat)
    requires u < Pow256(width)
    ensures FromLittleEndian(LittleEndian(u, width)) == u
  {
    if width > 0 {
      FromLittleEndianOfLittleEndian(u / 256, width - 1);
      assert LittleEndian(u, width)[1..] == LittleEndian(u / 256, width - 1);
    }
  }

  lemma {:induction false} LittleEndianOfFromLittleEndian(bs: seq<byte>)
    ensures LittleEndian(FromLittleEndian(bs), |bs|) == bs
  {
    if bs != [] {
      var rest := FromLittleEndian(bs[1..]);
      LittleEndianOfFromLittleEndian(bs[1..]);
      assert FromLittleEndian(bs) % 256 == bs[0] && FromLittleEndian(bs) / 256 == rest;
      assert bs == [bs[0]] + bs[1..];
    }
  }

  /** Four little-endian bytes, spelled out place by place. */
  lemma FromLittleEndianOfFour(w: seq<byte>)
    requires |w| == 4
    ensures FromLittleEndian(w) == w[0] as int + w[1] as int * 0x100 + w[2] as int * 0x1_0000 + w[3] as int * 0x100_0000
  {
    assert w[1..][1..][1..][1..] == [];
    assert FromLittleEndian(w[1..][1..][1..]) == w[3];
    assert FromLittleEndian(w[1..][1..]) == w[2] as int + 256 * w[3] as int;
    assert FromLittleEndian(w[1..]) == w[1] as int + 256 * (w[2] as int + 256 * w[3] as int);
  }

  // ---------------------------------------------------------------------
  // Two's complement

  function Unsigned32(v: int32): (u: nat)
    ensures u < 0x1_0000_0000
  {
    if v < 0 then v + 0x1_0000_0000 else v
  }

  function Signed32(u: nat): (v: int32)
    requires u < 0x1_0000_0000
    ensures Unsigned32(v) == u
  {
    if u < 0x8000_0000 then u else u - 0x1_0000_0000
  }

  function Unsigned64(v: int64): (u: nat)
    ensures u < 0x1_0000_0000_0000_0000
  {
    if v < 0 then v + 0x1_0000_0000_0000_0000 else v
  }

  function Signed64(u: nat): (v: int64)
    requires u < 0x1_0000_0000_0000_0000
    ensures Unsigned64(v) == u
  {
    if u < 0x8000_0000_0000_0000 then u else u - 0x1_0000_0000_0000_0000
  }

  // ---------------------------------------------------------------------
  // Fixed-width values

  function EncodeByte(b: byte): (r: seq<byte>)
  {
    [b]
  }

  function ParseByte(s: seq<byte>, pos: nat): Option<(byte, nat)>
  {
    if pos < |s| then Some((s[pos], pos + 1)) else None
  }

  /** A bool is one byte, 1 for true and 0 for false. */
  function EncodeBool(b: bool): (r: seq<byte>)
  {
    EncodeByte(if b then 1 else 0)
  }

  /** A bool reads as true exactly when its byte is 1. */
  function ParseBool(s: seq<byte>, pos: nat): Option<(bool, nat)>
  {
    match ParseByte(s, pos)
    case None => None
    case Some((b, next)) => Some((b == 1, next))
  }

  /** The four bytes a pointer store of `v` puts in memory on a little-endian host. */
  function EncodeInt(v: int32): (r: seq<byte>)
    ensures |r| == 4
  {
    Pow256Widths();
    LittleEndian(Unsigned32(v), 4)
  }

  /** The int assembled from four bytes by shifting each into place and or-ing
    * them; the four shifted values occupy disjoint bits, so the or is a sum,
    * and the top byte's bit 7 lands in the sign bit. */
  function ToInt(buffer: seq<byte>, startIndex: nat): int32
    requires startIndex + 4 <= |buffer|
  {
    Signed32(buffer[startIndex] as int
             + buffer[startIndex + 1] as int * 0x100
             + buffer[startIndex + 2] as int * 0x1_0000
             + buffer[startIndex + 3] as int * 0x100_0000)
  }

  function ParseInt(s: seq<byte>, pos: nat): Option<(int32, nat)>
  {
    if pos + 4 <= |s| then Some((ToInt(s, pos), pos + 4)) else None
  }

  /** A float is stored as its bit pattern, in the same layout as an int. */
  function EncodeFloat(f: float32): (r: seq<byte>)
    ensures |r| == 4
  {
    Pow256Widths();
    LittleEndian(f, 4)
  }

  /** The float whose bit pattern is the int read from the same four bytes. */
  function ToFloat(buffer: seq<byte>, startIndex: nat): float32
    requires startIndex + 4 <= |buffer|
  {
    Unsigned32(ToInt(buffer, startIndex))
  }

  function ParseFloat(s: seq<byte>, pos: nat): Option<(float32, nat)>
  {
    if pos + 4 <= |s| then Some((ToFloat(s, pos), pos + 4)) else None
  }

  function EncodeLong(v: int64): (r: seq<byte>)
    ensures |r| == 8
  {
    Pow256Widths();
    LittleEndian(Unsigned64(v), 8)
  }

  /** `BitConverter.ToInt64` on a little-endian host. */
  function ToLong(buffer: seq<byte>, startIndex: nat): int64
    requires startIndex + 8 <= |buffer|
  {
    Pow256Widths();
    Signed64(FromLittleEndian(buffer[startIndex..startIndex + 8]))
  }

  function ParseLong(s: seq<byte>, pos: nat): Option<(int64, nat)>
  {
    if pos + 8 <= |s| then Some((ToLong(s, pos), pos + 8)) else None
  }

  /** The engine's 3-float vector and 4-float rotation: their float fields in
    * declaration order, with no framing. */
  datatype Vector3 = Vector3(x: float32, y: float32, z: float32)
  datatype Quaternion = Quaternion(x: float32, y: float32, z: float32, w: float32)

  function EncodeVector3(v: Vector3): (r: seq<byte>)
  {
    EncodeFloat(v.x) + EncodeFloat(v.y) + EncodeFloat(v.z)
  }

  function ParseVector3(s: seq<byte>, pos: nat): Option<(Vector3, nat)>
  {
    if pos + 12 <= |s| then Some((Vector3(ToFloat(s, pos), ToFloat(s, pos + 4), ToFloat(s, pos + 8)), pos + 12))
    else None
  }

  function EncodeQuaternion(q: Quaternion): (r: seq<byte>)
  {
    EncodeFloat(q.x) + EncodeFloat(q.y) + EncodeFloat(q.z) + EncodeFloat(q.w)
  }

  function ParseQuaternion(s: seq<byte>, pos: nat): Option<(Quaternion, nat)>
  {
    if pos + 16 <= |s| then
      Some((Quaternion(ToFloat(s, pos), ToFloat(s, pos + 4), ToFloat(s, pos + 8), ToFloat(s, pos + 12)), pos + 16))
    else None
  }

  // ---------------------------------------------------------------------
  // Length-prefixed data

  /** A byte array: its length as an int, then its bytes. */
  function EncodeBytes(data: ByteSpan): (r: seq<byte>)
  {
    EncodeInt(|data|) + data
  }

  /** Reads a length, then that many bytes; a negative length or one that runs
    * past the end of `s` cannot be read. */
  function ParseBytes(s: seq<byte>, pos: nat): Option<(ByteSpan, nat)>
  {
    match ParseInt(s, pos)
    case None => None
    case Some((length, start)) =>
      if 0 <= length && start + length <= |s| then Some((s[start..start + length], start + length))
      else None
  }

  /** The text a string value writes: a null string writes as the empty string. */
  function TextOf(value: Option<ByteSpan>): ByteSpan
  {
    match value
    case None => []
    case Some(utf8) => utf8
  }

  /** The texts a list of strings writes, null strings written as empty ones. */
  function Texts(values: seq<Option<ByteSpan>>): (r: seq<ByteSpan>)
    ensures |r| == |values|
    ensures forall i :: 0 <= i < |values| ==> r[i] == TextOf(values[i])
  {
    if values == [] then [] else Texts(values[..|values| - 1]) + [TextOf(values[|values| - 1])]
  }

  /** A string: the byte count of its UTF-8 encoding, then those bytes. */
  function EncodeString(value: Option<ByteSpan>): (r: seq<byte>)
  {
    EncodeBytes(TextOf(value))
  }

  // ---------------------------------------------------------------------
  // Count-prefixed collections

  /** The elements' encodings, one after the other, in order. */
  function EncodeMany<T>(xs: seq<T>, enc: T -> seq<byte>): seq<byte>
  {
    if xs == [] then [] else EncodeMany(xs[..|xs| - 1], enc) + enc(xs[|xs| - 1])
  }

  /** Reads `n` elements one after the other, in order. */
  function ParseMany<T>(s: seq<byte>, pos: nat, n: nat, elem: (seq<byte>, nat) -> Option<(T, nat)>)
    : Option<(seq<T>, nat)>
  {
    if n == 0 then Some(([], pos))
    else
      match ParseMany(s, pos, n - 1, elem)
      case None => None
      case Some((xs, next)) =>
        match elem(s, next)
        case None => None
        case Some((x, last)) => Some((xs + [x], last))
  }

  /** A collection: its element count as an int, then its elements. */
  function EncodeCounted<T>(xs: seq<T>, enc: T -> seq<byte>): seq<byte>
    requires |xs| <= MaxInt32
  {
    EncodeInt(|xs|) + EncodeMany(xs, enc)
  }

  function ParseCounted<T>(s: seq<byte>, pos: nat, elem: (seq<byte>, nat) -> Option<(T, nat)>)
    : Option<(seq<T>, nat)>
  {
    match ParseInt(s, pos)
    case None => None
    case Some((count, start)) =>
      if count < 0 then None else ParseMany(s, start, count, elem)
  }

  // ---------------------------------------------------------------------
  // Framed objects

  /** An object whose own encoding into a fresh child stream is `enc(x)` is
    * framed as that child's bytes, length-prefixed like a byte array. */
  function ObjectEncoder<T>(enc: T -> ByteSpan): T -> seq<byte>
  {
    x => EncodeBytes(enc(x))
  }

  /** Reads one frame and hands its bytes, as a child stream, to `dec`. */
  function ParseObject<T>(s: seq<byte>, pos: nat, dec: seq<byte> -> T): Option<(T, nat)>
  {
    match ParseBytes(s, pos)
    case None => None
    case Some((frame, next)) => Some((dec(frame), next))
  }

  function ObjectParser<T>(dec: seq<byte> -> T): (seq<byte>, nat) -> Option<(T, nat)>
  {
    (s, pos) => ParseObject(s, pos, dec)
  }

  // ---------------------------------------------------------------------
  // Round trips

  /** `enc(x)` found at `pos` in `s`. */
  ghost predicate EncodedAt(s: seq<byte>, pos: nat, enc: seq<byte>)
  {
    pos + |enc| <= |s| && s[pos..pos + |enc|] == enc
  }

  /** `parse` reads back whatever `enc` wrote, wherever it stands in the stream,
    * and stops right after it. */
  ghost predicate Inverts<T(!new)>(enc: T -> seq<byte>, parse: (seq<byte>, nat) -> Option<(T, nat)>)
  {
    forall s: seq<byte>, pos: nat, x: T {:trigger EncodedAt(s, pos, enc(x))} ::
      EncodedAt(s, pos, enc(x)) ==> parse(s, pos) == Some((x, pos + |enc(x)|))
  }
}
