/**
 * What the wire format guarantees: every reader gives back exactly what the
 * matching writer appended, wherever in the stream it was appended, and
 * stops right after it.
 */
module RoundTrip {
  import opened Wire

  // ---------------------------------------------------------------------
  // Fixed-width values

  /** Two encodings found one after the other. */
  lemma EncodedAtSplit(s: seq<byte>, pos: nat, a: seq<byte>, b: seq<byte>)
    requires EncodedAt(s, pos, a + b)
    ensures EncodedAt(s, pos, a) && EncodedAt(s, pos + |a|, b)
  {
    assert s[pos..pos + |a|] == (a + b)[..|a|];
    assert s[pos + |a|..pos + |a| + |b|] == (a + b)[|a|..];
  }

  /** The shift-and-or assembly of four bytes is their little-endian value,
    * reinterpreted as a signed int. */
  lemma ToIntIsLittleEndian(buffer: seq<byte>, startIndex: nat)
    requires startIndex + 4 <= |buffer|
    ensures Pow256(4) == 0x1_0000_0000
    ensures ToInt(buffer, startIndex) == Signed32(FromLittleEndian(buffer[startIndex..startIndex + 4]))
  {
    Pow256Widths();
    FromLittleEndianOfFour(buffer[startIndex..startIndex + 4]);
  }

  /** A float read is the bit pattern the four bytes hold, little-endian: no
    * numeric conversion is involved. */
  lemma ToFloatIsLittleEndian(buffer: seq<byte>, startIndex: nat)
    requires startIndex + 4 <= |buffer|
    ensures ToFloat(buffer, startIndex) == FromLittleEndian(buffer[startIndex..startIndex + 4])
  {
    ToIntIsLittleEndian(buffer, startIndex);
  }

  lemma ParseByteOfEncodeByte(s: seq<byte>, pos: nat, b: byte)
    requires EncodedAt(s, pos, EncodeByte(b))
    ensures ParseByte(s, pos) == Some((b, pos + 1))
  {
    assert s[pos] == s[pos..pos + 1][0];
  }

  lemma ParseIntOfEncodeInt(s: seq<byte>, pos: nat, v: int32)
    requires EncodedAt(s, pos, EncodeInt(v))
    ensures ParseInt(s, pos) == Some((v, pos + 4))
  {
    ToIntIsLittleEndian(s, pos);
    FromLittleEndianOfLittleEndian(Unsigned32(v), 4);
  }

  /** Every four bytes are the encoding of the int they read as: the int
    * codec is a bijection between int values and 4-byte strings. */
  lemma EncodeIntOfToInt(s: seq<byte>, pos: nat)
    requires pos + 4 <= |s|
    ensures EncodeInt(ToInt(s, pos)) == s[pos..pos + 4]
  {
    ToIntIsLittleEndian(s, pos);
    LittleEndianOfFromLittleEndian(s[pos..pos + 4]);
  }

  lemma IntCodecInverts()
    ensures Inverts(EncodeInt, ParseInt)
  {
    forall s: seq<byte>, pos: nat, v: int32 | EncodedAt(s, pos, EncodeInt(v))
      ensures ParseInt(s, pos) == Some((v, pos + |EncodeInt(v)|))
    {
      ParseIntOfEncodeInt(s, pos, v);
    }
  }

  /** A float is written with the bytes of the int that has the same bit
    * pattern, and read back by reinterpreting that int: no numeric
    * conversion touches the bits, so NaN payloads and -0.0 survive. */
  lemma FloatSharesIntLayout(f: float32)
    ensures EncodeFloat(f) == EncodeInt(Signed32(f))
  {
  }

  lemma ParseFloatOfEncodeFloat(s: seq<byte>, pos: nat, f: float32)
    requires EncodedAt(s, pos, EncodeFloat(f))
    ensures ParseFloat(s, pos) == Some((f, pos + 4))
  {
    FloatSharesIntLayout(f);
    ParseIntOfEncodeInt(s, pos, Signed32(f));
  }

  lemma FloatCodecInverts()
    ensures Inverts(EncodeFloat, ParseFloat)
  {
    forall s: seq<byte>, pos: nat, f: float32 | EncodedAt(s, pos, EncodeFloat(f))
      ensures ParseFloat(s, pos) == Some((f, pos + |EncodeFloat(f)|))
    {
      ParseFloatOfEncodeFloat(s, pos, f);
    }
  }

  lemma ParseLongOfEncodeLong(s: seq<byte>, pos: nat, v: int64)
    requires EncodedAt(s, pos, EncodeLong(v))
    ensures ParseLong(s, pos) == Some((v, pos + 8))
  {
    Pow256Widths();
    FromLittleEndianOfLittleEndian(Unsigned64(v), 8);
  }

  lemma LongCodecInverts()
    ensures Inverts(EncodeLong, ParseLong)
  {
    forall s: seq<byte>, pos: nat, v: int64 | EncodedAt(s, pos, EncodeLong(v))
      ensures ParseLong(s, pos) == Some((v, pos + |EncodeLong(v)|))
    {
      ParseLongOfEncodeLong(s, pos, v);
    }
  }

  /** A written bool reads back as itself: the writer only ever emits 0 or 1,
    * and the reader maps exactly 1 to true. */
  lemma ParseBoolOfEncodeBool(s: seq<byte>, pos: nat, b: bool)
    requires EncodedAt(s, pos, EncodeBool(b))
    ensures EncodeBool(b) == [0] || EncodeBool(b) == [1]
    ensures ParseBool(s, pos) == Some((b, pos + 1))
  {
  }

  lemma ParseVector3OfEncodeVector3(s: seq<byte>, pos: nat, v: Vector3)
    requires EncodedAt(s, pos, EncodeVector3(v))
    ensures ParseVector3(s, pos) == Some((v, pos + 12))
  {
    EncodedAtSplit(s, pos, EncodeFloat(v.x) + EncodeFloat(v.y), EncodeFloat(v.z));
    EncodedAtSplit(s, pos, EncodeFloat(v.x), EncodeFloat(v.y));
    ParseFloatOfEncodeFloat(s, pos, v.x);
    ParseFloatOfEncodeFloat(s, pos + 4, v.y);
    ParseFloatOfEncodeFloat(s, pos + 8, v.z);
  }

  lemma ParseQuaternionOfEncodeQuaternion(s: seq<byte>, pos: nat, q: Quaternion)
    requires EncodedAt(s, pos, EncodeQuaternion(q))
    ensures ParseQuaternion(s, pos) == Some((q, pos + 16))
  {
    EncodedAtSplit(s, pos, EncodeFloat(q.x) + EncodeFloat(q.y) + EncodeFloat(q.z), EncodeFloat(q.w));
    EncodedAtSplit(s, pos, EncodeFloat(q.x) + EncodeFloat(q.y), EncodeFloat(q.z));
    EncodedAtSplit(s, pos, EncodeFloat(q.x), EncodeFloat(q.y));
    ParseFloatOfEncodeFloat(s, pos, q.x);
    ParseFloatOfEncodeFloat(s, pos + 4, q.y);
    ParseFloatOfEncodeFloat(s, pos + 8, q.z);
    ParseFloatOfEncodeFloat(s, pos + 12, q.w);
  }

  // ---------------------------------------------------------------------
  // Length-prefixed data

  lemma ParseBytesOfEncodeBytes(s: seq<byte>, pos: nat, data: ByteSpan)
    requires EncodedAt(s, pos, EncodeBytes(data))
    ensures ParseBytes(s, pos) == Some((data, pos + 4 + |data|))
  {
    var e := EncodeBytes(data);
    assert s[pos..pos + 4] == e[..4];
    ParseIntOfEncodeInt(s, pos, |data|);
    assert s[pos + 4..pos + 4 + |data|] == e[4..];
  }

  lemma BytesCodecInverts()
    ensures Inverts(EncodeBytes, ParseBytes)
  {
    forall s: seq<byte>, pos: nat, data: ByteSpan | EncodedAt(s, pos, EncodeBytes(data))
      ensures ParseBytes(s, pos) == Some((data, pos + |EncodeBytes(data)|))
    {
      ParseBytesOfEncodeBytes(s, pos, data);
    }
  }

  /** A string reads back as the text it wrote; a null string reads back as the
    * empty string, and its length prefix is the UTF-8 byte count. */
  lemma ParseStringOfEncodeString(s: seq<byte>, pos: nat, value: Option<ByteSpan>)
    requires EncodedAt(s, pos, EncodeString(value))
    ensures value.Some? ==> ParseBytes(s, pos) == Some((value.value, pos + 4 + |value.value|))
    ensures value.None? ==> ParseBytes(s, pos) == Some(([], pos + 4))
  {
    ParseBytesOfEncodeBytes(s, pos, TextOf(value));
  }

  /** A null string and an empty string are the same four zero bytes. */
  lemma NullStringIsEmptyString()
    ensures EncodeString(None) == EncodeString(Some([])) == [0, 0, 0, 0]
  {
  }

  /** An absent child stream, written as a bare zero int, cannot be told from
    * an empty one. */
  lemma NullFrameIsEmptyFrame()
    ensures EncodeInt(0) == EncodeBytes([])
  {
  }

  // ---------------------------------------------------------------------
  // Collections

  lemma EncodeManySnoc<T>(xs: seq<T>, x: T, enc: T -> seq<byte>)
    ensures EncodeMany(xs + [x], enc) == EncodeMany(xs, enc) + enc(x)
  {
    assert (xs + [x])[..|xs|] == xs;
  }

  /** Appending one more element's encoding extends the encoding of the
    * elements appended so far. */
  lemma EncodeManyStep<T>(prefix: seq<byte>, xs: seq<T>, i: nat, enc: T -> seq<byte>,
                          before: seq<byte>, after: seq<byte>)
    requires i < |xs|
    requires before == prefix + EncodeMany(xs[..i], enc)
    requires after == before + enc(xs[i])
    ensures after == prefix + EncodeMany(xs[..i + 1], enc)
  {
    assert xs[..i + 1] == xs[..i] + [xs[i]];
    EncodeManySnoc(xs[..i], xs[i], enc);
  }

  /** A count followed by every element's encoding is the collection's encoding. */
  lemma EncodeCountedDone<T>(start: seq<byte>, xs: seq<T>, enc: T -> seq<byte>, written: seq<byte>)
    requires |xs| <= MaxInt32
    requires written == start + EncodeInt(|xs|) + EncodeMany(xs[..|xs|], enc)
    ensures written == start + EncodeCounted(xs, enc)
  {
    assert xs[..|xs|] == xs;
  }

  /** Reading `n` elements succeeds only if reading each shorter prefix of
    * them does. */
  lemma {:induction false} ParseManyPrefix<T>(s: seq<byte>, pos: nat, i: nat, n: nat,
                                             elem: (seq<byte>, nat) -> Option<(T, nat)>)
    requires i <= n
    requires ParseMany(s, pos, n, elem).Some?
    ensures ParseMany(s, pos, i, elem).Some?
    decreases n - i
  {
    if i < n {
      ParseManyPrefix(s, pos, i + 1, n, elem);
    }
  }

  /** When `n` elements can be read, so can the one after any shorter prefix. */
  lemma ParseManyNext<T>(s: seq<byte>, pos: nat, i: nat, n: nat,
                         elem: (seq<byte>, nat) -> Option<(T, nat)>)
    requires i < n
    requires ParseMany(s, pos, n, elem).Some?
    ensures ParseMany(s, pos, i, elem).Some?
    ensures elem(s, ParseMany(s, pos, i, elem).value.1).Some?
  {
    ParseManyPrefix(s, pos, i + 1, n, elem);
  }

  /** Reading one more element extends the elements read so far. */
  lemma ParseManyStep<T>(s: seq<byte>, pos: nat, i: nat,
                         elem: (seq<byte>, nat) -> Option<(T, nat)>)
    requires ParseMany(s, pos, i, elem).Some?
    requires elem(s, ParseMany(s, pos, i, elem).value.1).Some?
    ensures ParseMany(s, pos, i + 1, elem)
         == Some((ParseMany(s, pos, i, elem).value.0 + [elem(s, ParseMany(s, pos, i, elem).value.1).value.0],
                  elem(s, ParseMany(s, pos, i, elem).value.1).value.1))
  {
  }

  lemma ObjectEncoderAt<T>(enc: T -> ByteSpan, x: T)
    ensures ObjectEncoder(enc)(x) == EncodeBytes(enc(x))
  {
  }

  lemma ObjectParserAt<T>(s: seq<byte>, pos: nat, dec: seq<byte> -> T)
    ensures ObjectParser(dec)(s, pos) == ParseObject(s, pos, dec)
  {
  }

  lemma InvertsAt<T(!new)>(s: seq<byte>, pos: nat, x: T, enc: T -> seq<byte>,
                           parse: (seq<byte>, nat) -> Option<(T, nat)>)
    requires Inverts(enc, parse)
    requires EncodedAt(s, pos, enc(x))
    ensures parse(s, pos) == Some((x, pos + |enc(x)|))
  {
  }

  lemma {:induction false} ParseManyOfEncodeMany<T(!new)>(s: seq<byte>, pos: nat, xs: seq<T>,
                                                         enc: T -> seq<byte>,
                                                         parse: (seq<byte>, nat) -> Option<(T, nat)>)
    requires Inverts(enc, parse)
    requires EncodedAt(s, pos, EncodeMany(xs, enc))
    ensures ParseMany(s, pos, |xs|, parse) == Some((xs, pos + |EncodeMany(xs, enc)|))
    decreases |xs|
  {
    if xs != [] {
      var init, last := xs[..|xs| - 1], xs[|xs| - 1];
      var a, b := EncodeMany(init, enc), enc(last);
      assert EncodeMany(xs, enc) == a + b;
      EncodedAtSplit(s, pos, a, b);
      ParseManyOfEncodeMany(s, pos, init, enc, parse);
      InvertsAt(s, pos + |a|, last, enc, parse);
      ParseManyStep(s, pos, |init|, parse);
      assert init + [last] == xs;
    }
  }

  /** A collection reads back as the same elements, in the same order. */
  lemma ParseCountedOfEncodeCounted<T(!new)>(s: seq<byte>, pos: nat, xs: seq<T>,
                                            enc: T -> seq<byte>,
                                            parse: (seq<byte>, nat) -> Option<(T, nat)>)
    requires |xs| <= MaxInt32
    requires Inverts(enc, parse)
    requires EncodedAt(s, pos, EncodeCounted(xs, enc))
    ensures ParseCounted(s, pos, parse) == Some((xs, pos + |EncodeCounted(xs, enc)|))
  {
    var e := EncodeCounted(xs, enc);
    assert s[pos..pos + 4] == e[..4];
    ParseIntOfEncodeInt(s, pos, |xs|);
    assert s[pos + 4..pos + |e|] == e[4..];
    ParseManyOfEncodeMany(s, pos + 4, xs, enc, parse);
  }

  /** Strings in a list are written as by WriteString, so a list of strings
    * reads back with every null element turned into an empty string. */
  lemma {:induction false} EncodeManyStrings(values: seq<Option<ByteSpan>>)
    ensures EncodeMany(values, EncodeString) == EncodeMany(Texts(values), EncodeBytes)
  {
    if values != [] {
      var init := values[..|values| - 1];
      EncodeManyStrings(init);
      assert Texts(values)[..|values| - 1] == Texts(init);
    }
  }

  lemma ParseStringListOfEncodeStringList(s: seq<byte>, pos: nat, values: seq<Option<ByteSpan>>)
    requires |values| <= MaxInt32
    requires EncodedAt(s, pos, EncodeCounted(values, EncodeString))
    ensures ParseCounted(s, pos, ParseBytes) == Some((Texts(values), pos + |EncodeCounted(values, EncodeString)|))
  {
    EncodeManyStrings(values);
    assert EncodeCounted(values, EncodeString) == EncodeCounted(Texts(values), EncodeBytes);
    BytesCodecInverts();
    ParseCountedOfEncodeCounted(s, pos, Texts(values), EncodeBytes, ParseBytes);
  }

  // ---------------------------------------------------------------------
  // Framed objects

  /** If an object kind reads back what it writes into a child stream, then
    * framed objects read back as themselves, wherever they stand and
    * whatever surrounds them. */
  lemma ObjectCodecInverts<T(!new)>(enc: T -> ByteSpan, dec: seq<byte> -> T)
    requires forall x :: dec(enc(x)) == x
    ensures Inverts(ObjectEncoder(enc), ObjectParser(dec))
  {
    forall s: seq<byte>, pos: nat, x: T | EncodedAt(s, pos, ObjectEncoder(enc)(x))
      ensures ObjectParser(dec)(s, pos) == Some((x, pos + |ObjectEncoder(enc)(x)|))
    {
      ObjectEncoderAt(enc, x);
      ParseBytesOfEncodeBytes(s, pos, enc(x));
      ObjectParserAt(s, pos, dec);
    }
  }

  /** A list or array of such objects reads back as the same objects, in order. */
  lemma ParseObjectListOfEncodeObjectList<T(!new)>(s: seq<byte>, pos: nat, xs: seq<T>,
                                                  enc: T -> ByteSpan, dec: seq<byte> -> T)
    requires |xs| <= MaxInt32
    requires forall x :: dec(enc(x)) == x
    requires EncodedAt(s, pos, EncodeCounted(xs, ObjectEncoder(enc)))
    ensures ParseCounted(s, pos, ObjectParser(dec)) == Some((xs, pos + |EncodeCounted(xs, ObjectEncoder(enc))|))
  {
    ObjectCodecInverts(enc, dec);
    ParseCountedOfEncodeCounted(s, pos, xs, ObjectEncoder(enc), ObjectParser(dec));
  }
}
