/**
 * BridgeStream: a growable byte buffer with a write cursor and an independent
 * read cursor, through which values are written and read in the format
 * described by module Wire.
 */
module Serializer {
  import opened Wire
  import RoundTrip

  const DefaultCapacity: nat := 16

  /** `c` doubled `k` times: the capacities GrowBuffer passes through. */
  function Doubled(c: nat, k: nat): nat
  {
    if k == 0 then c else 2 * Doubled(c, k - 1)
  }

  /** GrowBuffer's loop guard `writeIndex + length > capacity` still holds
    * after any number `k` of doublings of a zero capacity, so for a non-empty
    * need the growth loop of a stream whose buffer is empty never ends. */
  lemma {:induction false} ZeroCapacityNeverGrows(k: nat, writeIndex: nat, length: nat)
    requires writeIndex + length > 0
    ensures Doubled(0, k) == 0
    ensures writeIndex + length > Doubled(0, k)
  {
    if k > 0 {
      ZeroCapacityNeverGrows(k - 1, writeIndex, length);
    }
  }

  class BridgeStream {
    var buffer: array<byte>
    var readIndex: nat
    var writeIndex: nat
    var capacity: nat

    /** The buffer is exactly `capacity` bytes long and both cursors stay
      * inside what has been written. */
    ghost predicate Valid()
      reads this
    {
      capacity == buffer.Length && readIndex <= writeIndex <= capacity
    }

    /** A stream that can take a non-empty write: with no capacity at all the
      * growth loop would double zero forever. */
    ghost predicate Writable()
      reads this
    {
      Valid() && capacity > 0
    }

    /** The bytes written so far. */
    function Written(): seq<byte>
      reads this`buffer, this`writeIndex, buffer
      requires writeIndex <= buffer.Length
    {
      buffer[..writeIndex]
    }

    /** The written bytes not yet read. */
    function Unread(): seq<byte>
      reads this, buffer
      requires Valid()
    {
      Written()[readIndex..]
    }

    predicate Empty()
      reads this, buffer
      requires Valid()
      ensures Empty() <==> Written() == []
    {
      writeIndex == 0
    }

    predicate HasMore()
      reads this, buffer
      requires Valid()
      ensures HasMore() <==> Unread() != []
    {
      writeIndex > readIndex
    }

    predicate CheckMore(needIndex: int32)
      reads this, buffer
      requires Valid()
      ensures CheckMore(needIndex) <==> needIndex <= |Unread()|
    {
      writeIndex >= readIndex + needIndex
    }

    // -------------------------------------------------------------------
    // Construction and resets

    /** An empty stream for writing, with the default capacity. */
    constructor ()
      ensures Writable() && fresh(buffer)
      ensures capacity == DefaultCapacity
      ensures readIndex == 0 && Written() == []
    {
      buffer := new byte[DefaultCapacity];
      capacity := DefaultCapacity;
      writeIndex := 0;
      readIndex := 0;
    }

    /** A stream for reading `data`: it holds `data` itself, fully written. */
    constructor FromBytes(data: array<byte>)
      ensures Valid() && buffer == data
      ensures readIndex == 0 && writeIndex == capacity == data.Length
      ensures Written() == data[..]
    {
      buffer := data;
      capacity := data.Length;
      writeIndex := data.Length;
      readIndex := 0;
    }

    /** Marks the whole buffer as written. */
    method SetCapacity(length: int32)
      requires Valid() && length == buffer.Length
      modifies this`capacity, this`writeIndex
      ensures Valid()
      ensures capacity == writeIndex == length
      ensures Written() == buffer[..]
    {
      capacity := length;
      writeIndex := capacity;
    }

    /** Drops the content and the buffer, starting over with the default capacity. */
    method Clear()
      modifies this
      ensures Writable() && fresh(buffer)
      ensures capacity == DefaultCapacity
      ensures readIndex == 0 && Written() == []
    {
      buffer := new byte[DefaultCapacity];
      capacity := DefaultCapacity;
      writeIndex := 0;
      readIndex := 0;
    }

    /** Rewinds both cursors and keeps the buffer, its capacity and its bytes. */
    method ClearKeepBuffer()
      requires Valid()
      modifies this`writeIndex, this`readIndex
      ensures Valid()
      ensures readIndex == 0 && Written() == []
      ensures buffer[..] == old(buffer[..])
    {
      writeIndex := 0;
      readIndex := 0;
    }

    // -------------------------------------------------------------------
    // Growth and raw appends

    /** Makes room for `length` more bytes after the write cursor by doubling
      * the capacity as often as needed, then reallocating once and copying
      * the written bytes. */
    method GrowBuffer(length: nat)
      requires Valid()
      requires capacity > 0 || writeIndex + length <= capacity
      modifies this`capacity, this`buffer
      ensures Valid()
      ensures writeIndex + length <= capacity
      ensures Written() == old(Written())
      ensures exists k: nat :: capacity == Doubled(old(capacity), k)
      ensures old(writeIndex + length <= capacity) ==> capacity == old(capacity) && buffer == old(buffer)
      ensures old(writeIndex + length > capacity) ==> capacity < 2 * (writeIndex + length) && fresh(buffer)
    {
      var isNeedResize := false;
      ghost var k: nat := 0;
      while writeIndex + length > capacity
        invariant capacity == Doubled(old(capacity), k)
        invariant capacity > 0 || writeIndex + length <= capacity
        invariant isNeedResize <==> k > 0
        invariant !isNeedResize ==> capacity == old(capacity)
        invariant isNeedResize ==> writeIndex + length > old(capacity)
        invariant isNeedResize ==> capacity < 2 * (writeIndex + length)
        invariant old(capacity) <= capacity
        invariant buffer == old(buffer)
        decreases writeIndex + length - capacity
      {
        capacity := capacity * 2;
        isNeedResize := true;
        k := k + 1;
      }

      if isNeedResize {
        var resizeBuffer := new byte[capacity];
        forall i | 0 <= i < writeIndex {
          resizeBuffer[i] := buffer[i];
        }
        assert resizeBuffer[..writeIndex] == buffer[..writeIndex];
        buffer := resizeBuffer;
      }
    }

    /** Copies `bytes` to the write cursor, which must have room for them. */
    method Store(bytes: seq<byte>)
      requires Valid() && writeIndex + |bytes| <= capacity
      modifies this`writeIndex, buffer
      ensures Valid()
      ensures Written() == old(Written()) + bytes
    {
      forall i | 0 <= i < |bytes| {
        buffer[writeIndex + i] := bytes[i];
      }
      writeIndex := writeIndex + |bytes|;
    }

    /** Appends raw bytes, with no length prefix. */
    method WriteByteArray(bytes: seq<byte>)
      requires Valid() && (capacity > 0 || bytes == [])
      modifies this, buffer
      ensures Valid() && readIndex == old(readIndex) && old(capacity) <= capacity
      ensures buffer == old(buffer) || fresh(buffer)
      ensures Written() == old(Written()) + bytes
    {
      GrowBuffer(|bytes|);
      Store(bytes);
    }

    /** Appends the first `length` bytes of `data`. */
    method AppendToSource(data: seq<byte>, length: nat)
      requires Valid() && length <= |data| && (capacity > 0 || length == 0)
      modifies this, buffer
      ensures Valid() && readIndex == old(readIndex) && old(capacity) <= capacity
      ensures buffer == old(buffer) || fresh(buffer)
      ensures Written() == old(Written()) + data[..length]
    {
      GrowBuffer(length);
      Store(data[..length]);
    }

    /** The written bytes, in an array of their own without the spare capacity. */
    method Encode() returns (finalArray: array<byte>)
      requires Valid()
      ensures fresh(finalArray)
      ensures finalArray[..] == Written()
    {
      finalArray := new byte[writeIndex];
      forall i | 0 <= i < writeIndex {
        finalArray[i] := buffer[i];
      }
    }

    // -------------------------------------------------------------------
    // Fixed-width values

    method WriteByte(value: byte)
      requires Writable()
      modifies this, buffer
      ensures Writable() && readIndex == old(readIndex) && old(capacity) <= capacity
      ensures buffer == old(buffer) || fresh(buffer)
      ensures Written() == old(Written()) + EncodeByte(value)
    {
      GrowBuffer(1);
      Store([value]);
    }

    method ReadByte() returns (value: byte)
      requires Valid() && CheckMore(1)
      modifies this`readIndex
      ensures Valid()
      ensures ParseByte(Written(), old(readIndex)) == Some((value, readIndex))
    {
      value := buffer[readIndex];
      readIndex := readIndex + 1;
    }

    method WriteBool(data: bool)
      requires Writable()
      modifies this, buffer
      ensures Writable() && readIndex == old(readIndex) && old(capacity) <= capacity
      ensures buffer == old(buffer) || fresh(buffer)
      ensures Written() == old(Written()) + EncodeBool(data)
    {
      WriteByte(if data then 1 else 0);
    }

    method ReadBool() returns (value: bool)
      requires Valid() && CheckMore(1)
      modifies this`readIndex
      ensures Valid()
      ensures value <==> Written()[old(readIndex)] == 1
      ensures ParseBool(Written(), old(readIndex)) == Some((value, readIndex))
    {
      var b := ReadByte();
      value := b == 1;
    }

    method WriteInt(value: int32)
      requires Writable()
      modifies this, buffer
      ensures Writable() && readIndex == old(readIndex) && old(capacity) <= capacity
      ensures buffer == old(buffer) || fresh(buffer)
      ensures Written() == old(Written()) + EncodeInt(value)
    {
      GrowBuffer(4);
      Store(EncodeInt(value));
    }

    method ReadInt() returns (value: int32)
      requires Valid() && CheckMore(4)
      modifies this`readIndex
      ensures Valid()
      ensures ParseInt(Written(), old(readIndex)) == Some((value, readIndex))
    {
      value := ToInt(buffer[..writeIndex], readIndex);
      readIndex := readIndex + 4;
    }

    method WriteFloat(value: float32)
      requires Writable()
      modifies this, buffer
      ensures Writable() && readIndex == old(readIndex) && old(capacity) <= capacity
      ensures buffer == old(buffer) || fresh(buffer)
      ensures Written() == old(Written()) + EncodeFloat(value)
    {
      GrowBuffer(4);
      Store(EncodeFloat(value));
    }

    method ReadFloat() returns (value: float32)
      requires Valid() && CheckMore(4)
      modifies this`readIndex
      ensures Valid()
      ensures ParseFloat(Written(), old(readIndex)) == Some((value, readIndex))
    {
      value := ToFloat(buffer[..writeIndex], readIndex);
      readIndex := readIndex + 4;
    }

    method WriteLong(value: int64)
      requires Writable()
      modifies this, buffer
      ensures Writable() && readIndex == old(readIndex) && old(capacity) <= capacity
      ensures buffer == old(buffer) || fresh(buffer)
      ensures Written() == old(Written()) + EncodeLong(value)
    {
      GrowBuffer(8);
      Store(EncodeLong(value));
    }

    method ReadLong() returns (value: int64)
      requires Valid() && CheckMore(8)
      modifies this`readIndex
      ensures Valid()
      ensures ParseLong(Written(), old(readIndex)) == Some((value, readIndex))
    {
      value := ToLong(buffer[..writeIndex], readIndex);
      readIndex := readIndex + 8;
    }

    method WriteVector3(vector3: Vector3)
      requires Writable()
      modifies this, buffer
      ensures Writable() && readIndex == old(readIndex) && old(capacity) <= capacity
      ensures buffer == old(buffer) || fresh(buffer)
      ensures Written() == old(Written()) + EncodeVector3(vector3)
    {
      WriteFloat(vector3.x);
      WriteFloat(vector3.y);
      WriteFloat(vector3.z);
    }

    method ReadVector3() returns (vector3: Vector3)
      requires Valid() && CheckMore(12)
      modifies this`readIndex
      ensures Valid()
      ensures ParseVector3(Written(), old(readIndex)) == Some((vector3, readIndex))
    {
      var x := ReadFloat();
      var y := ReadFloat();
      var z := ReadFloat();
      vector3 := Vector3(x, y, z);
    }

    method WriteQuaternion(quaternion: Quaternion)
      requires Writable()
      modifies this, buffer
      ensures Writable() && readIndex == old(readIndex) && old(capacity) <= capacity
      ensures buffer == old(buffer) || fresh(buffer)
      ensures Written() == old(Written()) + EncodeQuaternion(quaternion)
    {
      WriteFloat(quaternion.x);
      WriteFloat(quaternion.y);
      WriteFloat(quaternion.z);
      WriteFloat(quaternion.w);
    }

    method ReadQuaternion() returns (quaternion: Quaternion)
      requires Valid() && CheckMore(16)
      modifies this`readIndex
      ensures Valid()
      ensures ParseQuaternion(Written(), old(readIndex)) == Some((quaternion, readIndex))
    {
      var x := ReadFloat();
      var y := ReadFloat();
      var z := ReadFloat();
      var w := ReadFloat();
      quaternion := Quaternion(x, y, z, w);
    }

    // -------------------------------------------------------------------
    // Length-prefixed data

    /** A string, given by its UTF-8 bytes; `None` is a null string. */
    method WriteString(value: Option<ByteSpan>)
      requires Writable()
      modifies this, buffer
      ensures Writable() && readIndex == old(readIndex) && old(capacity) <= capacity
      ensures buffer == old(buffer) || fresh(buffer)
      ensures Written() == old(Written()) + EncodeString(value)
    {
      var bytes := TextOf(value);
      WriteInt(|bytes|);
      WriteByteArray(bytes);
    }

    /** Reads a string, given by its UTF-8 bytes. */
    method ReadString() returns (value: ByteSpan)
      requires Valid() && ParseBytes(Written(), readIndex).Some?
      modifies this`readIndex
      ensures Valid()
      ensures ParseBytes(Written(), old(readIndex)) == Some((value, readIndex))
    {
      var length := ReadInt();
      assert 0 <= length && readIndex + length <= writeIndex;
      value := buffer[readIndex..readIndex + length];
      assert forall i :: 0 <= i < length ==> value[i] == Written()[readIndex + i];
      assert value == Written()[readIndex..readIndex + length];
      readIndex := readIndex + length;
    }

    method WriteBytes(data: ByteSpan)
      requires Writable()
      modifies this, buffer
      ensures Writable() && readIndex == old(readIndex) && old(capacity) <= capacity
      ensures buffer == old(buffer) || fresh(buffer)
      ensures Written() == old(Written()) + EncodeBytes(data)
    {
      WriteInt(|data|);
      WriteByteArray(data);
    }

    method ReadByteArray() returns (data: array<byte>)
      requires Valid() && ParseBytes(Written(), readIndex).Some?
      modifies this`readIndex
      ensures Valid() && fresh(data)
      ensures ParseBytes(Written(), old(readIndex)) == Some((data[..], readIndex))
    {
      var length := ReadInt();
      data := new byte[length];
      if length != 0 {
        forall i | 0 <= i < length {
          data[i] := buffer[readIndex + i];
        }
      }
      assert data[..] == Written()[readIndex..readIndex + length];
      readIndex := readIndex + length;
    }

    // -------------------------------------------------------------------
    // Count-prefixed collections

    /** Both `Write(int[])` and `Write(List<int>)`: the count, then each int. */
    method WriteInts(value: seq<int32>)
      requires Writable() && |value| <= MaxInt32
      modifies this, buffer
      ensures Writable() && readIndex == old(readIndex) && old(capacity) <= capacity
      ensures buffer == old(buffer) || fresh(buffer)
      ensures Written() == old(Written()) + EncodeCounted(value, EncodeInt)
    {
      WriteInt(|value|);
      ghost var prefix := Written();
      for i := 0 to |value|
        invariant Writable() && readIndex == old(readIndex) && old(capacity) <= capacity
        invariant buffer == old(buffer) || fresh(buffer)
        invariant Written() == prefix + EncodeMany(value[..i], EncodeInt)
      {
        ghost var before := Written();
        WriteInt(value[i]);
        RoundTrip.EncodeManyStep(prefix, value, i, EncodeInt, before, Written());
      }
      RoundTrip.EncodeCountedDone(old(Written()), value, EncodeInt, Written());
    }

    method WriteFloatList(value: seq<float32>)
      requires Writable() && |value| <= MaxInt32
      modifies this, buffer
      ensures Writable() && readIndex == old(readIndex) && old(capacity) <= capacity
      ensures buffer == old(buffer) || fresh(buffer)
      ensures Written() == old(Written()) + EncodeCounted(value, EncodeFloat)
    {
      WriteInt(|value|);
      ghost var prefix := Written();
      for i := 0 to |value|
        invariant Writable() && readIndex == old(readIndex) && old(capacity) <= capacity
        invariant buffer == old(buffer) || fresh(buffer)
        invariant Written() == prefix + EncodeMany(value[..i], EncodeFloat)
      {
        ghost var before := Written();
        WriteFloat(value[i]);
        RoundTrip.EncodeManyStep(prefix, value, i, EncodeFloat, before, Written());
      }
      RoundTrip.EncodeCountedDone(old(Written()), value, EncodeFloat, Written());
    }

    /** Each string is written as by WriteString, so null elements become empty strings. */
    method WriteStringList(value: seq<Option<ByteSpan>>)
      requires Writable() && |value| <= MaxInt32
      modifies this, buffer
      ensures Writable() && readIndex == old(readIndex) && old(capacity) <= capacity
      ensures buffer == old(buffer) || fresh(buffer)
      ensures Written() == old(Written()) + EncodeCounted(value, EncodeString)
    {
      WriteInt(|value|);
      ghost var prefix := Written();
      for i := 0 to |value|
        invariant Writable() && readIndex == old(readIndex) && old(capacity) <= capacity
        invariant buffer == old(buffer) || fresh(buffer)
        invariant Written() == prefix + EncodeMany(value[..i], EncodeString)
      {
        ghost var before := Written();
        WriteString(value[i]);
        RoundTrip.EncodeManyStep(prefix, value, i, EncodeString, before, Written());
      }
      RoundTrip.EncodeCountedDone(old(Written()), value, EncodeString, Written());
    }

    method ReadIntArray() returns (value: array<int32>)
      requires Valid() && ParseCounted(Written(), readIndex, ParseInt).Some?
      modifies this`readIndex
      ensures Valid() && fresh(value)
      ensures ParseCounted(Written(), old(readIndex), ParseInt) == Some((value[..], readIndex))
    {
      var length := ReadInt();
      ghost var start := readIndex;
      value := new int32[length];
      for i := 0 to value.Length
        invariant Valid()
        invariant ParseMany(Written(), start, i, ParseInt) == Some((value[..i], readIndex))
      {
        RoundTrip.ParseManyNext(Written(), start, i, length, ParseInt);
        value[i] := ReadInt();
        RoundTrip.ParseManyStep(Written(), start, i, ParseInt);
        assert value[..i + 1] == value[..i] + [value[i]];
      }
      assert value[..] == value[..value.Length];
    }

    method ReadIntList() returns (value: seq<int32>)
      requires Valid() && ParseCounted(Written(), readIndex, ParseInt).Some?
      modifies this`readIndex
      ensures Valid()
      ensures ParseCounted(Written(), old(readIndex), ParseInt) == Some((value, readIndex))
    {
      var length := ReadInt();
      ghost var start := readIndex;
      value := [];
      for i := 0 to length
        invariant Valid()
        invariant ParseMany(Written(), start, i, ParseInt) == Some((value, readIndex))
      {
        RoundTrip.ParseManyNext(Written(), start, i, length, ParseInt);
        var x := ReadInt();
        RoundTrip.ParseManyStep(Written(), start, i, ParseInt);
        value := value + [x];
      }
    }

    method ReadFloatList() returns (value: seq<float32>)
      requires Valid() && ParseCounted(Written(), readIndex, ParseFloat).Some?
      modifies this`readIndex
      ensures Valid()
      ensures ParseCounted(Written(), old(readIndex), ParseFloat) == Some((value, readIndex))
    {
      var length := ReadInt();
      ghost var start := readIndex;
      value := [];
      for i := 0 to length
        invariant Valid()
        invariant ParseMany(Written(), start, i, ParseFloat) == Some((value, readIndex))
      {
        RoundTrip.ParseManyNext(Written(), start, i, length, ParseFloat);
        var x := ReadFloat();
        RoundTrip.ParseManyStep(Written(), start, i, ParseFloat);
        value := value + [x];
      }
    }

    method ReadLongList() returns (value: seq<int64>)
      requires Valid() && ParseCounted(Written(), readIndex, ParseLong).Some?
      modifies this`readIndex
      ensures Valid()
      ensures ParseCounted(Written(), old(readIndex), ParseLong) == Some((value, readIndex))
    {
      var length := ReadInt();
      ghost var start := readIndex;
      value := [];
      for i := 0 to length
        invariant Valid()
        invariant ParseMany(Written(), start, i, ParseLong) == Some((value, readIndex))
      {
        RoundTrip.ParseManyNext(Written(), start, i, length, ParseLong);
        var x := ReadLong();
        RoundTrip.ParseManyStep(Written(), start, i, ParseLong);
        value := value + [x];
      }
    }

    method ReadStringList() returns (value: seq<ByteSpan>)
      requires Valid() && ParseCounted(Written(), readIndex, ParseBytes).Some?
      modifies this`readIndex
      ensures Valid()
      ensures ParseCounted(Written(), old(readIndex), ParseBytes) == Some((value, readIndex))
    {
      var length := ReadInt();
      ghost var start := readIndex;
      value := [];
      for i := 0 to length
        invariant Valid()
        invariant ParseMany(Written(), start, i, ParseBytes) == Some((value, readIndex))
      {
        RoundTrip.ParseManyNext(Written(), start, i, length, ParseBytes);
        var x := ReadString();
        RoundTrip.ParseManyStep(Written(), start, i, ParseBytes);
        value := value + [x];
      }
    }

    // -------------------------------------------------------------------
    // Nested streams and serializable objects

    /** A child stream is written as a byte array holding its written bytes; an
      * absent one as a bare zero length. */
    method WriteStream(bridgeStream: BridgeStream?)
      requires Writable()
      requires bridgeStream != null ==> bridgeStream.Valid() && |bridgeStream.Written()| <= MaxInt32
      modifies this, buffer
      ensures Writable() && readIndex == old(readIndex) && old(capacity) <= capacity
      ensures buffer == old(buffer) || fresh(buffer)
      ensures Written() == old(Written()) + EncodeBytes(if bridgeStream == null then [] else old(bridgeStream.Written()))
    {
      if bridgeStream == null {
        WriteInt(0);
        return;
      }
      var data := bridgeStream.Encode();
      WriteBytes(data[..]);
    }

    /** Reads a byte array and wraps it, as a fully written stream, for reading. */
    method ReadStream() returns (packet: BridgeStream)
      requires Valid() && ParseBytes(Written(), readIndex).Some?
      modifies this`readIndex
      ensures Valid() && fresh(packet) && fresh(packet.buffer)
      ensures packet.Valid() && packet.readIndex == 0 && packet.capacity == |packet.Written()|
      ensures ParseBytes(Written(), old(readIndex)) == Some((packet.Written(), readIndex))
    {
      var data := ReadByteArray();
      packet := new BridgeStream.FromBytes(data);
    }

    /** `Write(IBridgeSerializer)`: the object writes itself into a fresh child
      * stream, and the child is written as by WriteStream. `enc(x)` stands for
      * the bytes x's own Write puts into that child. */
    method WriteObject<T>(x: T, enc: T -> ByteSpan)
      requires Writable()
      modifies this, buffer
      ensures Writable() && readIndex == old(readIndex) && old(capacity) <= capacity
      ensures buffer == old(buffer) || fresh(buffer)
      ensures Written() == old(Written()) + ObjectEncoder(enc)(x)
    {
      var packet := new BridgeStream();
      var bytes := enc(x);
      packet.AppendToSource(bytes, |bytes|);
      assert packet.Written() == bytes;
      WriteStream(packet);
    }

    /** `Read<T>()`: reads a child stream and lets a fresh object read itself
      * from it. `dec(b)` stands for the object that T's own Read builds from a
      * child stream holding the bytes `b`. */
    method ReadObject<T>(dec: seq<byte> -> T) returns (value: T)
      requires Valid() && ParseBytes(Written(), readIndex).Some?
      modifies this`readIndex
      ensures Valid()
      ensures ParseObject(Written(), old(readIndex), dec) == Some((value, readIndex))
    {
      var packet := ReadStream();
      value := dec(packet.Written());
    }

    /** Both `WriteArray<T>` and `WriteList<T>`: the count, then each object framed. */
    method WriteObjects<T>(value: seq<T>, enc: T -> ByteSpan)
      requires Writable() && |value| <= MaxInt32
      modifies this, buffer
      ensures Writable() && readIndex == old(readIndex) && old(capacity) <= capacity
      ensures buffer == old(buffer) || fresh(buffer)
      ensures Written() == old(Written()) + EncodeCounted(value, ObjectEncoder(enc))
    {
      WriteInt(|value|);
      ghost var prefix := Written();
      for i := 0 to |value|
        invariant Writable() && readIndex == old(readIndex) && old(capacity) <= capacity
        invariant buffer == old(buffer) || fresh(buffer)
        invariant Written() == prefix + EncodeMany(value[..i], ObjectEncoder(enc))
      {
        ghost var before := Written();
        WriteObject(value[i], enc);
        RoundTrip.EncodeManyStep(prefix, value, i, ObjectEncoder(enc), before, Written());
      }
      RoundTrip.EncodeCountedDone(old(Written()), value, ObjectEncoder(enc), Written());
    }

    method ReadArray<T(0)>(dec: seq<byte> -> T) returns (items: array<T>)
      requires Valid() && ParseCounted(Written(), readIndex, ObjectParser(dec)).Some?
      modifies this`readIndex
      ensures Valid() && fresh(items)
      ensures ParseCounted(Written(), old(readIndex), ObjectParser(dec)) == Some((items[..], readIndex))
    {
      var length := ReadInt();
      ghost var start := readIndex;
      items := new T[length];
      for i := 0 to length
        invariant Valid()
        invariant ParseMany(Written(), start, i, ObjectParser(dec)) == Some((items[..i], readIndex))
      {
        RoundTrip.ParseManyNext(Written(), start, i, length, ObjectParser(dec));
        ghost var at := readIndex;
        items[i] := ReadObject(dec);
        RoundTrip.ObjectParserAt(Written(), at, dec);
        RoundTrip.ParseManyStep(Written(), start, i, ObjectParser(dec));
        assert items[..i + 1] == items[..i] + [items[i]];
      }
      assert items[..] == items[..length];
    }

    method ReadList<T>(dec: seq<byte> -> T) returns (list: seq<T>)
      requires Valid() && ParseCounted(Written(), readIndex, ObjectParser(dec)).Some?
      modifies this`readIndex
      ensures Valid()
      ensures ParseCounted(Written(), old(readIndex), ObjectParser(dec)) == Some((list, readIndex))
    {
      var length := ReadInt();
      ghost var start := readIndex;
      list := [];
      for i := 0 to length
        invariant Valid()
        invariant ParseMany(Written(), start, i, ObjectParser(dec)) == Some((list, readIndex))
      {
        RoundTrip.ParseManyNext(Written(), start, i, length, ObjectParser(dec));
        ghost var at := readIndex;
        var x := ReadObject(dec);
        RoundTrip.ObjectParserAt(Written(), at, dec);
        RoundTrip.ParseManyStep(Written(), start, i, ObjectParser(dec));
        list := list + [x];
      }
    }
  }
}
