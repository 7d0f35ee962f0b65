# BridgeStream in Dafny

A model of `BridgeStream`, the growable byte buffer at the centre of the
serializer (`Runtime/BridgeStream.cs`). A stream owns a byte array, a
capacity and two cursors. Writes append the bytes of a value at the write
cursor, doubling the capacity as often as needed. Reads decode values at the
read cursor and advance it. The values are:

- bytes, bools, ints, floats and longs;
- length-prefixed strings and byte arrays;
- count-prefixed collections;
- child streams and serializable objects, framed like byte arrays.

The project has four modules:

- `Wire` (`wire.dfy`) is the wire format as pure functions over byte
  sequences. `EncodeX` gives the bytes a write appends. `ParseX(s, pos)` gives
  the value a read at `pos` returns, with the position after it, or `None`
  where the bytes cannot be read. Multi-byte numbers are little-endian, as on
  the hosts the stream runs on. Two's complement is spelled out. A float is
  its IEEE 754 binary32 bit pattern.
- `RoundTrip` (`round_trip.dfy`) proves that each `ParseX` reads back what the
  matching `EncodeX` wrote, wherever in the stream it was written. It also
  proves that the read stops exactly after those bytes, for every value,
  every collection and every framed object.
- `Serializer` (`bridge_stream.dfy`) is the class `BridgeStream`. Its fields are
  an `array<byte>` buffer, `readIndex`, `writeIndex` and `capacity`. Each
  writer promises `Written() == old(Written()) + EncodeX(v)`, so the bytes
  already written and the read cursor are unchanged. Each reader promises
  `ParseX(Written(), old(readIndex)) == Some((v, readIndex))`. The growth loop
  and the collection loops carry their invariants.
- `Clients` (`clients.dfy`) holds whole write-then-read conversations proved
  from those contracts alone: a mixed message, a child stream, a null child,
  an object, and lists of ints, strings and objects.

A serializable object (`IBridgeSerializer`) is given by two functions:

- `enc(x)` stands for the bytes that `x`'s own `Write` puts into a fresh child
  stream.
- `dec(b)` stands for the object that `T`'s `Read` builds from a child
  holding `b`.

An object round trip holds whenever `dec` undoes `enc`. Strings are given by
their UTF-8 bytes; a null string is `None`.

## Model

| member | source | states |
|---|---|---|
| Wire.FromLittleEndianOfLittleEndian | Runtime/BridgeStream.cs:89-92 | splitting a number into `width` little-endian bytes and reassembling them gives the number back |
| Wire.LittleEndianOfFromLittleEndian | Runtime/BridgeStream.cs:268 | every byte string is the little-endian encoding of the number it reads as, so the byte layout is a bijection |
| Wire.Signed32 | Runtime/BridgeStream.cs:187-191 | reinterpreting 32 unsigned bits as a signed int is undone by taking the two's-complement bits again |
| Wire.Signed64 | Runtime/BridgeStream.cs:268 | the same for 64 bits, as `BitConverter.ToInt64` reinterprets them |
| Wire.EncodeInt | Runtime/BridgeStream.cs:85-95 | an int store writes exactly 4 bytes |
| Wire.EncodeFloat | Runtime/BridgeStream.cs:111-121 | a float store writes exactly 4 bytes |
| Wire.EncodeLong | Runtime/BridgeStream.cs:124-134 | a long store writes exactly 8 bytes |
| Wire.Texts | Runtime/BridgeStream.cs:154-161 | a list of strings writes one text per element, in order, with a null element written as the empty string |
| Wire.FromLittleEndianOfFour | Runtime/BridgeStream.cs:189-190 | the little-endian value of four bytes is the first byte plus the others shifted by 8, 16 and 24 bits, as `ToInt` places them |
| RoundTrip.ToIntIsLittleEndian | Runtime/BridgeStream.cs:187-191 | `ToInt`: the shift-and-or assembly is the little-endian value of the four bytes, read as a signed int |
| RoundTrip.ToFloatIsLittleEndian | Runtime/BridgeStream.cs:193-197 | `ToFloat`: the float read is exactly the bit pattern the four bytes hold, little-endian, with no numeric conversion |
| RoundTrip.ParseIntOfEncodeInt | Runtime/BridgeStream.cs:180-191 | `ReadInt` after `Write(int v)` returns `v` and advances exactly 4 bytes, wherever in the stream `v` was written |
| RoundTrip.EncodeIntOfToInt | Runtime/BridgeStream.cs:187-191 | every 4 bytes are the store of the int `ToInt` reads from them, so the int codec is a bijection |
| RoundTrip.IntCodecInverts | Runtime/BridgeStream.cs:180-191 | the int reader inverts the int writer at every position |
| RoundTrip.FloatSharesIntLayout | Runtime/BridgeStream.cs:193-197 | a float is stored as the bytes of the int that has the same bit pattern |
| RoundTrip.ParseFloatOfEncodeFloat | Runtime/BridgeStream.cs:247-252 | `ReadFloat` after `Write(float f)` returns exactly the bit pattern of `f` and advances 4 bytes |
| RoundTrip.FloatCodecInverts | Runtime/BridgeStream.cs:247-252 | the float reader inverts the float writer at every position |
| RoundTrip.ParseLongOfEncodeLong | Runtime/BridgeStream.cs:266-271 | `ReadLong` after `Write(long v)` returns `v` and advances exactly 8 bytes: `BitConverter.ToInt64` on a little-endian host undoes the 8-byte store |
| RoundTrip.LongCodecInverts | Runtime/BridgeStream.cs:266-271 | the long reader inverts the long writer at every position |
| RoundTrip.ParseByteOfEncodeByte | Runtime/BridgeStream.cs:97-109 | `ReadByte` after `Write(byte b)` returns `b` and advances exactly 1 byte |
| RoundTrip.ParseBoolOfEncodeBool | Runtime/BridgeStream.cs:436-444 | `Write(bool)` emits only the byte 0 or the byte 1, and `ReadBool` returns the bool written |
| RoundTrip.ParseVector3OfEncodeVector3 | Runtime/BridgeStream.cs:287-297 | a vector reads back as written: its three floats in field order, 12 bytes |
| RoundTrip.ParseQuaternionOfEncodeQuaternion | Runtime/BridgeStream.cs:365-376 | a quaternion reads back as written: its four floats in field order, 16 bytes |
| RoundTrip.ParseBytesOfEncodeBytes | Runtime/BridgeStream.cs:299-307 | `ReadByteArray` after `Write(byte[] d)` returns exactly `d` and advances 4 + `d.Length` bytes; the empty array reads back as empty |
| RoundTrip.BytesCodecInverts | Runtime/BridgeStream.cs:281-285 | the byte-array reader inverts the byte-array writer at every position |
| RoundTrip.ParseStringOfEncodeString | Runtime/BridgeStream.cs:273-279 | `ReadString` returns the text `Write(string)` wrote, and a null string reads back as the empty string; the prefix is the UTF-8 byte count |
| RoundTrip.NullStringIsEmptyString | Runtime/BridgeStream.cs:78-79 | a null string and an empty string write the same four zero bytes |
| RoundTrip.NullFrameIsEmptyFrame | Runtime/BridgeStream.cs:311-315 | the bare zero written for a null child stream is exactly the frame of an empty child |
| RoundTrip.ParseManyOfEncodeMany | Runtime/BridgeStream.cs:199-264 | a run of element encodings reads back as the same elements, in order, ending exactly after the last |
| RoundTrip.ParseCountedOfEncodeCounted | Runtime/BridgeStream.cs:136-264 | every count-prefixed collection reads back with the same count and the same elements in the same order |
| RoundTrip.EncodeManyStrings | Runtime/BridgeStream.cs:154-161 | a list of strings writes the same bytes as the list of their texts written as byte arrays |
| RoundTrip.ParseStringListOfEncodeStringList | Runtime/BridgeStream.cs:223-233 | `ReadStringList` after `Write(List<string>)` returns one text per element, in order, with null elements as empty strings |
| RoundTrip.ObjectCodecInverts | Runtime/BridgeStream.cs:327-341 | when an object's reader undoes its writer, `Read<T>` inverts `Write(IBridgeSerializer)` at every position |
| RoundTrip.ParseObjectListOfEncodeObjectList | Runtime/BridgeStream.cs:378-420 | `ReadArray`/`ReadList<T>` after `WriteArray`/`WriteList` return the same objects, in order |
| Serializer.ZeroCapacityNeverGrows | Runtime/BridgeStream.cs:62-65 | after any number of doublings of a zero capacity the loop guard `WriteIndex + length > _capacity` still holds for a non-empty need, so growth from capacity 0 never ends |
| Serializer.BridgeStream.Empty | Runtime/BridgeStream.cs:16 | a stream is empty exactly when nothing has been written |
| Serializer.BridgeStream.HasMore | Runtime/BridgeStream.cs:17 | there is more exactly when some written bytes are unread |
| Serializer.BridgeStream.CheckMore | Runtime/BridgeStream.cs:18 | `CheckMore(n)` holds exactly when at least `n` written bytes are unread |
| Serializer.BridgeStream.constructor | Runtime/BridgeStream.cs:20-23 | a new stream is empty, at both cursors 0, with a fresh 16-byte buffer |
| Serializer.BridgeStream.FromBytes | Runtime/BridgeStream.cs:25-30 | a stream over `data` holds `data` itself, fully written: `ReadIndex == 0`, `WriteIndex == _capacity == data.Length` |
| Serializer.BridgeStream.SetCapacity | Runtime/BridgeStream.cs:32-36 | marks the whole buffer as written, keeping the buffer invariant |
| Serializer.BridgeStream.Clear | Runtime/BridgeStream.cs:351-357 | a fresh 16-byte buffer, nothing written, both cursors at 0 |
| Serializer.BridgeStream.ClearKeepBuffer | Runtime/BridgeStream.cs:359-363 | both cursors at 0; the buffer, its bytes and the capacity are untouched |
| Serializer.BridgeStream.GrowBuffer | Runtime/BridgeStream.cs:59-74 | afterwards `length` more bytes fit, the capacity is the old one times a power of two, the written bytes are unchanged; nothing is reallocated when they already fitted, and otherwise the new capacity is less than twice the need |
| Serializer.BridgeStream.Store | Runtime/BridgeStream.cs:48-49 | the in-place copy at the write cursor (`BlockCopy`, and the pointer stores at lines 91, 117 and 130), then the cursor advance: the written bytes become the old ones followed by the copied bytes |
| Serializer.BridgeStream.WriteByteArray | Runtime/BridgeStream.cs:52-57 | appends the raw bytes after those already written, with no prefix |
| Serializer.BridgeStream.AppendToSource | Runtime/BridgeStream.cs:38-50 | appends the first `length` bytes of `data` |
| Serializer.BridgeStream.Encode | Runtime/BridgeStream.cs:173-178 | a fresh array holding exactly the written bytes, whatever the spare capacity |
| Serializer.BridgeStream.WriteByte | Runtime/BridgeStream.cs:97-102 | appends the byte, keeping earlier bytes and the read cursor |
| Serializer.BridgeStream.ReadByte | Runtime/BridgeStream.cs:104-109 | returns the byte at the read cursor and advances it by 1 |
| Serializer.BridgeStream.WriteBool | Runtime/BridgeStream.cs:436-439 | appends 1 for true and 0 for false |
| Serializer.BridgeStream.ReadBool | Runtime/BridgeStream.cs:441-444 | true exactly when the byte read equals 1 |
| Serializer.BridgeStream.WriteInt | Runtime/BridgeStream.cs:85-95 | appends the 4 little-endian two's-complement bytes of the int |
| Serializer.BridgeStream.ReadInt | Runtime/BridgeStream.cs:180-185 | returns the int the 4 bytes at the read cursor encode and advances by 4 |
| Serializer.BridgeStream.WriteFloat | Runtime/BridgeStream.cs:111-121 | appends the 4 bytes of the float's bit pattern |
| Serializer.BridgeStream.ReadFloat | Runtime/BridgeStream.cs:247-252 | returns the bit pattern of the 4 bytes at the read cursor and advances by 4 |
| Serializer.BridgeStream.WriteLong | Runtime/BridgeStream.cs:124-134 | appends the 8 little-endian two's-complement bytes of the long |
| Serializer.BridgeStream.ReadLong | Runtime/BridgeStream.cs:266-271 | returns the long the 8 bytes at the read cursor encode and advances by 8 |
| Serializer.BridgeStream.WriteVector3 | Runtime/BridgeStream.cs:287-292 | appends the three floats in field order |
| Serializer.BridgeStream.ReadVector3 | Runtime/BridgeStream.cs:294-297 | reads three floats in field order |
| Serializer.BridgeStream.WriteQuaternion | Runtime/BridgeStream.cs:365-371 | appends the four floats in field order |
| Serializer.BridgeStream.ReadQuaternion | Runtime/BridgeStream.cs:373-376 | reads four floats in field order |
| Serializer.BridgeStream.WriteString | Runtime/BridgeStream.cs:76-83 | appends the UTF-8 byte count, then the bytes; a null string as the empty string |
| Serializer.BridgeStream.ReadString | Runtime/BridgeStream.cs:273-279 | reads a length, then that many bytes, and advances past them |
| Serializer.BridgeStream.WriteBytes | Runtime/BridgeStream.cs:281-285 | appends the array's length, then its bytes |
| Serializer.BridgeStream.ReadByteArray | Runtime/BridgeStream.cs:299-307 | a fresh array with the framed bytes, the read cursor just after them |
| Serializer.BridgeStream.WriteInts | Runtime/BridgeStream.cs:136-152 | appends the count, then every int in order (both the array and the list overload) |
| Serializer.BridgeStream.WriteFloatList | Runtime/BridgeStream.cs:163-170 | appends the count, then every float in order |
| Serializer.BridgeStream.WriteStringList | Runtime/BridgeStream.cs:154-161 | appends the count, then every string in order |
| Serializer.BridgeStream.ReadIntArray | Runtime/BridgeStream.cs:199-209 | reads the count, then that many ints in order, into a fresh array |
| Serializer.BridgeStream.ReadIntList | Runtime/BridgeStream.cs:211-221 | reads the count, then that many ints in order |
| Serializer.BridgeStream.ReadFloatList | Runtime/BridgeStream.cs:235-245 | reads the count, then that many floats in order |
| Serializer.BridgeStream.ReadLongList | Runtime/BridgeStream.cs:254-264 | reads the count, then that many longs in order |
| Serializer.BridgeStream.ReadStringList | Runtime/BridgeStream.cs:223-233 | reads the count, then that many strings in order |
| Serializer.BridgeStream.WriteStream | Runtime/BridgeStream.cs:309-319 | appends the child's written bytes framed as a byte array; a null child as a bare zero length |
| Serializer.BridgeStream.ReadStream | Runtime/BridgeStream.cs:321-325 | a fresh, fully written stream over the framed bytes, read cursor at 0, capacity equal to its length |
| Serializer.BridgeStream.WriteObject | Runtime/BridgeStream.cs:327-332 | appends the object's own bytes, written into a fresh child, framed as that child |
| Serializer.BridgeStream.ReadObject | Runtime/BridgeStream.cs:334-341 | reads one frame and gives the object built from its bytes |
| Serializer.BridgeStream.WriteObjects | Runtime/BridgeStream.cs:378-407 | appends the count, then every object framed, in order (both `WriteArray` and `WriteList`) |
| Serializer.BridgeStream.ReadArray | Runtime/BridgeStream.cs:387-398 | reads the count, then that many framed objects in order, into a fresh array |
| Serializer.BridgeStream.ReadList | Runtime/BridgeStream.cs:409-420 | reads the count, then that many framed objects in order |
| Clients.MessageLayout | Runtime/BridgeStream.cs:76-95 | an int, a string and a byte array written one after the other read back in turn, each starting where the previous one ended |
| Clients.WriteMessage | Runtime/BridgeStream.cs:173-178 | the encoded message holds the int, the string and the byte array written, in order, and nothing else |
| Clients.MixedMessage | Runtime/BridgeStream.cs:25-30 | a stream wrapped around an encoded message gives back the int, the string and the byte array written, and then has no more |
| Clients.ChildStreamRoundTrip | Runtime/BridgeStream.cs:309-325 | `ReadStream` after `Write(child)` yields a stream whose bytes are the child's `Encode()`, read cursor at 0 |
| Clients.NullChildRoundTrip | Runtime/BridgeStream.cs:311-315 | a null child reads back as an empty stream with nothing more to read |
| Clients.ObjectRoundTrip | Runtime/BridgeStream.cs:327-341 | `Read<T>` after `Write(x)` returns `x` whenever `T`'s reader undoes its writer |
| Clients.IntListRoundTrip | Runtime/BridgeStream.cs:145-152 | a list of ints of any length survives growth and reads back in full, in order, consuming the stream |
| Clients.StringListRoundTrip | Runtime/BridgeStream.cs:223-233 | a list of strings reads back element by element, null elements as empty strings |
| Clients.ObjectListRoundTrip | Runtime/BridgeStream.cs:400-420 | a list of objects reads back as the same objects in the same order |

## Left out

- Serializer.BridgeStream.GrowBuffer: requires a non-zero capacity unless the bytes already fit. A stream made from an empty array, including one read back from a null or empty child, has capacity 0, and the source's doubling loop never ends on it (`ZeroCapacityNeverGrows`). Every writer therefore requires `Writable()`, which holds for every stream made by the default constructor, `Clear` or a non-empty array.
- Serializer.BridgeStream.SetCapacity: requires `length` to equal the buffer's length. With any other value the source breaks `_capacity == Buffer.Length`, and the next write can overrun the buffer.
- Serializer.BridgeStream.ReadInt and the other readers: the source bounds its reads by `Buffer.Length`, not by `WriteIndex`. A read past the write cursor but inside the buffer returns whatever bytes lie there, without any error: zeros on a new stream, and old bytes after `ClearKeepBuffer`. It then leaves `ReadIndex` beyond `WriteIndex`. The source throws only when a read runs past the end of the buffer, or when a decoded length is negative. The model requires the bytes at the read cursor to be written and readable (`ParseX(Written(), readIndex).Some?`). That excludes both the stale-byte reads and the throwing ones.
- Serializer.BridgeStream.AppendToSource: requires `0 <= length <= data.Length`. In the source, `GrowBuffer(length)` runs first and may already have reallocated the buffer and doubled the capacity. Only then does `BlockCopy` throw: `ArgumentException` when `length` exceeds `data.Length`, and `ArgumentOutOfRangeException` when `length` is negative. These error paths are not modelled. The branch for a null `Buffer` is not modelled either. The public `Buffer` setter is left out, and with it the only way the buffer can become null.
- The public `Buffer` setter: it can replace the array under the cursors, breaking `_capacity == Buffer.Length`.
- UTF-8 transcoding (`Encoding.UTF8.GetBytes`/`GetString`): a string is its UTF-8 byte sequence, and `ReadString` returns those bytes. The replacement of invalid UTF-8 on decoding is not modelled.
- Pointer stores and `BitConverter.ToInt64` are modelled as explicit little-endian byte splitting and assembly, which is what they do on a little-endian host. Big-endian hosts are not modelled.
- Floats, including the floats of `Vector3` and `Quaternion`, are their 32-bit patterns only. Float arithmetic and NaN semantics are not modelled. The engine types themselves are plain records of their float fields.
- `Read(Type)` and `ReadList(Type)`: they create objects by reflection, which has no counterpart here.
- Concrete `IBridgeSerializer` implementations: an object's `Write` and `Read` are given by the functions `enc` and `dec`. The model does not track what an object's `Read` does to the child stream beyond the bytes it receives.
- Null arguments: parameters of sequence, array and object type are never null in the model. Some source calls throw `NullReferenceException` on a null argument. These are `Write(int[])`, `Write(List<int>)`, `Write(List<string>)`, `Write(List<float>)`, `Write(byte[])`, `WriteArray`, `WriteList` and the `BridgeStream(byte[])` constructor. Those error paths are not modelled.
- Null objects: `Write(IBridgeSerializer)` with a null object throws when it calls the object's `Write`. Unlike a null `BridgeStream`, a null object is not written as a zero length. `WriteStream`'s null branch and `NullFrameIsEmptyFrame` concern child streams only. A null element in `WriteArray`/`WriteList` throws after the count and the earlier elements have already been appended. The model's objects are never null, so none of this is modelled.
- The implicit conversion of a stream to `bool`: it is a null check, and non-null references are a type in Dafny.
- 32-bit overflow: capacities and cursors are unbounded naturals. The source's `_capacity *= 2` wraps once a stream passes 2^30 bytes, and `WriteIndex + length` wraps near 2^31 bytes. Only byte-array, string and collection lengths are bounded, to a C# `int`.
- Serializer.BridgeStream.CheckMore: the sum `ReadIndex + needIndex` is computed without wrap-around. In the source it is unchecked C# `int` arithmetic, and it wraps on a stream of any size whenever `needIndex > int.MaxValue - ReadIndex`. For example, after one `ReadByte()`, `CheckMore(int.MaxValue)` compares against `-2147483648` and returns true, where the model returns false. The model's `CheckMore(n) <==> n <= |Unread()|` is therefore the intended meaning, and it matches the source only where the sum fits in an `int`. Every reader in the model uses it with a width between 1 and 16.
- The source has no writer for a list of longs. `ReadLongList` is modelled against the count-prefixed format its loop reads.
