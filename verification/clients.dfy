/**
 * Callers of the stream: a writer fills a stream, its bytes are handed over,
 * and a reader takes the values back out in the same order. Each method is a
 * whole conversation between the two sides, proved from the contracts of the
 * stream's operations and the round-trip lemmas alone.
 */
module Clients {
  import opened Wire
  import opened Serializer
  import RoundTrip

  /** An int, a string and a byte array sit one after the other in a message. */
  lemma MessageLayout(s: seq<byte>, n: int32, text: ByteSpan, data: ByteSpan)
    requires s == EncodeInt(n) + EncodeString(Some(text)) + EncodeBytes(data)
    ensures ParseInt(s, 0) == Some((n, 4))
    ensures ParseBytes(s, 4) == Some((text, 8 + |text|))
    ensures ParseBytes(s, 8 + |text|) == Some((data, |s|))
  {
    var a, b, c := EncodeInt(n), EncodeString(Some(text)), EncodeBytes(data);
    assert EncodedAt(s, 0, a + b + c);
    RoundTrip.EncodedAtSplit(s, 0, a + b, c);
    RoundTrip.EncodedAtSplit(s, 0, a, b);
    RoundTrip.ParseIntOfEncodeInt(s, 0, n);
    RoundTrip.ParseStringOfEncodeString(s, 4, Some(text));
    RoundTrip.ParseBytesOfEncodeBytes(s, 8 + |text|, data);
  }

  /** Writes an int, a string and a byte array, and encodes the result. */
  method WriteMessage(n: int32, text: ByteSpan, data: ByteSpan) returns (message: array<byte>)
    ensures message[..] == EncodeInt(n) + EncodeString(Some(text)) + EncodeBytes(data)
  {
    var writer := new BridgeStream();
    writer.WriteInt(n);
    writer.WriteString(Some(text));
    writer.WriteBytes(data);
    message := writer.Encode();
  }

  /** An int, a string and a byte array, sent as one encoded message and read
    * back from a stream wrapped around it; nothing is left over. */
  method MixedMessage(n: int32, text: ByteSpan, data: ByteSpan)
    returns (n': int32, text': ByteSpan, data': seq<byte>, more: bool)
    ensures n' == n && text' == text && data' == data && !more
  {
    var message := WriteMessage(n, text, data);
    var reader := new BridgeStream.FromBytes(message);
    MessageLayout(reader.Written(), n, text, data);
    n' := reader.ReadInt();
    text' := reader.ReadString();
    var bytes := reader.ReadByteArray();
    data' := bytes[..];
    more := reader.HasMore();
  }

  /** A child stream written into a parent reads back as a stream holding
    * exactly the child's written bytes, positioned at their start. */
  method ChildStreamRoundTrip(child: BridgeStream) returns (packet: BridgeStream)
    requires child.Valid() && |child.Written()| <= MaxInt32
    ensures packet.Valid() && packet.readIndex == 0
    ensures packet.Written() == child.Written()
  {
    var parent := new BridgeStream();
    parent.WriteStream(child);
    RoundTrip.ParseBytesOfEncodeBytes(parent.Written(), 0, child.Written());
    packet := parent.ReadStream();
  }

  /** An absent child stream reads back as an empty one. */
  method NullChildRoundTrip() returns (packet: BridgeStream)
    ensures packet.Valid() && packet.Empty() && !packet.HasMore()
  {
    var parent := new BridgeStream();
    parent.WriteStream(null);
    RoundTrip.ParseBytesOfEncodeBytes(parent.Written(), 0, []);
    packet := parent.ReadStream();
  }

  /** An object whose reader undoes its writer comes back equal to itself. */
  method ObjectRoundTrip<T>(x: T, enc: T -> ByteSpan, dec: seq<byte> -> T) returns (y: T)
    requires dec(enc(x)) == x
    ensures y == x
  {
    var stream := new BridgeStream();
    stream.WriteObject(x, enc);
    RoundTrip.ParseBytesOfEncodeBytes(stream.Written(), 0, enc(x));
    y := stream.ReadObject(dec);
  }

  /** A list of ints, however long, survives the buffer's growth and reads
    * back in full and in order, consuming the whole stream. */
  method IntListRoundTrip(values: seq<int32>) returns (result: seq<int32>, more: bool)
    requires |values| <= MaxInt32
    ensures result == values && !more
  {
    var stream := new BridgeStream();
    stream.WriteInts(values);
    RoundTrip.IntCodecInverts();
    RoundTrip.ParseCountedOfEncodeCounted(stream.Written(), 0, values, EncodeInt, ParseInt);
    result := stream.ReadIntList();
    more := stream.HasMore();
  }

  /** A list of strings reads back with its null entries as empty strings. */
  method StringListRoundTrip(values: seq<Option<ByteSpan>>) returns (result: seq<ByteSpan>)
    requires |values| <= MaxInt32
    ensures |result| == |values|
    ensures forall i :: 0 <= i < |values| ==> result[i] == (if values[i].None? then [] else values[i].value)
  {
    var stream := new BridgeStream();
    stream.WriteStringList(values);
    RoundTrip.ParseStringListOfEncodeStringList(stream.Written(), 0, values);
    result := stream.ReadStringList();
  }

  /** Objects written as a list read back as the same objects, in order. */
  method ObjectListRoundTrip<T(!new)>(xs: seq<T>, enc: T -> ByteSpan, dec: seq<byte> -> T) returns (ys: seq<T>)
    requires |xs| <= MaxInt32
    requires forall x :: dec(enc(x)) == x
    ensures ys == xs
  {
    var stream := new BridgeStream();
    stream.WriteObjects(xs, enc);
    RoundTrip.ParseObjectListOfEncodeObjectList(stream.Written(), 0, xs, enc, dec);
    ys := stream.ReadList(dec);
  }
}
