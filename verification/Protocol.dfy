/** Protocol: the 11-byte message header, and what a frame is on the wire. */
module Protocols {
  import opened Bytes
  import opened ByteArrays
  import opened Codec

  const MAGIC: byte := 0xAA
  const VERSION: byte := 0x01
  const BASE_LENGTH: nat := 11
  const DEFAULT_CHUNK: nat := 4096

  datatype Message = Message(
    magic: byte, version: byte, kind: byte, id: nat, contentLength: nat, content: seq<byte>)
  {
    predicate Fits() { id < U32 && contentLength < U32 }
    /** Protocol::Create fills in the length field. */
    predicate Created() { magic == MAGIC && id < U32 && contentLength == |content| }
  }

  /** magic, version, type, sequence id, content length (truncated to 32 bits as written). */
  function EncodeHeader(m: Message): (s: seq<byte>)
    ensures |s| == BASE_LENGTH
  {
    [m.magic, m.version, m.kind] + LittleEndian(m.id, 4) + LittleEndian(|m.content| % U32, 4)
  }

  function EncodeFrame(m: Message): seq<byte> {
    EncodeHeader(m) + m.content
  }

  function DecodeHeader(s: seq<byte>): (m: Message)
    requires |s| == BASE_LENGTH
    ensures m.Fits()
  {
    RangeValues();
    Message(s[0], s[1], s[2], FromLittleEndian(s[3..7]), FromLittleEndian(s[7..11]), [])
  }

  lemma HeaderRoundTrip(m: Message)
    requires m.id < U32
    ensures DecodeHeader(EncodeHeader(m)) == m.(contentLength := |m.content| % U32, content := [])
  {
    RangeValues();
    var s := EncodeHeader(m);
    LittleEndianRoundTrip(m.id, 4);
    LittleEndianRoundTrip(|m.content| % U32, 4);
    assert s[3..7] == LittleEndian(m.id, 4) && s[7..11] == LittleEndian(|m.content| % U32, 4);
  }

  /** Where each field lies in the eleven bytes: least significant byte first. */
  lemma HeaderLayout(m: Message)
    ensures var s := EncodeHeader(m);
            && s[0] == m.magic && s[1] == m.version && s[2] == m.kind
            && (forall k | 0 <= k < 4 :: s[3 + k] == m.id / Range(k) % 256)
            && (forall k | 0 <= k < 4 :: s[7 + k] == |m.content| % U32 / Range(k) % 256)
  {
    forall k | 0 <= k < 4
      ensures EncodeHeader(m)[3 + k] == m.id / Range(k) % 256
      ensures EncodeHeader(m)[7 + k] == |m.content| % U32 / Range(k) % 256
    {
      LittleEndianByte(m.id, 4, k);
      LittleEndianByte(|m.content| % U32, 4, k);
    }
  }

  /** Any eleven bytes are the header of the message they decode to, given content of the length they say. */
  lemma HeaderOf(s: seq<byte>, content: seq<byte>)
    requires |s| == BASE_LENGTH && |content| == DecodeHeader(s).contentLength
    ensures EncodeHeader(DecodeHeader(s).(content := content)) == s
  {
    hide LittleEndian, FromLittleEndian;
    RangeValues();
    LittleEndianOf(s[3..7]);
    LittleEndianOf(s[7..11]);
    assert s == s[..3] + s[3..7] + s[7..11];
    assert s[..3] == [s[0], s[1], s[2]];
  }

  lemma OneByte(x: byte)
    ensures LittleEndian(x, 1) == [x]
  {
    assert LittleEndian(x / 256, 0) == [];
  }

  /** The bytes written to an empty array so far. */
  ghost predicate Holding(ba: ByteArray, s: seq<byte>)
    reads ba, ba.list, ba.list.Repr
  {
    ba.Valid() && ba.Contents() == s && ba.position == |s|
  }

  /** One more field behind what is written already. */
  method AppendFixed(ba: ByteArray, v: nat, n: nat, ghost done: seq<byte>)
    requires Holding(ba, done) && v < Range(n)
    modifies ba, ba.list.Repr
    ensures Holding(ba, done + LittleEndian(v, n)) && fresh(ba.list.Repr - old(ba.list.Repr))
  {
    WriteFixed(ba, v, n);
  }

  method AppendBytes(ba: ByteArray, s: seq<byte>, ghost done: seq<byte>)
    requires Holding(ba, done)
    modifies ba, ba.list.Repr
    ensures Holding(ba, done + s) && fresh(ba.list.Repr - old(ba.list.Repr))
  {
    WriteRaw(ba, s);
  }

  /** The five fixed-width writes that encode and encodeMeta begin with. */
  method WriteHeader(ba: ByteArray, m: Message)
    requires Holding(ba, []) && m.id < U32
    modifies ba, ba.list.Repr
    ensures Holding(ba, EncodeHeader(m)) && fresh(ba.list.Repr - old(ba.list.Repr))
  {
    hide Holding, LittleEndian;
    RangeValues();
    OneByte(m.magic);
    OneByte(m.version);
    OneByte(m.kind);
    AppendFixed(ba, m.magic, 1, []);
    AppendFixed(ba, m.version, 1, [] + [m.magic]);
    AppendFixed(ba, m.kind, 1, [] + [m.magic] + [m.version]);
    ghost var three := [] + [m.magic] + [m.version] + [m.kind];
    AppendFixed(ba, m.id, 4, three);
    AppendFixed(ba, |m.content| % U32, 4, three + LittleEndian(m.id, 4));
    assert three == [m.magic, m.version, m.kind];
  }

  /** encode: header and content in a fresh array, cursor at the start. */
  method Encode(m: Message) returns (ba: ByteArray)
    requires m.id < U32
    ensures ba.Valid() && fresh(ba) && fresh(ba.list.Repr)
    ensures ba.position == 0 && ba.Contents() == EncodeFrame(m)
  {
    hide EncodeHeader;
    ba := new ByteArray(DEFAULT_CHUNK);
    WriteHeader(ba, m);
    AppendBytes(ba, m.content, EncodeHeader(m));
    var _ := ba.SetPosition(0);
  }

  /** decodeMeta: the five reads. */
  method DecodeMeta(ba: ByteArray) returns (m: Message)
    requires ba.Valid() && |ba.Readable()| >= BASE_LENGTH
    modifies ba
    ensures ba.Valid() && ba.Contents() == old(ba.Contents())
    ensures m == DecodeHeader(old(ba.Readable())[..BASE_LENGTH]) && ba.Readable() == old(ba.Readable())[BASE_LENGTH..]
  {
    hide ByteArray.Valid, ByteArray.Contents, FromLittleEndian;
    ghost var s := ba.Readable();
    RangeValues();
    NextByte(s, 0);
    NextByte(s, 1);
    NextByte(s, 2);
    assert s[0..] == s;
    var magic := ReadFixed(ba, 1);
    var version := ReadFixed(ba, 1);
    var kind := ReadFixed(ba, 1);
    assert ba.Readable() == s[3..];
    var id := ReadFixed(ba, 4);
    assert s[3..][..4] == s[..BASE_LENGTH][3..7] && s[3..][4..] == s[7..];
    var contentLength := ReadFixed(ba, 4);
    assert s[7..][..4] == s[..BASE_LENGTH][7..11] && s[7..][4..] == s[11..];
    m := Message(magic, version, kind, id, contentLength, []);
  }

  /** decode: the header, then the string it announces. */
  method Decode(ba: ByteArray) returns (m: Message)
    requires ba.Valid() && |ba.Readable()| >= BASE_LENGTH
    requires DecodeHeader(ba.Readable()[..BASE_LENGTH]).contentLength <= |ba.Readable()| - BASE_LENGTH
    modifies ba
    ensures ba.Valid() && ba.Contents() == old(ba.Contents())
    ensures m == old(DecodeHeader(ba.Readable()[..BASE_LENGTH])).(content := m.content)
    ensures old(ba.Readable())[BASE_LENGTH..] == m.content + ba.Readable() && |m.content| == m.contentLength
  {
    hide ByteArray.Valid, ByteArray.Contents, DecodeHeader;
    m := DecodeMeta(ba);
    var content := ba.Read(m.contentLength);
    m := m.(content := content);
  }

  /** decode undoes encode exactly for contents whose length fits the 32-bit field. */
  lemma DecodeEncode(m: Message)
    requires m.Created()
    ensures var s := EncodeFrame(m);
            var h := DecodeHeader(s[..BASE_LENGTH]);
            (h.contentLength <= |s| - BASE_LENGTH) &&
            (h.(content := s[BASE_LENGTH..][..h.contentLength]) == m <==> |m.content| < U32)
  {
    HeaderRoundTrip(m);
    var s := EncodeFrame(m);
    assert s[..BASE_LENGTH] == EncodeHeader(m) && s[BASE_LENGTH..] == m.content;
  }
}
