/** SocketStream, Stream and RPCSession: frames over a connection that fragments as it likes. */
module Sessions {
  import opened Basics
  import opened Bytes
  import opened FlatBuffer
  import opened ChunkLists
  import opened ByteArrays
  import opened Protocols

  /** One end of a connection. Each call moves an arbitrary part of what it could move. */
  class Socket {
    var incoming: seq<byte>   // sent by the peer, not received yet
    var outgoing: seq<byte>   // accepted for sending, in order

    constructor (bytes: seq<byte>)
      ensures incoming == bytes && outgoing == []
    {
      incoming, outgoing := bytes, [];
    }

    /** recv: some of the incoming bytes; nothing exactly when the peer sent no more. */
    method Recv(len: nat) returns (bytes: seq<byte>)
      requires len > 0
      modifies this`incoming
      ensures |bytes| <= len && old(incoming) == bytes + incoming
      ensures bytes == [] <==> old(incoming) == []
    {
      bytes := [];
      if incoming != [] {
        var n :| 0 < n <= len && n <= |incoming|;
        bytes, incoming := incoming[..n], incoming[n..];
      }
    }

    /** send: some of the bytes are accepted; 0 means the connection takes no more. */
    method Send(bytes: seq<byte>) returns (n: nat)
      modifies this`outgoing
      ensures n <= |bytes| && outgoing == old(outgoing) + bytes[..n]
    {
      n :| n <= |bytes|;
      outgoing := outgoing + bytes[..n];
    }
  }

  /** A size_t returned as int. */
  function AsInt(n: nat): int {
    var low := n % U32;
    if low < 0x8000_0000 then low else low - U32
  }

  /** SocketStream::read(ba, len): scatter into write buffers, then move the cursor. The effect on the
      array is that of writing the received bytes. */
  method ReadSome(sock: Socket, ba: ByteArray, len: nat) returns (n: nat)
    requires ba.Valid() && len > 0 && sock !in ba.list.Repr
    modifies sock`incoming, ba, ba.list.Repr
    ensures ba.Valid() && fresh(ba.list.Repr - old(ba.list.Repr))
    ensures n <= len && n <= |old(sock.incoming)| && (n == 0 <==> old(sock.incoming) == [])
    ensures sock.incoming == old(sock.incoming)[n..]
    ensures Written(old(ba.Contents()), old(ba.position), ba.Contents(), ba.position, old(sock.incoming)[..n])
  {
    hide ChunkList.Valid, Flatten;
    var iovs := ba.GetWriteBuffers(len);
    ghost var grown := ba.list.Mem();
    var bytes := sock.Recv(len);
    n := |bytes|;
    if n > 0 {
      ba.list.Scatter(iovs, bytes, ba.position, len);
      var _ := ba.SetPosition(ba.position + n);
      PatchIsOverwrite(old(ba.list.Mem()), grown, ba.list.Mem(), old(ba.size), old(ba.position), bytes);
    } else {
      WrittenNothing(old(ba.Contents()), old(ba.position));
      assert ba.Contents() == old(ba.Contents());
    }
    assert old(sock.incoming)[..n] == bytes;
  }

  /** SocketStream::write(ba, len): gather the read buffers, then move the cursor over what was sent. */
  method WriteSome(sock: Socket, ba: ByteArray, len: nat) returns (n: nat)
    requires ba.Valid() && sock !in ba.list.Repr
    modifies sock`outgoing, ba
    ensures ba.Valid() && ba.Contents() == old(ba.Contents())
    ensures n <= len && n <= |old(ba.Readable())|
    ensures ba.Readable() == old(ba.Readable())[n..]
    ensures sock.outgoing == old(sock.outgoing) + old(ba.Readable())[..n]
  {
    hide ChunkList.Valid, Flatten;
    var iovs, total := ba.GetReadBuffers(len);
    var bytes := ba.list.Gather(iovs, total, ba.position, total);
    assert bytes == ba.Readable()[..total];
    n := sock.Send(bytes);
    if n > 0 {
      var _ := ba.SetPosition(ba.position + n);
    }
    assert bytes[..n] == old(ba.Readable())[..n];
  }

  /** Stream::readFixSize(ba, len): all len bytes, or 0 when the peer sent fewer. */
  method ReadFixSize(sock: Socket, ba: ByteArray, len: nat) returns (r: int)
    requires Holding(ba, []) && sock !in ba.list.Repr
    modifies sock`incoming, ba, ba.list.Repr
    ensures ba.Valid() && fresh(ba.list.Repr - old(ba.list.Repr))
    ensures |old(sock.incoming)| >= len ==>
              r == AsInt(len) && Holding(ba, old(sock.incoming)[..len]) && sock.incoming == old(sock.incoming)[len..]
    ensures |old(sock.incoming)| < len ==> r == 0 && sock.incoming == []
  {
    hide ByteArray.Valid, ChunkList.Valid, Flatten;
    ghost var all := sock.incoming;
    var left := len;
    while left > 0
      invariant 0 <= left <= len && len - left <= |all|
      invariant sock.incoming == all[len - left..] && Holding(ba, all[..len - left])
      invariant fresh(ba.list.Repr - old(ba.list.Repr)) && sock !in ba.list.Repr
    {
      ghost var done := len - left;
      var l := ReadSome(sock, ba, left);
      if l <= 0 {
        return l;
      }
      HoldMore(all, done, l);
      left := left - l;
    }
    return AsInt(len);
  }

  lemma HoldMore(all: seq<byte>, done: nat, l: nat)
    requires done + l <= |all|
    ensures Overwrite(all[..done], done, all[done..][..l]) == all[..done + l]
    ensures all[done..][l..] == all[done + l..]
  {
  }

  /** Stream::readFixSize(buff, len). */
  method ReadFixBuffer(sock: Socket, len: nat) returns (r: int, buff: seq<byte>)
    modifies sock`incoming
    ensures |old(sock.incoming)| >= len ==>
              r == AsInt(len) && buff == old(sock.incoming)[..len] && sock.incoming == old(sock.incoming)[len..]
    ensures |old(sock.incoming)| < len ==> r == 0 && sock.incoming == []
  {
    buff := [];
    var left := len;
    while left > 0
      invariant 0 <= left <= len && |buff| == len - left
      invariant old(sock.incoming) == buff + sock.incoming
    {
      var bytes := sock.Recv(left);
      var l := |bytes|;
      if l <= 0 {
        return l, buff;
      }
      buff := buff + bytes;
      left := left - l;
    }
    return AsInt(len), buff;
  }

  /** Stream::writeFixSize(ba, len): everything, or 0 when the connection stopped in between. */
  method WriteFixSize(sock: Socket, ba: ByteArray, len: nat) returns (r: int, ghost sent: nat)
    requires ba.Valid() && sock !in ba.list.Repr && len == |ba.Readable()|
    modifies sock`outgoing, ba
    ensures sent <= len && sock.outgoing == old(sock.outgoing) + old(ba.Readable())[..sent]
    ensures if sent == len then r == AsInt(len) else r == 0
  {
    hide ByteArray.Valid, ByteArray.Contents;
    ghost var all := ba.Readable();
    var left := len;
    sent := 0;
    while left > 0
      invariant 0 <= left <= len && sent == len - left
      invariant ba.Valid() && ba.Readable() == all[sent..]
      invariant sock.outgoing == old(sock.outgoing) + all[..sent]
      decreases left
    {
      var l := WriteSome(sock, ba, left);
      if l <= 0 {
        return l, sent;
      }
      assert all[..sent] + all[sent..][..l] == all[..sent + l];
      assert all[sent..][l..] == all[sent + l..];
      left := left - l;
      sent := sent + l;
    }
    return AsInt(len), sent;
  }

  // ---- frames -------------------------------------------------------------------------------

  datatype Received = Received(message: Option<Message>, rest: seq<byte>)

  /** What recvRequest makes of the bytes the peer sent. A content of 2^31 bytes or more is read and
      then dropped, because its size comes back as a negative int. */
  function NextFrame(bytes: seq<byte>): Received {
    if |bytes| < BASE_LENGTH then Received(None, [])
    else
      var h, body := DecodeHeader(bytes[..BASE_LENGTH]), bytes[BASE_LENGTH..];
      if h.magic != MAGIC then Received(None, body)
      else if h.contentLength == 0 then Received(Some(h), body)
      else if |body| < h.contentLength then Received(None, [])
      else if AsInt(h.contentLength) <= 0 then Received(None, body[h.contentLength..])
      else Received(Some(h.(content := body[..h.contentLength])), body[h.contentLength..])
  }

  /** What is left of the bytes after a frame was read or refused: nothing when they ran out, what follows the
      header when it does not start with the magic byte, and else what follows the announced content. */
  predicate Consumed(bytes: seq<byte>, rest: seq<byte>) {
    if |bytes| < 11 then rest == []
    else if bytes[0] != 0xAA then rest == bytes[11..]
    else
      var n := FromLittleEndian(bytes[7..11]);
      rest == if n <= |bytes| - 11 then bytes[11 + n..] else []
  }

  lemma FrameLeft(bytes: seq<byte>)
    ensures Consumed(bytes, NextFrame(bytes).rest)
  {
    hide FromLittleEndian;
    if |bytes| >= BASE_LENGTH {
      assert bytes[..BASE_LENGTH][7..11] == bytes[7..11];
    }
  }

  /** A message is returned only if the bytes begin with its well-formed frame, whose bytes are then gone; none
      is returned only if they begin with no such frame. */
  lemma FrameTaken(bytes: seq<byte>)
    ensures var r := NextFrame(bytes);
            && (r.message.Some? ==> Sendable(r.message.value) && bytes == EncodeFrame(r.message.value) + r.rest)
            && (r.message.None? ==> forall x: Message | Sendable(x) :: !(EncodeFrame(x) <= bytes))
  {
    var r := NextFrame(bytes);
    if r.message.Some? {
      FrameParts(bytes);
    } else {
      forall x: Message | Sendable(x) ensures !(EncodeFrame(x) <= bytes) {
        if EncodeFrame(x) <= bytes {
          var rest := bytes[|EncodeFrame(x)|..];
          assert EncodeFrame(x) + rest == bytes;
          FrameRoundTrip(x, rest);
        }
      }
    }
  }

  lemma FrameParts(bytes: seq<byte>)
    requires NextFrame(bytes).message.Some?
    ensures var r := NextFrame(bytes);
            Sendable(r.message.value) && bytes == EncodeFrame(r.message.value) + r.rest
  {
    hide EncodeHeader;
    var r := NextFrame(bytes);
    HeaderOf(bytes[..BASE_LENGTH], r.message.value.content);
    assert bytes == bytes[..BASE_LENGTH] + r.message.value.content + r.rest;
  }

  /** RPCSession::recvRequest. It returns a message exactly when the bytes begin with a sendable frame. */
  method RecvRequest(sock: Socket) returns (m: Option<Message>)
    modifies sock`incoming
    ensures Received(m, sock.incoming) == NextFrame(old(sock.incoming))
    ensures m.Some? ==> Sendable(m.value) && old(sock.incoming) == EncodeFrame(m.value) + sock.incoming
    ensures m.None? ==> forall x: Message | Sendable(x) :: !(EncodeFrame(x) <= old(sock.incoming))
    ensures Consumed(old(sock.incoming), sock.incoming)
  {
    hide DecodeHeader, ByteArray.Valid, ChunkList.Valid, Flatten, EncodeFrame, Sendable, Consumed;
    FrameTaken(sock.incoming);
    FrameLeft(sock.incoming);
    var ba := new ByteArray(DEFAULT_CHUNK);
    var r := ReadFixSize(sock, ba, BASE_LENGTH);
    if r <= 0 {
      return None;
    }
    var request := ReadHeader(ba, old(sock.incoming)[..BASE_LENGTH]);
    if request.magic != MAGIC {
      return None;
    }
    if request.contentLength == 0 {
      return Some(request);
    }
    var buff;
    r, buff := ReadFixBuffer(sock, request.contentLength);
    if r <= 0 {
      return None;
    }
    return Some(request.(content := buff));
  }

  /** setPosition(0) and decodeMeta. */
  method ReadHeader(ba: ByteArray, ghost header: seq<byte>) returns (m: Message)
    requires |header| == BASE_LENGTH && Holding(ba, header)
    modifies ba
    ensures m == DecodeHeader(header)
  {
    hide DecodeHeader, ChunkList.Valid, Flatten;
    var _ := ba.SetPosition(0);
    assert ba.Readable() == header && header[..BASE_LENGTH] == header;
    m := DecodeMeta(ba);
  }

  /** RPCSession::sendResponse: the whole frame goes out, or a proper prefix and the result is 0. */
  method SendResponse(sock: Socket, m: Message) returns (r: int, ghost sent: nat)
    requires m.id < U32
    modifies sock`outgoing
    ensures sent <= |EncodeFrame(m)| && sock.outgoing == old(sock.outgoing) + EncodeFrame(m)[..sent]
    ensures if sent == |EncodeFrame(m)| then r == AsInt(|EncodeFrame(m)|) else r == 0
  {
    hide EncodeFrame, ByteArray.Valid;
    var ba := Encode(m);
    assert ba.Readable() == EncodeFrame(m);
    r, sent := WriteFixSize(sock, ba, ba.size);
  }

  /** What the receiver sees of a frame, whatever the size of its content. */
  lemma FrameSeen(m: Message, rest: seq<byte>)
    requires m.Created()
    ensures var body := m.content + rest;
            var n := |m.content| % U32;
            NextFrame(EncodeFrame(m) + rest)
              == if n == 0 || n < 0x8000_0000
                 then Received(Some(m.(contentLength := n, content := body[..n])), body[n..])
                 else Received(None, body[n..])
  {
    hide EncodeHeader, DecodeHeader;
    HeaderRoundTrip(m);
    var bytes := EncodeFrame(m) + rest;
    assert bytes[..BASE_LENGTH] == EncodeHeader(m);
    assert bytes[BASE_LENGTH..] == m.content + rest;
    var n := |m.content| % U32;
    assert n <= |m.content|;
  }

  /** A frame is received as it was sent exactly when its content is shorter than 2^31 bytes. */
  lemma FrameRoundTrip(m: Message, rest: seq<byte>)
    requires m.Created()
    ensures NextFrame(EncodeFrame(m) + rest) == Received(Some(m), rest) <==> |m.content| < 0x8000_0000
  {
    hide NextFrame, EncodeFrame;
    FrameSeen(m, rest);
    var n := |m.content|;
    if n < 0x8000_0000 {
      assert (m.content + rest)[..n] == m.content && (m.content + rest)[n..] == rest;
    }
  }

  function Frames(ms: seq<Message>): seq<byte> {
    if ms == [] then [] else Frames(ms[..|ms| - 1]) + EncodeFrame(ms[|ms| - 1])
  }

  datatype Batch = Batch(messages: seq<Option<Message>>, rest: seq<byte>)

  /** The results of n recvRequest calls, and what is left. */
  function ReceiveAll(n: nat, bytes: seq<byte>): Batch {
    if n == 0 then Batch([], bytes)
    else
      var before := ReceiveAll(n - 1, bytes);
      var last := NextFrame(before.rest);
      Batch(before.messages + [last.message], last.rest)
  }

  predicate Sendable(m: Message) { m.Created() && |m.content| < 0x8000_0000 }

  predicate AllSendable(ms: seq<Message>) { forall i | 0 <= i < |ms| :: Sendable(ms[i]) }

  function Somes(ms: seq<Message>): seq<Option<Message>> {
    seq(|ms|, i requires 0 <= i < |ms| => Some(ms[i]))
  }

  /** Any list of messages comes out as it went in, in order, and nothing of what follows is touched. */
  lemma {:induction false} FramesRoundTrip(ms: seq<Message>, rest: seq<byte>)
    requires AllSendable(ms)
    ensures ReceiveAll(|ms|, Frames(ms) + rest) == Batch(Somes(ms), rest)
  {
    hide EncodeFrame, NextFrame;
    if ms == [] {
      assert Frames(ms) + rest == rest;
    } else {
      var n := |ms| - 1;
      var last := EncodeFrame(ms[n]);
      assert Frames(ms) + rest == Frames(ms[..n]) + (last + rest);
      FramesRoundTrip(ms[..n], last + rest);
      FrameRoundTrip(ms[n], rest);
      assert Somes(ms) == Somes(ms[..n]) + [Some(ms[n])];
    }
  }

  lemma {:induction false} FramesPrefix(ms: seq<Message>, i: nat)
    requires i < |ms|
    ensures Frames(ms[..i]) + EncodeFrame(ms[i]) <= Frames(ms)
    decreases |ms|
  {
    hide EncodeFrame;
    var n := |ms| - 1;
    if i < n {
      FramesPrefix(ms[..n], i);
      assert ms[..n][..i] == ms[..i];
    }
  }

  lemma SentPart(m: Message, sent: nat, r: int)
    requires Sendable(m) && sent <= |EncodeFrame(m)| && r == 0
    requires if sent == |EncodeFrame(m)| then r == AsInt(|EncodeFrame(m)|) else r == 0
    ensures sent < |EncodeFrame(m)|
  {
    hide EncodeHeader;
  }

  /** One end sends the messages one by one with sendResponse ... */
  method SendMany(sock: Socket, ms: seq<Message>) returns (ok: bool)
    requires AllSendable(ms)
    modifies sock`outgoing
    ensures if ok then sock.outgoing == old(sock.outgoing) + Frames(ms)
            else old(sock.outgoing) <= sock.outgoing < old(sock.outgoing) + Frames(ms)
  {
    hide EncodeFrame;
    var i := 0;
    assert ms[..0] == [];
    while i < |ms|
      invariant 0 <= i <= |ms|
      invariant sock.outgoing == old(sock.outgoing) + Frames(ms[..i])
    {
      ghost var sent;
      var r;
      r, sent := SendResponse(sock, ms[i]);
      if r == 0 {
        FramesPrefix(ms, i);
        SentPart(ms[i], sent, r);
        return false;
      }
      SentWhole(ms[i], sent, r);
      assert ms[..i + 1][..i] == ms[..i];
      i := i + 1;
    }
    assert ms[..i] == ms;
    return true;
  }

  /** ... the other end calls recvRequest n times. */
  method RecvMany(sock: Socket, n: nat) returns (got: seq<Option<Message>>)
    modifies sock`incoming
    ensures Batch(got, sock.incoming) == ReceiveAll(n, old(sock.incoming))
  {
    hide NextFrame;
    got := [];
    var i := 0;
    while i < n
      invariant 0 <= i <= n && Batch(got, sock.incoming) == ReceiveAll(i, old(sock.incoming))
    {
      var m := RecvRequest(sock);
      got := got + [m];
      i := i + 1;
    }
  }

  /** However the connection cuts the bytes up on either side, what is received is what was sent,
      provided every send went through. */
  method Exchange(a: Socket, b: Socket, ms: seq<Message>) returns (ok: bool, got: seq<Option<Message>>)
    requires a != b && a.outgoing == [] && b.incoming == []
    requires AllSendable(ms)
    modifies a`outgoing, b`incoming
    ensures ok ==> got == Somes(ms) && b.incoming == []
    ensures !ok ==> a.outgoing < Frames(ms)
  {
    got := [];
    ok := SendMany(a, ms);
    if ok {
      b.incoming := a.outgoing;
      got := RecvMany(b, |ms|);
      FramesRoundTrip(ms, []);
      assert [] + Frames(ms) == Frames(ms) + [];
    } else {
      assert [] + Frames(ms) == Frames(ms);
    }
  }

  lemma SentWhole(m: Message, sent: nat, r: int)
    requires sent <= |EncodeFrame(m)| && r != 0
    requires if sent == |EncodeFrame(m)| then r == AsInt(|EncodeFrame(m)|) else r == 0
    ensures EncodeFrame(m)[..sent] == EncodeFrame(m)
  {
  }
}
