/** A remote call's arguments, from the client's packing to the server's unpacking. */
module RpcCalls {
  import opened Basics
  import opened Bytes
  import opened FlatBuffer
  import opened ChunkLists
  import opened ByteArrays
  import opened Codec
  import opened Protocols
  import Sessions
  import opened Serialization
  import Serializers

  /** Serializer(content): a fresh array holding the content, cursor at the start. */
  method Load(content: seq<byte>, chunk: nat) returns (ba: ByteArray)
    requires chunk >= 1
    ensures ba.Valid() && fresh(ba) && fresh(ba.list.Repr)
    ensures ba.Readable() == content
  {
    hide ChunkList.Valid, Flatten;
    ba := new ByteArray(chunk);
    AppendBytes(ba, content, []);
    var _ := ba.SetPosition(0);
    assert [] + content == content;
  }

  /** The call body: the function name, then the argument tuple if there are arguments. */
  function CallBody(name: seq<byte>, args: seq<Data>, ts: seq<Ty>): seq<byte>
    requires AllTyped(args, ts)
  {
    EncodeString(name) + SerializeAll(args, ts)
  }

  /** RPCClient::call: s << name << args; reset; toString. */
  method PackCall(name: seq<byte>, args: seq<Data>, ts: seq<Ty>, chunk: nat) returns (content: seq<byte>)
    requires chunk >= 1 && |name| < U64 && AllTyped(args, ts)
    ensures content == CallBody(name, args, ts)
  {
    hide ChunkList.Valid, Flatten, EncodeString, SerializeAll;
    var ba := new ByteArray(chunk);
    WriteStringVint(ba, name);
    assert ba.Contents() == EncodeString(name) && ba.position == ba.size;
    if |args| > 0 {
      ghost var c := ba.Contents();
      Serializers.WriteTuple(ba, args, ts);
      assert ba.Contents() == c + SerializeAll(args, ts);
    } else {
      NoParts(args, ts);
    }
    var _ := ba.SetPosition(0);
    content := ba.ToString();
  }

  /** RPCServer::handleMethodCall: read the name; the argument string is whatever is left. */
  method SplitCall(content: seq<byte>, chunk: nat) returns (name: seq<byte>, args: seq<byte>)
    requires chunk >= 1 && DecodeString(content).Some?
    ensures Some(Parsed(name, args)) == DecodeString(content)
  {
    hide DecodeString, ByteArray.Valid;
    var ba := Load(content, chunk);
    name := ReadStringVint(ba);
    args := ba.ToString();
  }

  /** RPCServer::proxy: the argument tuple of the registered function. */
  method UnpackArguments(args: seq<byte>, ts: seq<Ty>, chunk: nat) returns (vs: seq<Value>)
    requires chunk >= 1 && DeserializeAll(ts, args).Some?
    ensures vs == DeserializeAll(ts, args).value.value
  {
    hide DeserializeAll, ByteArray.Valid;
    var ba := Load(args, chunk);
    vs := Serializers.ReadTuple(ba, ts);
  }

  /** The server calls the named function with equal arguments, wherever chunk boundaries fall. */
  method CallArguments(name: seq<byte>, args: seq<Data>, ts: seq<Ty>, chunk: nat, chunk': nat)
    returns (name': seq<byte>, vs: seq<Value>)
    requires chunk >= 1 && chunk' >= 1 && |name| < U64 && AllTyped(args, ts)
    ensures name' == name && vs == DenoteAll(args)
  {
    var content := PackCall(name, args, ts, chunk);
    var argString;
    CallBodySplits(name, args, ts);
    name', argString := SplitCall(content, chunk');
    vs := UnpackArguments(argString, ts, chunk');
  }

  lemma CallBodySplits(name: seq<byte>, args: seq<Data>, ts: seq<Ty>)
    requires |name| < U64 && AllTyped(args, ts)
    ensures DecodeString(CallBody(name, args, ts)) == Some(Parsed(name, SerializeAll(args, ts)))
    ensures DeserializeAll(ts, SerializeAll(args, ts)) == Some(Parsed(DenoteAll(args), []))
  {
    StringRoundTrip(name, SerializeAll(args, ts));
    RoundTripAll(args, ts, []);
    assert SerializeAll(args, ts) + [] == SerializeAll(args, ts);
  }

  /** A whole call over a connection that cuts the bytes up as it likes on both sides: when the request
      goes out, the server sees the same function name and equal arguments. */
  method RemoteCall(a: Sessions.Socket, b: Sessions.Socket, name: seq<byte>, args: seq<Data>, ts: seq<Ty>,
                    kind: byte, id: nat, chunk: nat, chunk': nat)
    returns (ok: bool, name': seq<byte>, vs: seq<Value>)
    requires a != b && a.outgoing == [] && b.incoming == []
    requires chunk >= 1 && chunk' >= 1 && id < U32 && |name| < U64 && AllTyped(args, ts)
    requires |CallBody(name, args, ts)| < 0x8000_0000
    modifies a`outgoing, b`incoming
    ensures ok ==> name' == name && vs == DenoteAll(args) && b.incoming == []
  {
    hide CallBody, Sessions.Frames;
    name', vs := [], [];
    var content := PackCall(name, args, ts, chunk);
    var request := Message(MAGIC, VERSION, kind, id, |content|, content);
    var got;
    ok, got := Sessions.Exchange(a, b, [request]);
    if ok {
      assert got[0] == Some(request);
      CallBodySplits(name, args, ts);
      var argString;
      name', argString := SplitCall(got[0].value.content, chunk');
      vs := UnpackArguments(argString, ts, chunk');
    }
  }
}
