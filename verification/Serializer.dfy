/** Serializer over a ByteArray: the `<<` and `>>` operators, statement by statement. */
module Serializers {
  import opened Bytes
  import opened Varint
  import opened FlatBuffer
  import opened ByteArrays
  import opened Codec
  import opened Serialization

  /** write(T t): the dispatch on scalar types. */
  method WriteScalar(ba: ByteArray, t: Scalar, n: int)
    requires ba.Valid() && InRange(t, n)
    modifies ba, ba.list.Repr
    ensures ba.Valid() && fresh(ba.list.Repr - old(ba.list.Repr))
    ensures Written(old(ba.Contents()), old(ba.position), ba.Contents(), ba.position, EncodeScalar(t, n))
  {
    hide ByteArray.Valid, ByteArray.Contents, Written, Varint.EncodeVarint;
    RangeValues();
    match t {
      case Bool => WriteFixed(ba, n, 1);
      case Float => WriteFixed(ba, n, 4);
      case Double => WriteFixed(ba, n, 8);
      case Int8 => WriteFixed(ba, ToUnsigned(n, 1), 1);
      case UInt8 => WriteFixed(ba, n, 1);
      case Int16 => WriteFixed(ba, ToUnsigned(n, 2), 2);
      case UInt16 => WriteFixed(ba, n, 2);
      case Int32 => WriteVarint(ba, W32, EncodeZigzag(n, W32));
      case UInt32 => WriteVarint(ba, W32, n);
      case Int64 => WriteVarint(ba, W64, EncodeZigzag(n, W64));
      case UInt64 => WriteVarint(ba, W64, n);
    }
  }

  method ReadScalar(ba: ByteArray, t: Scalar) returns (n: int)
    requires ba.Valid() && DecodeScalar(t, ba.Readable()).Some?
    modifies ba
    ensures ba.Valid() && ba.Contents() == old(ba.Contents())
    ensures Parsed(n, ba.Readable()) == DecodeScalar(t, old(ba.Readable())).value
  {
    hide ByteArray.Valid, ByteArray.Contents, Varint.DecodeVarint;
    match FormOf(t)
    case Raw(size) =>
      var u := ReadFixed(ba, size);
      n := Interpret(t, u);
    case Var(w) =>
      MinimalLength(w, ba.Readable());
      var u := ReadVarint(ba, w);
      n := Interpret(t, u);
  }

  /** operator<<. */
  method Write(ba: ByteArray, d: Data, ty: Ty)
    requires ba.Valid() && HasType(d, ty)
    modifies ba, ba.list.Repr
    ensures ba.Valid() && fresh(ba.list.Repr - old(ba.list.Repr))
    ensures Written(old(ba.Contents()), old(ba.position), ba.Contents(), ba.position, Serialize(d, ty))
    decreases d, 1
  {
    hide ByteArray.Valid, ByteArray.Contents, Written, EncodeScalar, EncodeString, Varint.EncodeVarint, InRange;
    match (d, ty)
    case (Number(t, n), _) => WriteScalar(ba, t, n);
    case (Text(s), _) => WriteStringVint(ba, s);
    case (Pair(a, b), TPair(x, y)) =>
      Write(ba, a, x);
      ghost var c, p := ba.Contents(), ba.position;
      Write(ba, b, y);
      WrittenTwice(old(ba.Contents()), old(ba.position), c, p, ba.Contents(), ba.position, Serialize(a, x), Serialize(b, y));
    case (Tuple(ds), TTuple(ts)) => WriteTuple(ba, ds, ts);
    case (Coll(_, ds), TColl(_, e)) => WriteColl(ba, ds, e);
  }

  /** tuple_serialize<N>: the first N-1 parts, then the last. */
  method WriteTuple(ba: ByteArray, ds: seq<Data>, ts: seq<Ty>)
    requires ba.Valid() && AllTyped(ds, ts) && ds != []
    modifies ba, ba.list.Repr
    ensures ba.Valid() && fresh(ba.list.Repr - old(ba.list.Repr))
    ensures Written(old(ba.Contents()), old(ba.position), ba.Contents(), ba.position, SerializeAll(ds, ts))
    decreases ds, 0
  {
    hide ByteArray.Valid, ByteArray.Contents, Written, HasType, Serialize;
    var n := |ds| - 1;
    if n == 0 {
      Write(ba, ds[0], ts[0]);
      assert SerializeAll(ds, ts) == Serialize(ds[0], ts[0]) by { assert SerializeAll(ds[..0], ts[..0]) == []; }
    } else {
      WriteTuple(ba, ds[..n], ts[..n]);
      ghost var c, p := ba.Contents(), ba.position;
      Write(ba, ds[n], ts[n]);
      WrittenTwice(old(ba.Contents()), old(ba.position), c, p, ba.Contents(), ba.position,
                   SerializeAll(ds[..n], ts[..n]), Serialize(ds[n], ts[n]));
    }
  }

  /** operator<< on every container: the size, then the elements in iteration order. */
  method WriteColl(ba: ByteArray, ds: seq<Data>, e: Ty)
    requires ba.Valid() && |ds| < U64 && AllTyped(ds, Repeat(|ds|, e))
    modifies ba, ba.list.Repr
    ensures ba.Valid() && fresh(ba.list.Repr - old(ba.list.Repr))
    ensures Written(old(ba.Contents()), old(ba.position), ba.Contents(), ba.position,
                    EncodeVarint(|ds|) + SerializeAll(ds, Repeat(|ds|, e)))
    decreases ds, 0
  {
    hide ByteArray.Valid, ByteArray.Contents, Written, HasType, Serialize, SerializeAll, Varint.EncodeVarint;
    ghost var ts := Repeat(|ds|, e);
    ghost var size := EncodeVarint(|ds|);
    WriteVarint(ba, W64, |ds|);
    ghost var written := size;
    assert ds[..0] == [] && ts[..0] == [];
    SerializeNone(size);
    var i := 0;
    while i < |ds|
      invariant 0 <= i <= |ds|
      invariant ba.Valid() && fresh(ba.list.Repr - old(ba.list.Repr))
      invariant AllTyped(ds[..i], ts[..i]) && written == size + SerializeAll(ds[..i], ts[..i])
      invariant Written(old(ba.Contents()), old(ba.position), ba.Contents(), ba.position, written)
    {
      ghost var c, p := ba.Contents(), ba.position;
      Write(ba, ds[i], e);
      WrittenTwice(old(ba.Contents()), old(ba.position), c, p, ba.Contents(), ba.position, written, Serialize(ds[i], e));
      SerializeNext(ds, ts, i, size);
      written := written + Serialize(ds[i], e);
      i := i + 1;
    }
    assert ds[..i] == ds && ts[..i] == ts;
  }

  lemma SerializeNone(size: seq<byte>)
    ensures AllTyped([], []) && size + SerializeAll([], []) == size
  {
  }

  lemma SerializeNext(ds: seq<Data>, ts: seq<Ty>, i: nat, size: seq<byte>)
    requires AllTyped(ds, ts) && i < |ds|
    ensures AllTyped(ds[..i], ts[..i]) && AllTyped(ds[..i + 1], ts[..i + 1])
    ensures size + SerializeAll(ds[..i + 1], ts[..i + 1]) == size + SerializeAll(ds[..i], ts[..i]) + Serialize(ds[i], ts[i])
  {
    assert ds[..i + 1][..i] == ds[..i] && ts[..i + 1][..i] == ts[..i];
  }

  /** operator>> into an empty target. The C++ code does not check that the bytes suffice. */
  method Read(ba: ByteArray, ty: Ty) returns (v: Value)
    requires ba.Valid() && Deserialize(ty, ba.Readable()).Some?
    modifies ba
    ensures ba.Valid() && ba.Contents() == old(ba.Contents())
    ensures Parsed(v, ba.Readable()) == Deserialize(ty, old(ba.Readable())).value
    decreases ty, 1
  {
    hide ByteArray.Valid, ByteArray.Contents, DecodeScalar, DecodeString, Varint.DecodeVarint;
    match ty
    case TScalar(t) =>
      var n := ReadScalar(ba, t);
      v := VNumber(n);
    case TString =>
      var s := ReadStringVint(ba);
      v := VText(s);
    case TPair(x, y) =>
      var a := Read(ba, x);
      var b := Read(ba, y);
      v := VPair(a, b);
    case TTuple(ts) =>
      var vs := ReadTuple(ba, ts);
      v := VTuple(vs);
    case TColl(kind, e) =>
      v := ReadColl(ba, kind, e);
  }

  method ReadTuple(ba: ByteArray, ts: seq<Ty>) returns (vs: seq<Value>)
    requires ba.Valid() && DeserializeAll(ts, ba.Readable()).Some?
    modifies ba
    ensures ba.Valid() && ba.Contents() == old(ba.Contents())
    ensures Parsed(vs, ba.Readable()) == DeserializeAll(ts, old(ba.Readable())).value
    decreases ts, 0
  {
    hide ByteArray.Valid, ByteArray.Contents, Deserialize;
    vs := [];
    if ts != [] {
      var n := |ts| - 1;
      vs := ReadTuple(ba, ts[..n]);
      var last := Read(ba, ts[n]);
      vs := vs + [last];
    }
  }

  method ReadColl(ba: ByteArray, kind: Kind, e: Ty) returns (c: Value)
    requires ba.Valid() && Deserialize(TColl(kind, e), ba.Readable()).Some?
    modifies ba
    ensures ba.Valid() && ba.Contents() == old(ba.Contents())
    ensures Parsed(c, ba.Readable()) == Deserialize(TColl(kind, e), old(ba.Readable())).value
    decreases e, 2
  {
    hide ByteArray.Valid, ByteArray.Contents, Varint.DecodeVarint, DecodeScalar, DecodeString;
    ghost var all := Deserialize(TColl(kind, e), ba.Readable());
    var size := ReadVarint(ba, W64);
    c := Empty(kind);
    var i := 0;
    while i < size
      invariant 0 <= i <= size
      invariant ba.Valid() && ba.Contents() == old(ba.Contents())
      invariant DeserializeInto(c, e, size - i, ba.Readable()) == all
    {
      var t := Read(ba, e);
      c := Insert(c, t);
      i := i + 1;
    }
  }
}
