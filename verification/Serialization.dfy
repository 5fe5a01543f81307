/** Serializer: what a value of a (nested) C++ type is written as, and what reading those bytes gives. */
module Serialization {
  import opened Basics
  import opened Bytes
  import opened Varint
  import opened Codec

  // ---- types and values ---------------------------------------------------------------------

  datatype Scalar =
    Bool | Float | Double | Int8 | UInt8 | Int16 | UInt16 | Int32 | UInt32 | Int64 | UInt64

  /** List stands for std::list and std::vector; Set, MultiSet and Map for the ordered and the
      unordered container; the two multimaps differ in what they say about equal keys. */
  datatype Kind = List | Set | MultiSet | Map | MultiMap | UnorderedMultiMap {
    predicate Keyed() { Map? || MultiMap? || UnorderedMultiMap? }
  }

  datatype Ty =
    | TScalar(t: Scalar)
    | TString
    | TPair(first: Ty, second: Ty)
    | TTuple(ts: seq<Ty>)
    | TColl(kind: Kind, elem: Ty)

  /** A C++ value in memory: containers in the order their iterator visits the elements.
      Floating-point numbers are their bit patterns. */
  datatype Data =
    | Number(t: Scalar, n: int)
    | Text(s: seq<byte>)
    | Pair(first: Data, second: Data)
    | Tuple(ds: seq<Data>)
    | Coll(kind: Kind, ds: seq<Data>)

  /** What such a value means: order forgotten wherever the container forgets it. */
  datatype Value =
    | VNumber(n: int)
    | VText(text: seq<byte>)
    | VPair(first: Value, second: Value)
    | VTuple(vs: seq<Value>)
    | VList(vs: seq<Value>)
    | VSet(elements: set<Value>)
    | VMultiSet(ms: multiset<Value>)
    | VMap(entries: map<Value, Value>)
    | VMultiMap(lists: map<Value, seq<Value>>)
    | VUnorderedMultiMap(ms: multiset<Value>)

  predicate InRange(t: Scalar, n: int) {
    match t
    case Bool => 0 <= n <= 1
    case Float => 0 <= n < U32
    case Double => 0 <= n < U64
    case Int8 => -U8 <= 2 * n < U8
    case UInt8 => 0 <= n < U8
    case Int16 => -U16 <= 2 * n < U16
    case UInt16 => 0 <= n < U16
    case Int32 => Signed(n, W32)
    case UInt32 => 0 <= n < U32
    case Int64 => Signed(n, W64)
    case UInt64 => 0 <= n < U64
  }

  predicate HasType(d: Data, ty: Ty)
    decreases d
  {
    match (d, ty)
    case (Number(t, n), TScalar(t')) => t == t' && InRange(t, n)
    case (Text(s), TString) => |s| < U64
    case (Pair(a, b), TPair(x, y)) => HasType(a, x) && HasType(b, y)
    case (Tuple(ds), TTuple(ts)) =>
      |ds| == |ts| > 0 && forall i | 0 <= i < |ds| :: HasType(ds[i], ts[i])
    case (Coll(kind, ds), TColl(kind', e)) =>
      kind == kind' && |ds| < U64 && (kind.Keyed() ==> e.TPair?)
      && forall i | 0 <= i < |ds| :: HasType(ds[i], e)
    case _ => false
  }

  // ---- containers ---------------------------------------------------------------------------

  function Empty(kind: Kind): Value {
    match kind
    case List => VList([])
    case Set => VSet({})
    case MultiSet => VMultiSet(multiset{})
    case Map => VMap(map[])
    case MultiMap => VMultiMap(map[])
    case UnorderedMultiMap => VUnorderedMultiMap(multiset{})
  }

  /** emplace / emplace_back of one element that was read. */
  function Insert(c: Value, v: Value): Value {
    match c
    case VList(vs) => VList(vs + [v])
    case VSet(s) => VSet(s + {v})
    case VMultiSet(ms) => VMultiSet(ms + multiset{v})
    case VMap(m) => if v.VPair? && v.first !in m then VMap(m[v.first := v.second]) else c
    case VMultiMap(mm) => if v.VPair? then VMultiMap(mm[v.first := Under(mm, v.first) + [v.second]]) else c
    case VUnorderedMultiMap(ms) => VUnorderedMultiMap(ms + multiset{v})
    case _ => c
  }

  function Under(mm: map<Value, seq<Value>>, k: Value): seq<Value> {
    if k in mm then mm[k] else []
  }

  /** The target after reading vs into an empty container. */
  function Build(kind: Kind, vs: seq<Value>): Value {
    if vs == [] then Empty(kind) else Insert(Build(kind, vs[..|vs| - 1]), vs[|vs| - 1])
  }

  /** The values stored under key k, in sequence order. */
  function Select(vs: seq<Value>, k: Value): seq<Value> {
    if vs == [] then []
    else
      var v, before := vs[|vs| - 1], Select(vs[..|vs| - 1], k);
      if v.VPair? && v.first == k then before + [v.second] else before
  }

  /** vs lists the contents of container c in an order c allows. */
  ghost predicate Enumerates(c: Value, kind: Kind, vs: seq<Value>) {
    match (kind, c)
    case (List, VList(l)) => l == vs
    case (Set, VSet(s)) => (forall i, j | 0 <= i < j < |vs| :: vs[i] != vs[j]) && forall v :: v in s <==> v in vs
    case (MultiSet, VMultiSet(ms)) => multiset(vs) == ms
    case (Map, VMap(m)) =>
      && (forall i | 0 <= i < |vs| :: vs[i].VPair? && vs[i].first in m && m[vs[i].first] == vs[i].second)
      && (forall i, j | 0 <= i < j < |vs| :: vs[i] != vs[j])
      && (forall k | k in m :: VPair(k, m[k]) in vs)
    case (MultiMap, VMultiMap(mm)) =>
      && (forall i | 0 <= i < |vs| :: vs[i].VPair? && vs[i].first in mm)
      && (forall k | k in mm :: mm[k] == Select(vs, k) && mm[k] != [])
    case (UnorderedMultiMap, VUnorderedMultiMap(ms)) => multiset(vs) == ms && forall v | v in vs :: v.VPair?
    case _ => false
  }

  ghost predicate Pairs(vs: seq<Value>) {
    forall i | 0 <= i < |vs| :: vs[i].VPair?
  }

  lemma BuildNone(kind: Kind)
    ensures Build(kind, []) == Empty(kind)
  {
  }

  lemma BuildLast(kind: Kind, vs: seq<Value>)
    requires vs != []
    ensures Build(kind, vs) == Insert(Build(kind, vs[..|vs| - 1]), vs[|vs| - 1])
  {
  }

  lemma {:induction false} BuildList(vs: seq<Value>)
    ensures Build(List, vs) == VList(vs)
  {
    hide Build;
    if vs == [] {
      BuildNone(List);
    } else {
      var before, last := vs[..|vs| - 1], vs[|vs| - 1];
      BuildList(before);
      BuildLast(List, vs);
      assert vs == before + [last];
    }
  }

  lemma {:induction false} BuildSet(vs: seq<Value>)
    ensures Build(Set, vs) == VSet(set v | v in vs)
  {
    hide Build;
    if vs == [] {
      BuildNone(Set);
    } else {
      var before, last := vs[..|vs| - 1], vs[|vs| - 1];
      BuildSet(before);
      BuildLast(Set, vs);
      assert vs == before + [last];
      assert (set v | v in vs) == (set v | v in before) + {last};
    }
  }

  lemma {:induction false} BuildMultiSet(vs: seq<Value>)
    ensures Build(MultiSet, vs) == VMultiSet(multiset(vs))
    ensures Build(UnorderedMultiMap, vs) == VUnorderedMultiMap(multiset(vs))
  {
    hide Build;
    if vs == [] {
      BuildNone(MultiSet);
      BuildNone(UnorderedMultiMap);
      assert multiset(vs) == multiset{};
    } else {
      var before, last := vs[..|vs| - 1], vs[|vs| - 1];
      BuildMultiSet(before);
      BuildLast(MultiSet, vs);
      BuildLast(UnorderedMultiMap, vs);
      assert vs == before + [last];
      assert multiset(vs) == multiset(before) + multiset{last};
    }
  }

  /** A key is present exactly when some pair carries it; a multimap keeps all its values in order,
      a map the first one. */
  lemma {:induction false} BuildKeyed(kind: Kind, vs: seq<Value>, k: Value)
    requires Pairs(vs)
    ensures kind == MultiMap ==>
              var c := Build(kind, vs);
              c.VMultiMap? && Under(c.lists, k) == Select(vs, k) && (k in c.lists <==> Select(vs, k) != [])
    ensures kind == Map ==>
              var c := Build(kind, vs);
              c.VMap? && (k in c.entries <==> Select(vs, k) != []) && (k in c.entries ==> c.entries[k] == Select(vs, k)[0])
  {
    if vs != [] {
      BuildKeyed(kind, vs[..|vs| - 1], k);
      BuildKeyed(kind, vs[..|vs| - 1], vs[|vs| - 1].first);
    }
  }

  lemma {:induction false} SelectFrom(vs: seq<Value>, k: Value)
    requires Pairs(vs)
    ensures Select(vs, k) != [] ==> exists i :: 0 <= i < |vs| && vs[i] == VPair(k, Select(vs, k)[0])
    ensures forall i | 0 <= i < |vs| && vs[i].first == k :: Select(vs, k) != []
  {
    if vs != [] {
      var before := vs[..|vs| - 1];
      SelectFrom(before, k);
      if Select(before, k) != [] {
        var i :| 0 <= i < |before| && before[i] == VPair(k, Select(before, k)[0]);
        assert vs[i] == before[i];
      } else if Select(vs, k) != [] {
        assert vs[|vs| - 1] == VPair(k, Select(vs, k)[0]);
      }
      forall i | 0 <= i < |vs| && vs[i].first == k ensures Select(vs, k) != [] {
        if i < |before| { assert before[i] == vs[i]; }
      }
    }
  }

  /** Whatever order the iterator takes, inserting the elements into an empty container rebuilds it. */
  lemma BuildEnumeration(c: Value, kind: Kind, vs: seq<Value>)
    requires Enumerates(c, kind, vs)
    ensures Build(kind, vs) == c
  {
    match kind {
      case List => BuildList(vs);
      case Set => BuildSet(vs);
        assert (set v | v in vs) == c.elements;
      case MultiSet => BuildMultiSet(vs);
      case UnorderedMultiMap => BuildMultiSet(vs);
      case _ => BuildMapping(c, kind, vs);
    }
  }

  lemma BuildMapping(c: Value, kind: Kind, vs: seq<Value>)
    requires Enumerates(c, kind, vs) && (kind == Map || kind == MultiMap)
    ensures Build(kind, vs) == c
  {
    var b := Build(kind, vs);
    BuildKeyed(kind, vs, VNumber(0));
    forall k: Value
      ensures kind == Map ==> (k in b.entries <==> k in c.entries) && (k in b.entries ==> b.entries[k] == c.entries[k])
      ensures kind == MultiMap ==> (k in b.lists <==> k in c.lists) && (k in b.lists ==> b.lists[k] == c.lists[k])
    {
      BuildKeyed(kind, vs, k);
      SelectFrom(vs, k);
      if kind == Map && k in c.entries {
        var i :| 0 <= i < |vs| && vs[i] == VPair(k, c.entries[k]);
      }
    }
    assert kind == Map ==> b.entries == c.entries;
    assert kind == MultiMap ==> b.lists == c.lists;
  }

  // ---- bytes --------------------------------------------------------------------------------

  /** Serializer::write on a scalar: short integers and floats raw, 32- and 64-bit integers as varints. */
  function EncodeScalar(t: Scalar, n: int): seq<byte>
    requires InRange(t, n)
  {
    RangeValues();
    match t
    case Bool => LittleEndian(n, 1)
    case Float => LittleEndian(n, 4)
    case Double => LittleEndian(n, 8)
    case Int8 => LittleEndian(ToUnsigned(n, 1), 1)
    case UInt8 => LittleEndian(n, 1)
    case Int16 => LittleEndian(ToUnsigned(n, 2), 2)
    case UInt16 => LittleEndian(n, 2)
    case Int32 => EncodeVarint(EncodeZigzag(n, W32))
    case UInt32 => EncodeVarint(n)
    case Int64 => EncodeVarint(EncodeZigzag(n, W64))
    case UInt64 => EncodeVarint(n)
  }

  /** How a scalar lies on the wire. */
  datatype Form = Raw(size: nat) | Var(w: Word)

  function FormOf(t: Scalar): Form {
    match t
    case Bool => Raw(1)
    case Float => Raw(4)
    case Double => Raw(8)
    case Int8 => Raw(1)
    case UInt8 => Raw(1)
    case Int16 => Raw(2)
    case UInt16 => Raw(2)
    case Int32 => Var(W32)
    case UInt32 => Var(W32)
    case Int64 => Var(W64)
    case UInt64 => Var(W64)
  }

  /** The number a scalar type makes of the unsigned word read for it. */
  function Interpret(t: Scalar, u: nat): (n: int)
    requires FormOf(t).Raw? ==> u < Range(FormOf(t).size)
    requires FormOf(t).Var? ==> u < FormOf(t).w.Limit()
  {
    match t
    case Bool => if u != 0 then 1 else 0
    case Int8 => ToSigned(u, 1)
    case Int16 => ToSigned(u, 2)
    case Int32 => DecodeZigzag(u, W32)
    case Int64 => DecodeZigzag(u, W64)
    case _ => u
  }

  function DecodeScalar(t: Scalar, bytes: seq<byte>): Option<Parsed<int>> {
    match FormOf(t)
    case Raw(size) =>
      if size <= |bytes| then Some(Parsed(Interpret(t, FromLittleEndian(bytes[..size])), bytes[size..])) else None
    case Var(w) =>
      match DecodeVarint(w, bytes)
      case None => None
      case Some(d) => MinimalLength(w, bytes); Some(Parsed(Interpret(t, d.value), bytes[d.used..]))
  }

  lemma ScalarRoundTrip(t: Scalar, n: int, rest: seq<byte>)
    requires InRange(t, n)
    ensures DecodeScalar(t, EncodeScalar(t, n) + rest) == Some(Parsed(n, rest))
  {
    hide LittleEndian, FromLittleEndian, EncodeVarint, DecodeVarint, EncodeZigzag, DecodeZigzag, Range;
    RangeValues();
    var bytes := EncodeScalar(t, n) + rest;
    match FormOf(t)
    case Raw(size) =>
      var u := if n < 0 then ToUnsigned(n, size) else n;
      LittleEndianRoundTrip(u, size);
      assert bytes[..size] == LittleEndian(u, size);
      assert bytes[size..] == rest;
    case Var(w) =>
      var u := if t == Int32 || t == Int64 then EncodeZigzag(n, w) else n;
      VarintRoundTrip(u, w, rest);
      if t == Int32 || t == Int64 { ZigzagBijection(n, 0, w); }
      assert bytes[|EncodeVarint(u)|..] == rest;
  }

  /** The bytes of each scalar type: raw two's complement, least significant byte first, for the short ones and
      the floating-point bit patterns; base 128 for the long ones, signed ones folded by magnitude first. */
  lemma ScalarWire(t: Scalar, n: int)
    requires InRange(t, n)
    ensures t in {Bool, Int8, UInt8} ==> EncodeScalar(t, n) == [n % 256]
    ensures t in {Int16, UInt16} ==> EncodeScalar(t, n) == [n % 256, n / 256 % 256]
    ensures t == Float ==> |EncodeScalar(t, n)| == 4 && forall k | 0 <= k < 4 :: EncodeScalar(t, n)[k] == n / Range(k) % 256
    ensures t == Double ==> |EncodeScalar(t, n)| == 8 && forall k | 0 <= k < 8 :: EncodeScalar(t, n)[k] == n / Range(k) % 256
    ensures t in {UInt32, UInt64} ==> EncodeScalar(t, n) == EncodeVarint(n)
    ensures t in {Int32, Int64} ==> EncodeScalar(t, n) == EncodeVarint(if n < 0 then -2 * n - 1 else 2 * n)
  {
    hide EncodeVarint, LittleEndian;
    RangeValues();
    match t
    case Float => forall k | 0 <= k < 4 ensures EncodeScalar(t, n)[k] == n / Range(k) % 256 { LittleEndianByte(n, 4, k); }
    case Double => forall k | 0 <= k < 8 ensures EncodeScalar(t, n)[k] == n / Range(k) % 256 { LittleEndianByte(n, 8, k); }
    case Int32 => ZigzagMagnitude(n, W32);
    case Int64 => ZigzagMagnitude(n, W64);
    case UInt32 =>
    case UInt64 =>
    case Int16 => TwoBytes(n);
    case UInt16 => TwoBytes(n);
    case _ => TwoBytes(n);
  }

  /** The low bytes of a number, whatever its sign and the word it was cut to. */
  lemma TwoBytes(n: int)
    requires -0x8000 <= n < 0x1_0000
    ensures var u := if n >= 0 then n else n + 0x1_0000; LittleEndian(u, 2) == [n % 256, n / 256 % 256]
    ensures -0x80 <= n < 0x100 ==> var u := if n >= 0 then n else n + 0x100; LittleEndian(u, 1) == [n % 256]
  {
    var u := if n >= 0 then n else n + 0x1_0000;
    assert LittleEndian(u / 256, 1) == [u / 256 % 256] + LittleEndian(u / 256 / 256, 0);
    if -0x80 <= n < 0x100 {
      var x := if n >= 0 then n else n + 0x100;
      assert LittleEndian(x, 1) == [x % 256] + LittleEndian(x / 256, 0);
    }
  }

  function Repeat(n: nat, e: Ty): seq<Ty> { seq(n, _ => e) }

  predicate AllTyped(ds: seq<Data>, ts: seq<Ty>) {
    |ds| == |ts| && forall i | 0 <= i < |ds| :: HasType(ds[i], ts[i])
  }

  /** operator<< : a container is its size followed by its elements, a tuple or pair just its parts. */
  function Serialize(d: Data, ty: Ty): seq<byte>
    requires HasType(d, ty)
    decreases d, 1
  {
    match (d, ty)
    case (Number(t, n), _) => EncodeScalar(t, n)
    case (Text(s), _) => EncodeString(s)
    case (Pair(a, b), TPair(x, y)) => Serialize(a, x) + Serialize(b, y)
    case (Tuple(ds), TTuple(ts)) => SerializeAll(ds, ts)
    case (Coll(_, ds), TColl(_, e)) => EncodeVarint(|ds|) + SerializeAll(ds, Repeat(|ds|, e))
  }

  function SerializeAll(ds: seq<Data>, ts: seq<Ty>): seq<byte>
    requires AllTyped(ds, ts)
    decreases ds, 0
  {
    if ds == [] then []
    else SerializeAll(ds[..|ds| - 1], ts[..|ts| - 1]) + Serialize(ds[|ds| - 1], ts[|ts| - 1])
  }

  function Denote(d: Data): Value
    decreases d, 1
  {
    match d
    case Number(_, n) => VNumber(n)
    case Text(s) => VText(s)
    case Pair(a, b) => VPair(Denote(a), Denote(b))
    case Tuple(ds) => VTuple(DenoteAll(ds))
    case Coll(kind, ds) => Build(kind, DenoteAll(ds))
  }

  function DenoteAll(ds: seq<Data>): (vs: seq<Value>)
    ensures |vs| == |ds|
    decreases ds, 0
  {
    seq(|ds|, i requires 0 <= i < |ds| => Denote(ds[i]))
  }

  /** operator>> into an empty target, directed by the static type. None: the bytes ran out. */
  function Deserialize(ty: Ty, bytes: seq<byte>): Option<Parsed<Value>>
    decreases ty, 0
  {
    match ty
    case TScalar(t) =>
      (match DecodeScalar(t, bytes)
       case None => None
       case Some(p) => Some(Parsed(VNumber(p.value), p.rest)))
    case TString =>
      (match DecodeString(bytes)
       case None => None
       case Some(p) => Some(Parsed(VText(p.value), p.rest)))
    case TPair(x, y) =>
      (match Deserialize(x, bytes)
       case None => None
       case Some(a) =>
         match Deserialize(y, a.rest)
         case None => None
         case Some(b) => Some(Parsed(VPair(a.value, b.value), b.rest)))
    case TTuple(ts) =>
      (match DeserializeAll(ts, bytes)
       case None => None
       case Some(p) => Some(Parsed(VTuple(p.value), p.rest)))
    case TColl(kind, e) =>
      (match DecodeVarint(W64, bytes)
       case None => None
       case Some(d) => DeserializeInto(Empty(kind), e, d.value, bytes[d.used..]))
  }

  /** tuple_deserialize: the first N-1 parts, then the last. */
  function DeserializeAll(ts: seq<Ty>, bytes: seq<byte>): (r: Option<Parsed<seq<Value>>>)
    decreases ts, 0
  {
    if ts == [] then Some(Parsed([], bytes))
    else
      match DeserializeAll(ts[..|ts| - 1], bytes)
      case None => None
      case Some(p) =>
        match Deserialize(ts[|ts| - 1], p.rest)
        case None => None
        case Some(q) => Some(Parsed(p.value + [q.value], q.rest))
  }

  /** The reading loop of a container with n elements to go. */
  function DeserializeInto(c: Value, e: Ty, n: nat, bytes: seq<byte>): Option<Parsed<Value>>
    decreases e, n + 1
  {
    if n == 0 then Some(Parsed(c, bytes))
    else
      match Deserialize(e, bytes)
      case None => None
      case Some(p) => DeserializeInto(Insert(c, p.value), e, n - 1, p.rest)
  }

  // ---- round trip ---------------------------------------------------------------------------

  lemma {:induction false} SerializeAllHead(ds: seq<Data>, ts: seq<Ty>)
    requires AllTyped(ds, ts) && ds != []
    ensures SerializeAll(ds, ts) == Serialize(ds[0], ts[0]) + SerializeAll(ds[1..], ts[1..])
    decreases |ds|
  {
    var n := |ds| - 1;
    if n > 0 {
      SerializeAllHead(ds[..n], ts[..n]);
      assert ds[..n][1..] == ds[1..][..n - 1] && ts[..n][1..] == ts[1..][..n - 1];
      assert ds[1..][n - 1] == ds[n] && ts[1..][n - 1] == ts[n];
    } else {
      assert SerializeAll(ds[..0], ts[..0]) == [];
      assert SerializeAll(ds[1..], ts[1..]) == [];
    }
  }

  /** What lies before and behind element k, with and without the last element. */
  lemma Cut<T>(s: seq<T>, k: nat)
    requires k < |s| - 1
    ensures var n := |s| - 1;
            s[..n][..k] == s[..k] && s[..n][k + 1..] == s[k + 1..][..n - k - 1] && s[k + 1..][n - k - 1] == s[n]
  {
  }

  /** Part k lies behind the parts before it and ahead of those after it. */
  lemma {:induction false} WireOrder(ds: seq<Data>, ts: seq<Ty>, k: nat)
    requires AllTyped(ds, ts) && k < |ds|
    ensures SerializeAll(ds, ts)
         == SerializeAll(ds[..k], ts[..k]) + Serialize(ds[k], ts[k]) + SerializeAll(ds[k + 1..], ts[k + 1..])
    decreases |ds|
  {
    hide HasType, Serialize, SerializeAll;
    var n := |ds| - 1;
    if k < n {
      WireOrder(ds[..n], ts[..n], k);
      Cut(ds, k);
      Cut(ts, k);
      LastPart(ds[k + 1..], ts[k + 1..]);
      LastPart(ds, ts);
    } else {
      LastPart(ds, ts);
      NoParts(ds[k + 1..], ts[k + 1..]);
    }
  }

  lemma LastPart(ds: seq<Data>, ts: seq<Ty>)
    requires AllTyped(ds, ts) && ds != []
    ensures var n := |ds| - 1; SerializeAll(ds, ts) == SerializeAll(ds[..n], ts[..n]) + Serialize(ds[n], ts[n])
  {
    hide HasType, Serialize;
  }

  lemma NoParts(ds: seq<Data>, ts: seq<Ty>)
    requires AllTyped(ds, ts) && ds == []
    ensures SerializeAll(ds, ts) == []
  {
  }

  lemma OnePart(a: Data, x: Ty)
    requires HasType(a, x)
    ensures AllTyped([a], [x]) && SerializeAll([a], [x]) == Serialize(a, x)
  {
    hide HasType, Serialize;
    assert [a][..0] == [] && [x][..0] == [];
    assert SerializeAll([], []) == [];
  }

  lemma TwoParts(a: Data, x: Ty, b: Data, y: Ty)
    requires HasType(a, x) && HasType(b, y)
    ensures AllTyped([a, b], [x, y]) && SerializeAll([a, b], [x, y]) == Serialize(a, x) + Serialize(b, y)
  {
    hide HasType, Serialize;
    OnePart(a, x);
    assert [a, b][..1] == [a] && [x, y][..1] == [x];
  }

  /** A pair lies on the wire as the tuple of its parts, a container as its size followed by the tuple of its
      elements, a string as its length followed by its bytes. */
  lemma WireForm(d: Data, ty: Ty)
    requires HasType(d, ty)
    ensures d.Pair? ==> var ds, ts := [d.first, d.second], [ty.first, ty.second];
                        AllTyped(ds, ts) && Serialize(d, ty) == SerializeAll(ds, ts)
    ensures d.Tuple? ==> AllTyped(d.ds, ty.ts) && Serialize(d, ty) == SerializeAll(d.ds, ty.ts)
    ensures d.Coll? ==> Serialize(d, ty) == EncodeVarint(|d.ds|) + SerializeAll(d.ds, Repeat(|d.ds|, ty.elem))
    ensures d.Text? ==> Serialize(d, ty) == EncodeVarint(|d.s|) + d.s
  {
    hide SerializeAll, EncodeVarint;
    if d.Pair? {
      TwoParts(d.first, ty.first, d.second, ty.second);
    }
  }

  /** Reading what was written gives the same value and leaves exactly what followed it. */
  lemma {:induction false} RoundTrip(d: Data, ty: Ty, rest: seq<byte>)
    requires HasType(d, ty)
    ensures Deserialize(ty, Serialize(d, ty) + rest) == Some(Parsed(Denote(d), rest))
    decreases d, 2
  {
    hide EncodeScalar, DecodeScalar, EncodeString, DecodeString, Varint.EncodeVarint, Varint.DecodeVarint, Insert, Build, InRange;
    match (d, ty)
    case (Number(t, n), _) => ScalarRoundTrip(t, n, rest);
    case (Text(s), _) => StringRoundTrip(s, rest);
    case (Pair(a, b), TPair(x, y)) =>
      RoundTrip(a, x, Serialize(b, y) + rest);
      RoundTrip(b, y, rest);
      assert Serialize(d, ty) + rest == Serialize(a, x) + (Serialize(b, y) + rest);
    case (Tuple(ds), TTuple(ts)) => RoundTripAll(ds, ts, rest);
    case (Coll(_, _), TColl(_, _)) => RoundTripColl(d, ty, rest);
  }

  lemma {:induction false} RoundTripColl(d: Data, ty: Ty, rest: seq<byte>)
    requires HasType(d, ty) && d.Coll?
    ensures Deserialize(ty, Serialize(d, ty) + rest) == Some(Parsed(Denote(d), rest))
    decreases d, 1
  {
    hide EncodeScalar, DecodeScalar, EncodeString, DecodeString, Varint.EncodeVarint, Varint.DecodeVarint, InRange;
    var ds, e := d.ds, ty.elem;
    var size, body := EncodeVarint(|ds|), SerializeAll(ds, Repeat(|ds|, e));
    VarintRoundTrip(|ds|, W64, body + rest);
    assert Serialize(d, ty) + rest == size + (body + rest);
    assert (size + (body + rest))[|size|..] == body + rest;
    RoundTripInto(d.kind, [], ds, e, rest);
    assert [] + DenoteAll(ds) == DenoteAll(ds);
  }

  lemma {:induction false} RoundTripAll(ds: seq<Data>, ts: seq<Ty>, rest: seq<byte>)
    requires AllTyped(ds, ts)
    ensures DeserializeAll(ts, SerializeAll(ds, ts) + rest) == Some(Parsed(DenoteAll(ds), rest))
    decreases ds, 0
  {
    hide EncodeScalar, DecodeScalar, EncodeString, DecodeString, Varint.EncodeVarint, Varint.DecodeVarint, Insert, Build, InRange;
    if ds == [] {
      assert SerializeAll(ds, ts) + rest == rest;
    } else {
      var n := |ds| - 1;
      var last := Serialize(ds[n], ts[n]);
      RoundTripAll(ds[..n], ts[..n], last + rest);
      RoundTrip(ds[n], ts[n], rest);
      assert SerializeAll(ds, ts) + rest == SerializeAll(ds[..n], ts[..n]) + (last + rest);
      assert DenoteAll(ds) == DenoteAll(ds[..n]) + [Denote(ds[n])];
    }
  }

  lemma BuildSnoc(kind: Kind, done: seq<Value>, v: Value)
    ensures Build(kind, done + [v]) == Insert(Build(kind, done), v)
  {
    assert (done + [v])[..|done|] == done;
  }

  /** The first element of a container's bytes, and what follows it. */
  lemma FirstElement(ds: seq<Data>, e: Ty, rest: seq<byte>)
    requires ds != [] && AllTyped(ds, Repeat(|ds|, e))
    ensures AllTyped(ds[1..], Repeat(|ds[1..]|, e)) && HasType(ds[0], e)
    ensures SerializeAll(ds, Repeat(|ds|, e)) + rest
         == Serialize(ds[0], e) + (SerializeAll(ds[1..], Repeat(|ds[1..]|, e)) + rest)
  {
    hide SerializeAll, Serialize, HasType;
    SerializeAllHead(ds, Repeat(|ds|, e));
    assert Repeat(|ds|, e)[1..] == Repeat(|ds[1..]|, e);
  }

  lemma DenoteFirst(done: seq<Value>, ds: seq<Data>)
    requires ds != []
    ensures done + [Denote(ds[0])] + DenoteAll(ds[1..]) == done + DenoteAll(ds)
  {
    hide Denote;
  }

  lemma {:induction false} RoundTripInto(kind: Kind, done: seq<Value>, ds: seq<Data>, e: Ty, rest: seq<byte>)
    requires AllTyped(ds, Repeat(|ds|, e))
    ensures DeserializeInto(Build(kind, done), e, |ds|, SerializeAll(ds, Repeat(|ds|, e)) + rest)
         == Some(Parsed(Build(kind, done + DenoteAll(ds)), rest))
    decreases ds, 0
  {
    hide Insert, Build, HasType, Serialize, Denote, Deserialize;
    if ds == [] {
      assert done + DenoteAll(ds) == done;
      assert SerializeAll(ds, Repeat(|ds|, e)) + rest == rest;
    } else {
      hide SerializeAll, DenoteAll;
      var tail := ds[1..];
      FirstElement(ds, e, rest);
      RoundTrip(ds[0], e, SerializeAll(tail, Repeat(|tail|, e)) + rest);
      BuildSnoc(kind, done, Denote(ds[0]));
      RoundTripInto(kind, done + [Denote(ds[0])], tail, e, rest);
      DenoteFirst(done, ds);
    }
  }

  /** d is value v in memory: at every level of nesting, the containers list their elements in an
      order they allow. */
  ghost predicate Represents(v: Value, d: Data)
    decreases d
  {
    match d
    case Number(_, n) => v == VNumber(n)
    case Text(s) => v == VText(s)
    case Pair(a, b) => v.VPair? && Represents(v.first, a) && Represents(v.second, b)
    case Tuple(ds) => v.VTuple? && |v.vs| == |ds| && forall i | 0 <= i < |ds| :: Represents(v.vs[i], ds[i])
    case Coll(kind, ds) =>
      exists vs: seq<Value> ::
        |vs| == |ds| && (forall i | 0 <= i < |ds| :: Represents(vs[i], ds[i])) && Enumerates(v, kind, vs)
  }

  lemma {:induction false} RepresentsDenote(v: Value, d: Data)
    requires Represents(v, d)
    ensures Denote(d) == v
    decreases d
  {
    match d
    case Number(_, _) =>
    case Text(_) =>
    case Pair(a, b) =>
      RepresentsDenote(v.first, a);
      RepresentsDenote(v.second, b);
    case Tuple(ds) =>
      forall i | 0 <= i < |ds| ensures Denote(ds[i]) == v.vs[i] { RepresentsDenote(v.vs[i], ds[i]); }
      assert DenoteAll(ds) == v.vs;
    case Coll(kind, ds) =>
      var vs: seq<Value> :|
        |vs| == |ds| && (forall i | 0 <= i < |ds| :: Represents(vs[i], ds[i])) && Enumerates(v, kind, vs);
      forall i | 0 <= i < |ds| ensures Denote(ds[i]) == vs[i] { RepresentsDenote(vs[i], ds[i]); }
      assert DenoteAll(ds) == vs;
      BuildEnumeration(v, kind, vs);
  }

  /** Any nested value comes back equal, whatever order the iterators of its containers take. */
  lemma AnyOrderRoundTrip(v: Value, d: Data, ty: Ty, rest: seq<byte>)
    requires HasType(d, ty) && Represents(v, d)
    ensures Deserialize(ty, Serialize(d, ty) + rest) == Some(Parsed(v, rest))
  {
    RepresentsDenote(v, d);
    RoundTrip(d, ty, rest);
  }
}
