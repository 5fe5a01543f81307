/** The typed reads and writes of ByteArray: fixed-width integers, varints and strings. */
module Codec {
  import opened Arithmetic
  import opened Basics
  import opened Bits
  import opened Bytes
  import opened Varint
  import opened FlatBuffer
  import opened ByteArrays

  /** writeF(u)intN, writeFloat, writeDouble: n raw little-endian bytes. */
  method WriteFixed(ba: ByteArray, v: nat, n: nat)
    requires ba.Valid() && v < Range(n)
    modifies ba, ba.list.Repr
    ensures ba.Valid() && fresh(ba.list.Repr - old(ba.list.Repr))
    ensures Written(old(ba.Contents()), old(ba.position), ba.Contents(), ba.position, LittleEndian(v, n))
  {
    ba.Write(LittleEndian(v, n));
  }

  /** readF(u)intN on a host whose byte order is the array's. */
  method ReadFixed(ba: ByteArray, n: nat) returns (v: nat)
    requires ba.Valid() && n <= |ba.Readable()|
    modifies ba
    ensures ba.Valid() && ba.Contents() == old(ba.Contents())
    ensures v == FromLittleEndian(old(ba.Readable())[..n]) && ba.Readable() == old(ba.Readable())[n..]
    ensures v < Range(n)
  {
    var raw := ba.Read(n);
    v := FromLittleEndian(raw);
  }

  /** writeUint32 / writeUint64: the loop fills a temporary array of 5 (10) bytes and never overruns it. */
  method WriteVarint(ba: ByteArray, w: Word, v: nat)
    requires ba.Valid() && v < w.Limit()
    modifies ba, ba.list.Repr
    ensures ba.Valid() && fresh(ba.list.Repr - old(ba.list.Repr))
    ensures Written(old(ba.Contents()), old(ba.position), ba.Contents(), ba.position, EncodeVarint(v))
  {
    var temp := Digits(w, v);
    ba.Write(temp);
  }

  /** One byte moved from what is to be encoded to what is. */
  lemma DigitStep(done: seq<byte>, value: nat, all: seq<byte>)
    requires done + EncodeVarint(value) == all && value >= 128
    ensures 0 <= value % 128 + 128 < 256
    ensures (done + [value % 128 + 128]) + EncodeVarint(value / 128) == all
    ensures |EncodeVarint(value)| == 1 + |EncodeVarint(value / 128)|
  {
    var last: seq<byte>, more := [value % 128 + 128], EncodeVarint(value / 128);
    assert EncodeVarint(value) == last + more;
    assert done + (last + more) == (done + last) + more;
  }

  lemma LastDigit(value: nat)
    requires value < 128
    ensures EncodeVarint(value) == [value]
  {
  }

  method Digits(w: Word, v: nat) returns (bytes: seq<byte>)
    requires v < w.Limit()
    ensures bytes == EncodeVarint(v)
  {
    hide EncodeVarint, DecodeGroups, And, Or;
    VarintRoundTrip(v, w, []);
    var temp := new byte[w.Room()];
    var i, value := 0, v;
    while value >= 0x80
      invariant 0 <= i && 0 <= value && i + |EncodeVarint(value)| <= w.Room()
      invariant temp[..i] + EncodeVarint(value) == EncodeVarint(v)
    {
      ghost var before := temp[..i];
      DigitStep(before, value, EncodeVarint(v));
      MarkedBits(value);
      temp[i] := Or(And(value, 0x7F), 0x80);
      assert temp[..i + 1] == before + [temp[i]];
      value := value / 128;
      i := i + 1;
    }
    LastDigit(value);
    temp[i] := value;
    bytes := temp[..i + 1];
  }

  /** 2^(7g). */
  function Scale(g: nat): (c: nat)
    ensures c >= 1
  {
    if g == 0 then 1 else 128 * Scale(g - 1)
  }

  lemma ScaleValues()
    ensures Scale(0) == 1 && Scale(1) == 128 && Scale(2) == 0x4000 && Scale(3) == 0x20_0000
    ensures Scale(4) == 0x1000_0000 && Scale(5) == 0x8_0000_0000 && Scale(6) == 0x400_0000_0000
    ensures Scale(7) == 0x2_0000_0000_0000 && Scale(8) == 0x100_0000_0000_0000 && Scale(9) == 0x8000_0000_0000_0000
  {
    assert Scale(2) == 128 * Scale(1);
    assert Scale(4) == 128 * Scale(3);
    assert Scale(6) == 128 * Scale(5);
    assert Scale(8) == 128 * Scale(7);
  }

  /** On the wire, byte k carries bits 7k to 7k + 6, and every byte but the last is marked. */
  lemma {:induction false} VarintByte(v: nat, k: nat)
    requires k < |EncodeVarint(v)|
    ensures EncodeVarint(v)[k] == v / Scale(k) % 128 + (if k < |EncodeVarint(v)| - 1 then 128 else 0)
  {
    if k > 0 {
      VarintByte(v / 128, k - 1);
      DivideTwice(v, 128, Scale(k - 1));
    } else {
      assert v / 1 == v;
    }
  }

  /** ((uint)x) << 7g. */
  function ShiftLeft(w: Word, x: nat, g: nat): nat
  {
    (x * Scale(g)) % w.Limit()
  }

  /** Shifting a seven-bit group into a word loses only the bits above the word. */
  lemma ShiftIntoWord(w: Word, g: nat, x: nat)
    requires g <= w.Full() && x < 128
    ensures ShiftLeft(w, x, g) == Scale(g) * (if g < w.Full() then x else x % w.Top())
  {
    ScaleValues();
    if w == W32 { ShiftIntoWord32(g, x); } else { ShiftIntoWord64(g, x); }
  }

  lemma ShiftIntoWord32(g: nat, x: nat)
    requires g <= 4 && x < 128
    ensures (x * Scale(g)) % U32 == Scale(g) * (if g < 4 then x else x % 16)
  {
    ScaleValues();
    if g < 4 {
      Shifted(g, x);
      SmallMod(x * Scale(g), U32);
    }
  }

  lemma ShiftIntoWord64(g: nat, x: nat)
    requires g <= 9 && x < 128
    ensures (x * Scale(g)) % U64 == Scale(g) * (if g < 9 then x else x % 2)
  {
    ScaleValues();
    if g < 9 {
      Shifted(g, x);
      SmallMod(x * Scale(g), U64);
    }
  }

  lemma Shifted(g: nat, x: nat)
    requires g < 9 && x < 128
    ensures 0 <= x * Scale(g) == Scale(g) * x < Scale(9)
    ensures g < 4 ==> x * Scale(g) < Scale(4)
  {
    ScaleValues();
    if g < 4 {
      if g == 0 {} else if g == 1 {} else if g == 2 {} else {}
    } else {
      if g == 4 {} else if g == 5 {} else if g == 6 {} else if g == 7 {} else {}
    }
  }

  lemma Regroup(g: nat, x: nat, more: nat)
    ensures Scale(g) * (x + 128 * more) == Scale(g) * x + Scale(g + 1) * more
  {
    var c := Scale(g);
    assert Scale(g + 1) == 128 * c;
    assert c * (x + 128 * more) == c * x + 128 * c * more;
  }

  /** One round of the reading loop, against what is still to be decoded. */
  lemma ReadStep(w: Word, g: nat, s: seq<byte>)
    requires g <= w.Full() && DecodeGroups(w.Full() - g, w.Top(), s).Some?
    ensures var r := DecodeGroups(w.Full() - g, w.Top(), s).value;
            var term := ShiftLeft(w, s[0] % 128, g);
            if s[0] < 128 || g == w.Full() then Scale(g) * r.value == term && r.used == 1
            else
              var more := DecodeGroups(w.Full() - g - 1, w.Top(), s[1..]);
              more.Some? && r.used == 1 + more.value.used
              && Scale(g) * r.value == term + Scale(g + 1) * more.value.value
  {
    hide Scale;
    var x: nat := s[0] % 128;
    ShiftIntoWord(w, g, x);
    if s[0] >= 128 && g < w.Full() {
      Regroup(g, x, DecodeGroups(w.Full() - g - 1, w.Top(), s[1..]).value.value);
    }
  }

  lemma Pow2Seven(n: nat)
    ensures Pow2(n + 7) == 128 * Pow2(n)
  {
    hide Pow2;
    Pow2Values();
    Pow2Sum(n, 7);
  }

  lemma {:induction false} ScaleBits(g: nat)
    ensures Scale(g) == Pow2(7 * g)
  {
    if g > 0 {
      ScaleBits(g - 1);
      Pow2Seven(7 * (g - 1));
    }
  }

  /** The bits of group g lie above the value of the groups before it, so or-ing them in adds them. */
  lemma OrGroup(w: Word, g: nat, value: nat, x: nat)
    requires g <= w.Full() && x < 128 && value < Scale(g)
    ensures Or(value, ShiftLeft(w, x, g)) == value + ShiftLeft(w, x, g) < Scale(g + 1)
  {
    hide Or;
    var kept := if g < w.Full() then x else x % w.Top();
    ShiftIntoWord(w, g, x);
    ScaleBits(g);
    OrDisjoint(value, kept, 7 * g);
    Below(Scale(g), 128, kept, value);
  }

  lemma NextByte(s: seq<byte>, g: nat)
    requires g < |s|
    ensures FromLittleEndian(s[g..][..1]) == s[g] && s[g..][1..] == s[g + 1..]
  {
    assert s[g..][..1] == [s[g]];
    assert FromLittleEndian([s[g]]) == s[g] + 256 * FromLittleEndian([]);
  }

  /** After g rounds `value` holds the first g groups of s, whose decoding is d. */
  ghost predicate Accumulated(w: Word, s: seq<byte>, d: Decoded, g: nat, value: nat) {
    && g <= w.Room() && g <= |s| && value < Scale(g)
    && (g == w.Room() ==> d == Decoded(value, g))
    && (g < w.Room() ==>
          var r := DecodeGroups(w.Full() - g, w.Top(), s[g..]);
          r.Some? && d.value == value + Scale(g) * r.value.value && d.used == g + r.value.used)
  }

  lemma Accumulate(w: Word, s: seq<byte>, d: Decoded, g: nat, value: nat)
    requires g < w.Room() && Accumulated(w, s, d, g, value)
    ensures g < |s|
    ensures s[g] < 128 ==> d == Decoded(Or(value, ShiftLeft(w, s[g], g)), g + 1)
    ensures s[g] >= 128 ==> Accumulated(w, s, d, g + 1, Or(value, ShiftLeft(w, And(s[g], 0x7F), g)))
  {
    hide DecodeGroups, Scale, Or, And, ShiftLeft;
    ReadStep(w, g, s[g..]);
    NextByte(s, g);
    MarkedBits(s[g]);
    OrGroup(w, g, value, s[g] % 128);
  }

  /** readUint32 / readUint64, on any bytes that do not run out. */
  method ReadVarint(ba: ByteArray, w: Word) returns (value: nat)
    requires ba.Valid() && DecodeVarint(w, ba.Readable()).Some?
    modifies ba
    ensures ba.Valid() && ba.Contents() == old(ba.Contents())
    ensures var d := DecodeVarint(w, old(ba.Readable())).value;
            value == d.value && ba.Readable() == old(ba.Readable())[d.used..]
  {
    hide DecodeGroups, ByteArray.Valid, Scale, Or, And, ShiftLeft;
    ghost var s := ba.Readable();
    ghost var d := DecodeVarint(w, s).value;
    assert s[0..] == s && Scale(0) == 1 by { ScaleValues(); }
    value := 0;
    var g := 0;   // the shift count i of the C++ loop is 7 * g
    while 7 * g < w.Bits()
      invariant 0 <= g && Accumulated(w, s, d, g, value)
      invariant ba.Valid() && ba.Contents() == old(ba.Contents()) && ba.Readable() == s[g..]
    {
      Accumulate(w, s, d, g, value);
      NextByte(s, g);
      var temp := ReadFixed(ba, 1);
      if temp < 0x80 {
        value := Or(value, ShiftLeft(w, temp, g));
        return;
      } else {
        value := Or(value, ShiftLeft(w, And(temp, 0x7F), g));
      }
      g := g + 1;
    }
  }

  // ---- strings ------------------------------------------------------------------------------

  /** writeStringVint: length as a 64-bit varint, then the bytes. */
  function EncodeString(s: seq<byte>): seq<byte> { EncodeVarint(|s|) + s }

  datatype Parsed<T> = Parsed(value: T, rest: seq<byte>)

  function DecodeString(bytes: seq<byte>): (r: Option<Parsed<seq<byte>>>)
    ensures r.Some? ==> |r.value.rest| < |bytes|
  {
    match DecodeVarint(W64, bytes)
    case None => None
    case Some(d) =>
      var rest := bytes[d.used..];
      if d.value <= |rest| then Some(Parsed(rest[..d.value], rest[d.value..])) else None
  }

  lemma StringRoundTrip(s: seq<byte>, rest: seq<byte>)
    requires |s| < U64
    ensures DecodeString(EncodeString(s) + rest) == Some(Parsed(s, rest))
  {
    var bytes := EncodeString(s) + rest;
    VarintRoundTrip(|s|, W64, s + rest);
    assert bytes == EncodeVarint(|s|) + (s + rest);
    assert bytes[|EncodeVarint(|s|)|..] == s + rest;
  }

  method WriteStringVint(ba: ByteArray, s: seq<byte>)
    requires ba.Valid() && |s| < U64
    modifies ba, ba.list.Repr
    ensures ba.Valid() && fresh(ba.list.Repr - old(ba.list.Repr))
    ensures Written(old(ba.Contents()), old(ba.position), ba.Contents(), ba.position, EncodeString(s))
  {
    hide Written, ByteArray.Valid, ByteArray.Contents;
    WriteVarint(ba, W64, |s|);
    ghost var c, p := ba.Contents(), ba.position;
    WriteRaw(ba, s);
    WrittenTwice(old(ba.Contents()), old(ba.position), c, p, ba.Contents(), ba.position, EncodeVarint(|s|), s);
  }

  method WriteRaw(ba: ByteArray, s: seq<byte>)
    requires ba.Valid()
    modifies ba, ba.list.Repr
    ensures ba.Valid() && fresh(ba.list.Repr - old(ba.list.Repr))
    ensures Written(old(ba.Contents()), old(ba.position), ba.Contents(), ba.position, s)
  {
    ba.Write(s);
  }

  method ReadStringVint(ba: ByteArray) returns (s: seq<byte>)
    requires ba.Valid() && DecodeString(ba.Readable()).Some?
    modifies ba
    ensures ba.Valid() && ba.Contents() == old(ba.Contents())
    ensures Parsed(s, ba.Readable()) == DecodeString(old(ba.Readable())).value
  {
    hide Varint.DecodeVarint, ByteArray.Valid, ByteArray.Contents;
    var len := ReadVarint(ba, W64);
    s := ba.Read(len);
  }
}
