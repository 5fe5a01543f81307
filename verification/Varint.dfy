/**
 Base-128 varints and zigzag (Protocol Buffers encoding specification, sections
 "Base 128 Varints" and "Signed Integers"; the unsigned form is ULEB128, section 7.6 of DWARF 5).

 The C++ code works with masks and shifts; the definitions here use `% 128`, `/ 128`, scaling by powers
 of 128 and explicit truncation to the word. MarkedBits, ZigzagEncodeBits and ZigzagDecodeBits state that
 these are the same.
 */
module Varint {
  import opened Basics
  import opened Bits
  import opened Bytes

  /** The two word sizes ByteArray has varints for. */
  datatype Word = W32 | W64 {
    function Limit(): (n: int) { if W32? then U32 else U64 }
    /** Seven-bit groups that fit the word completely ... */
    function Full(): nat { if W32? then 4 else 9 }
    /** ... and how many values the bits left for the last group have. */
    function Top(): nat { if W32? then 16 else 2 }
    function Bits(): nat { if W32? then 32 else 64 }
    /** Size of the writer's temporary array. */
    function Room(): nat { Full() + 1 }
  }

  /** Low seven bits first, every byte but the last marked with 0x80. */
  function EncodeVarint(v: nat): (s: seq<byte>)
    ensures |s| >= 1
  {
    if v < 128 then [v] else [v % 128 + 128] + EncodeVarint(v / 128)
  }

  datatype Decoded = Decoded(value: nat, used: nat)

  /**
   What the reading loop computes with `full` whole groups and one last group of `top` values
   still open: it stops at an unmarked byte or when the word is full, and drops the bits shifted
   out of the word. None: the bytes ran out.
   */
  function DecodeGroups(full: nat, top: nat, s: seq<byte>): (r: Option<Decoded>)
    requires 0 < top <= 128
    ensures r.Some? ==> 0 < r.value.used <= |s| && r.value.used <= full + 1
    decreases full
  {
    if s == [] then None
    else if full == 0 then Some(Decoded(s[0] % 128 % top, 1))
    else if s[0] < 128 then Some(Decoded(s[0], 1))
    else
      match DecodeGroups(full - 1, top, s[1..])
      case None => None
      case Some(d) => Some(Decoded(s[0] % 128 + 128 * d.value, d.used + 1))
  }

  function DecodeVarint(w: Word, s: seq<byte>): (r: Option<Decoded>)
    ensures r.Some? ==> 0 < r.value.used <= |s| && r.value.used <= w.Room()
  {
    DecodeGroups(w.Full(), w.Top(), s)
  }

  /** How many values the open groups can hold. */
  function Span(full: nat, top: nat): int {
    if full == 0 then top else 128 * Span(full - 1, top)
  }

  lemma SpanValues(w: Word)
    ensures Span(w.Full(), w.Top()) == w.Limit()
  {
    var top := w.Top();
    assert Span(2, top) == 128 * Span(1, top) == 128 * 128 * top;
    assert Span(4, top) == 128 * Span(3, top) == 128 * 128 * Span(2, top);
    assert Span(6, top) == 128 * Span(5, top) == 128 * 128 * Span(4, top);
    assert Span(8, top) == 128 * Span(7, top) == 128 * 128 * Span(6, top);
    assert Span(9, top) == 128 * Span(8, top);
  }

  lemma MarkedDigit(v: nat)
    ensures (v % 128 + 128) % 128 == v % 128
    ensures v == v % 128 + 128 * (v / 128)
  {
  }

  /** One reading step on an unmarked byte that fits. */
  lemma DecodeUnmarked(full: nat, top: nat, v: byte, rest: seq<byte>)
    requires 0 < top <= 128 && v < 128 && (full == 0 ==> v < top)
    ensures DecodeGroups(full, top, [v] + rest) == Some(Decoded(v, 1))
  {
    if full == 0 { SmallMod(v, top); }
  }

  lemma SmallMod(v: nat, m: nat)
    requires v < m
    ensures v % m == v
  {
  }

  /** One reading step on a marked byte. */
  lemma DecodeMarked(full: nat, top: nat, s: seq<byte>)
    requires 0 < top <= 128 && full > 0 && s != [] && s[0] >= 128
    requires DecodeGroups(full - 1, top, s[1..]).Some?
    ensures var d := DecodeGroups(full - 1, top, s[1..]).value;
            DecodeGroups(full, top, s) == Some(Decoded(s[0] % 128 + 128 * d.value, d.used + 1))
  {
  }

  lemma {:induction false} GroupsRoundTrip(v: nat, full: nat, top: nat, rest: seq<byte>)
    requires 0 < top <= 128 && v < Span(full, top)
    ensures |EncodeVarint(v)| <= full + 1
    ensures DecodeGroups(full, top, EncodeVarint(v) + rest) == Some(Decoded(v, |EncodeVarint(v)|))
    decreases full
  {
    var s := EncodeVarint(v) + rest;
    if v < 128 {
      DecodeUnmarked(full, top, v, rest);
    } else {
      GroupsRoundTrip(v / 128, full - 1, top, rest);
      assert s[0] == v % 128 + 128;
      assert s[1..] == EncodeVarint(v / 128) + rest;
      DecodeMarked(full, top, s);
      MarkedDigit(v);
    }
  }

  /** A value fits the temporary array; reading it back consumes exactly its bytes, whatever follows. */
  lemma VarintRoundTrip(v: nat, w: Word, rest: seq<byte>)
    requires v < w.Limit()
    ensures |EncodeVarint(v)| <= w.Room()
    ensures DecodeVarint(w, EncodeVarint(v) + rest) == Some(Decoded(v, |EncodeVarint(v)|))
  {
    SpanValues(w);
    GroupsRoundTrip(v, w.Full(), w.Top(), rest);
  }

  /** No encoding is a prefix of another. */
  lemma PrefixFree(u: nat, v: nat, w: Word, x: seq<byte>, y: seq<byte>)
    requires u < w.Limit() && v < w.Limit()
    requires EncodeVarint(u) + x == EncodeVarint(v) + y
    ensures u == v && x == y
  {
    VarintRoundTrip(u, w, x);
    VarintRoundTrip(v, w, y);
    var n := |EncodeVarint(u)|;
    assert x == (EncodeVarint(u) + x)[n..];
    assert y == (EncodeVarint(v) + y)[n..];
  }

  lemma {:induction false} GroupsMinimal(full: nat, top: nat, s: seq<byte>)
    requires 0 < top <= 128 && DecodeGroups(full, top, s).Some?
    ensures |EncodeVarint(DecodeGroups(full, top, s).value.value)| <= DecodeGroups(full, top, s).value.used
    ensures DecodeGroups(full, top, s).value.value < Span(full, top)
    decreases full
  {
    if full > 0 {
      assert Span(full, top) >= 128 by { SpanPositive(full - 1, top); }
      if s[0] >= 128 {
        GroupsMinimal(full - 1, top, s[1..]);
      }
    }
  }

  lemma {:induction false} SpanPositive(full: nat, top: nat)
    requires top > 0
    ensures Span(full, top) > 0
    decreases full
  {
    if full > 0 { SpanPositive(full - 1, top); }
  }

  /** Minimal length: no byte string the reader decodes to a value is shorter than the one written;
      and whatever the bytes, the result fits the word. */
  lemma MinimalLength(w: Word, s: seq<byte>)
    requires DecodeVarint(w, s).Some?
    ensures |EncodeVarint(DecodeVarint(w, s).value.value)| <= DecodeVarint(w, s).value.used
    ensures DecodeVarint(w, s).value.value < w.Limit()
  {
    SpanValues(w);
    GroupsMinimal(w.Full(), w.Top(), s);
  }

  // ---- zigzag -------------------------------------------------------------------------------

  predicate Signed(v: int, w: Word) { -w.Limit() <= 2 * v < w.Limit() }

  /** (uint)(v << 1) ^ (v >> (w-1)): the doubled bits, complemented when v is negative. */
  function EncodeZigzag(v: int, w: Word): (u: nat)
    requires Signed(v, w)
    ensures u < w.Limit()
  {
    var doubled := (2 * v) % w.Limit();
    if v < 0 then w.Limit() - 1 - doubled else doubled
  }

  /** (int)(u >> 1) ^ -(u & 1). */
  function DecodeZigzag(u: nat, w: Word): (v: int)
    requires u < w.Limit()
    ensures Signed(v, w)
  {
    if u % 2 == 0 then u / 2 else -1 - u / 2
  }

  /** Small magnitudes get small codes. */
  lemma ZigzagMagnitude(v: int, w: Word)
    requires Signed(v, w)
    ensures EncodeZigzag(v, w) == if v < 0 then -2 * v - 1 else 2 * v
  {
  }

  /** Zigzag is a bijection between the signed and the unsigned range of the word. */
  lemma ZigzagBijection(v: int, u: nat, w: Word)
    requires Signed(v, w) && u < w.Limit()
    ensures DecodeZigzag(EncodeZigzag(v, w), w) == v
    ensures EncodeZigzag(DecodeZigzag(u, w), w) == u
  {
    ZigzagMagnitude(v, w);
    ZigzagMagnitude(DecodeZigzag(u, w), w);
  }

  // ---- the masks and shifts of the C++ code -------------------------------------------------

  lemma WordBits(w: Word)
    ensures Pow2(w.Bits()) == w.Limit() && Pow2(w.Bits() - 1) == w.Limit() / 2
  {
    Pow2Values();
  }

  /** (value & 0x7F) | 0x80 and value >> 7. */
  lemma MarkedBits(v: nat)
    ensures Or(And(v, 0x7F), 0x80) == v % 128 + 128
    ensures And(v, 0x7F) == v % 128 && v / Pow2(7) == v / 128
  {
    Pow2Values();
    AndOnes(v, 7);
    OrDisjoint(v % 128, 1, 7);
  }

  /** (uint)(v << 1) ^ (v >> (bits - 1)), the second shift being arithmetic. */
  lemma ZigzagEncodeBits(v: int, w: Word)
    requires Signed(v, w)
    ensures EncodeZigzag(v, w) == Xor((2 * v) % w.Limit(), (v / Pow2(w.Bits() - 1)) % w.Limit())
  {
    hide Xor, Pow2;
    WordBits(w);
    SignBits(v, w);
    var doubled: nat := (2 * v) % w.Limit();
    XorOnes(doubled, w.Bits());
    XorZero(doubled);
  }

  /** The arithmetic shift fills the word with the sign. */
  lemma SignBits(v: int, w: Word)
    requires Signed(v, w)
    ensures (v / (w.Limit() / 2)) % w.Limit() == if v < 0 then w.Limit() - 1 else 0
  {
    if w == W32 { SignBits32(v); } else { SignBits64(v); }
  }

  lemma SignBits32(v: int)
    requires -0x8000_0000 <= v < 0x8000_0000
    ensures v / 0x8000_0000 == if v < 0 then -1 else 0
  {
  }

  lemma SignBits64(v: int)
    requires -0x8000_0000_0000_0000 <= v < 0x8000_0000_0000_0000
    ensures v / 0x8000_0000_0000_0000 == if v < 0 then -1 else 0
  {
  }

  /** (int)(u >> 1) ^ -(u & 1): the result as a word. */
  lemma ZigzagDecodeBits(u: nat, w: Word)
    requires u < w.Limit()
    ensures DecodeZigzag(u, w) % w.Limit() == Xor(u / 2, (0 - And(u, 1)) % w.Limit())
  {
    hide Xor, And, Pow2;
    WordBits(w);
    Pow2Values();
    AndOnes(u, 1);
    XorZero(u / 2);
    XorOnes(u / 2, w.Bits());
    WrapMinus(u / 2, w);
  }

  lemma WrapMinus(x: nat, w: Word)
    requires x < w.Limit()
    ensures x % w.Limit() == x && (-1 - x) % w.Limit() == w.Limit() - 1 - x
  {
  }
}
