/** Bytes, machine-word limits and the fixed-width little-endian forms used by ByteArray. */
module Bytes {
  import opened Arithmetic

  type byte = x: int | 0 <= x < 256

  const U8: int := 0x100
  const U16: int := 0x1_0000
  const U32: int := 0x1_0000_0000
  const U64: int := 0x1_0000_0000_0000_0000

  /** 2^(8n): how many values n bytes hold. */
  function Range(n: nat): (r: int)
    ensures r >= 1
  {
    if n == 0 then 1 else 256 * Range(n - 1)
  }

  lemma RangeValues()
    ensures Range(1) == U8 && Range(2) == U16 && Range(4) == U32 && Range(8) == U64
  {
    assert Range(3) == 256 * Range(2);
    assert Range(5) == 256 * Range(4);
    assert Range(7) == 256 * Range(6);
  }

  /** The bytes memcpy takes from an unsigned integer on a little-endian host. */
  function LittleEndian(v: nat, n: nat): (s: seq<byte>)
    ensures |s| == n
    decreases n
  {
    if n == 0 then [] else [v % 256] + LittleEndian(v / 256, n - 1)
  }

  function FromLittleEndian(s: seq<byte>): (v: nat)
    ensures v < Range(|s|)
  {
    if s == [] then 0 else s[0] + 256 * FromLittleEndian(s[1..])
  }

  lemma {:induction false} LittleEndianRoundTrip(v: nat, n: nat)
    requires v < Range(n)
    ensures FromLittleEndian(LittleEndian(v, n)) == v
    decreases n
  {
    if n > 0 {
      LittleEndianRoundTrip(v / 256, n - 1);
      assert LittleEndian(v, n)[1..] == LittleEndian(v / 256, n - 1);
    }
  }

  /** The other way round: any n bytes are the little-endian form of the number they stand for. */
  lemma {:induction false} LittleEndianOf(s: seq<byte>)
    ensures LittleEndian(FromLittleEndian(s), |s|) == s
  {
    if s != [] {
      LittleEndianOf(s[1..]);
      Lowest(s[0], FromLittleEndian(s[1..]));
    }
  }

  lemma Lowest(low: byte, high: nat)
    ensures (low + 256 * high) % 256 == low && (low + 256 * high) / 256 == high
  {
  }

  /** Byte order on the wire: byte k counts 256^k. */
  lemma {:induction false} LittleEndianByte(v: nat, n: nat, k: nat)
    requires k < n
    ensures LittleEndian(v, n)[k] == v / Range(k) % 256
    decreases n
  {
    if k > 0 {
      LittleEndianByte(v / 256, n - 1, k - 1);
      DivideTwice(v, 256, Range(k - 1));
    }
  }

  /** The raw bits of an n-byte two's-complement integer, read as an unsigned value. */
  function ToUnsigned(x: int, n: nat): (u: nat)
    requires -Range(n) <= 2 * x < Range(n)
    ensures u < Range(n)
  {
    if x >= 0 then x else x + Range(n)
  }

  function ToSigned(u: nat, n: nat): (x: int)
    requires u < Range(n)
    ensures n > 0 ==> -Range(n) <= 2 * x < Range(n)
    ensures n > 0 ==> ToUnsigned(x, n) == u
  {
    if 2 * u < Range(n) then u else u - Range(n)
  }
}
