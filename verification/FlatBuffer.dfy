/** The flat buffer that a chunk list stands for: pure facts about overlays and chunk slices. */
module FlatBuffer {
  import opened Bytes

  /** r is m with the |s| bytes from address p on replaced by s. */
  predicate Patched(r: seq<byte>, m: seq<byte>, p: nat, s: seq<byte>) {
    && p + |s| <= |m| == |r|
    && forall k | 0 <= k < |r| :: r[k] == if p <= k < p + |s| then s[k - p] else m[k]
  }

  /** r is m with more behind it. */
  predicate Extends<T(==)>(r: seq<T>, m: seq<T>) {
    |m| <= |r| && forall k | 0 <= k < |m| :: r[k] == m[k]
  }

  /** Write s at cursor p of a buffer: overwrite what is there, extend the end if needed. */
  function Overwrite(c: seq<byte>, p: nat, s: seq<byte>): (r: seq<byte>)
    requires p <= |c|
    ensures |r| == Max(|c|, p + |s|)
  {
    c[..p] + s + (if p + |s| <= |c| then c[p + |s|..] else [])
  }

  function Max(a: int, b: int): int { if a >= b then a else b }

  function Min(a: int, b: int): int { if a <= b then a else b }

  /** Byte by byte: what was written where it was written, and else what was there. */
  lemma OverwriteByte(c: seq<byte>, p: nat, s: seq<byte>, k: nat)
    requires p <= |c| && k < |Overwrite(c, p, s)|
    ensures |Overwrite(c, p, s)| == if |c| >= p + |s| then |c| else p + |s|
    ensures Overwrite(c, p, s)[k] == if p <= k < p + |s| then s[k - p] else c[k]
  {
  }

  /** Two writes in a row are one write of the concatenation. */
  lemma OverwriteTwice(c: seq<byte>, p: nat, s: seq<byte>, t: seq<byte>)
    requires p <= |c|
    ensures p + |s| <= |Overwrite(c, p, s)|
    ensures Overwrite(Overwrite(c, p, s), p + |s|, t) == Overwrite(c, p, s + t)
  {
    var r := Overwrite(c, p, s);
    var left, right := Overwrite(r, p + |s|, t), Overwrite(c, p, s + t);
    assert r[..p + |s|] == c[..p] + s;
    if p + |s| + |t| <= |c| {
      assert r[p + |s| + |t|..] == c[p + |s| + |t|..];
    }
    assert left == right;
  }

  /** Cursor and contents before and after s was written. */
  predicate Written(c: seq<byte>, p: nat, c': seq<byte>, p': nat, s: seq<byte>) {
    p <= |c| && p' == p + |s| && c' == Overwrite(c, p, s)
  }

  lemma WrittenNothing(c: seq<byte>, p: nat)
    requires p <= |c|
    ensures Written(c, p, c, p, [])
  {
  }

  lemma WrittenTwice(c: seq<byte>, p: nat, c1: seq<byte>, p1: nat, c2: seq<byte>, p2: nat, s: seq<byte>, t: seq<byte>)
    requires Written(c, p, c1, p1, s) && Written(c1, p1, c2, p2, t)
    ensures Written(c, p, c2, p2, s + t)
  {
    OverwriteTwice(c, p, s, t);
  }

  /** A patch on memory, seen through a size mark, is a write on the contents. */
  lemma PatchIsOverwrite(m: seq<byte>, grown: seq<byte>, r: seq<byte>, size: nat, p: nat, s: seq<byte>)
    requires p <= size <= |m| && Extends(grown, m) && Patched(r, grown, p, s)
    ensures r[..Max(size, p + |s|)] == Overwrite(m[..size], p, s)
  {
    var left, right := r[..Max(size, p + |s|)], Overwrite(m[..size], p, s);
    assert |left| == |right|;
    forall i | 0 <= i < |left| ensures left[i] == right[i] {
      if i < |m| { assert grown[i] == m[i]; }
    }
  }

  // ---- chunk lists --------------------------------------------------------------------------

  /** The address at which chunk number i starts: i * base. */
  function Start(i: nat, base: nat): nat {
    if i == 0 then 0 else Start(i - 1, base) + base
  }

  lemma {:induction false} StartIsProduct(i: nat, base: nat)
    ensures Start(i, base) == i * base
  {
    if i > 0 { StartIsProduct(i - 1, base); }
  }

  lemma {:induction false} StartMonotone(i: nat, k: nat, base: nat)
    requires i < k
    ensures Start(i, base) + base <= Start(k, base)
  {
    if i < k - 1 { StartMonotone(i, k - 1, base); }
  }

  /** Chunk index and offset are quotient and remainder of the address. */
  lemma StartDivMod(k: nat, o: nat, base: nat)
    requires o < base
    ensures (Start(k, base) + o) / base == k && (Start(k, base) + o) % base == o
  {
    StartIsProduct(k, base);
    var x := Start(k, base) + o;
    var d := x / base - k;
    assert x == base * (x / base) + x % base;
    assert base * d == o - x % base;
    assert d >= 1 ==> base * d >= base;
    assert d <= -1 ==> base * d <= 0 - base;
  }

  function Flatten(cs: seq<seq<byte>>): seq<byte> {
    if cs == [] then [] else Flatten(cs[..|cs| - 1]) + cs[|cs| - 1]
  }

  predicate Even(cs: seq<seq<byte>>, base: nat) {
    forall i | 0 <= i < |cs| :: |cs[i]| == base
  }

  lemma {:induction false} FlattenLength(cs: seq<seq<byte>>, base: nat)
    requires Even(cs, base)
    ensures |Flatten(cs)| == Start(|cs|, base)
  {
    if cs != [] { FlattenLength(cs[..|cs| - 1], base); }
  }

  lemma {:induction false} FlattenConcat(a: seq<seq<byte>>, b: seq<seq<byte>>)
    ensures Flatten(a + b) == Flatten(a) + Flatten(b)
    decreases |b|
  {
    if b == [] {
      assert a + b == a;
    } else {
      var b' := b[..|b| - 1];
      FlattenConcat(a, b');
      assert (a + b)[..|a + b| - 1] == a + b';
    }
  }

  lemma FlattenAround(cs: seq<seq<byte>>, base: nat, k: nat)
    requires Even(cs, base) && k < |cs|
    ensures Flatten(cs) == Flatten(cs[..k]) + cs[k] + Flatten(cs[k + 1..])
    ensures |Flatten(cs[..k])| == Start(k, base)
  {
    assert cs == cs[..k + 1] + cs[k + 1..];
    FlattenConcat(cs[..k + 1], cs[k + 1..]);
    assert cs[..k + 1][..k] == cs[..k];
    FlattenLength(cs[..k], base);
  }

  /** Patching chunk k is patching the flat memory at the corresponding address. */
  lemma FlattenPatched(cs: seq<seq<byte>>, base: nat, k: nat, c: seq<byte>, o: nat, s: seq<byte>)
    requires Even(cs, base) && k < |cs| && Patched(c, cs[k], o, s)
    ensures Patched(Flatten(cs[k := c]), Flatten(cs), Start(k, base) + o, s)
  {
    var cs' := cs[k := c];
    FlattenAround(cs, base, k);
    FlattenAround(cs', base, k);
    assert cs'[..k] == cs[..k] && cs'[k + 1..] == cs[k + 1..];
  }

  /** A stretch of chunk k is the stretch of flat memory at the corresponding address. */
  lemma FlattenSlice(cs: seq<seq<byte>>, base: nat, k: nat, o: nat, n: nat)
    requires Even(cs, base) && k < |cs| && o + n <= base
    ensures Start(k, base) + o + n <= |Flatten(cs)|
    ensures Flatten(cs)[Start(k, base) + o..Start(k, base) + o + n] == cs[k][o..o + n]
  {
    FlattenAround(cs, base, k);
    var a, b := Flatten(cs[..k]), Flatten(cs[k + 1..]);
    assert (a + cs[k] + b)[|a| + o..|a| + o + n] == cs[k][o..o + n];
  }
}
