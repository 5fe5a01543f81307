/** IPv6Address::insert: printing an address with one run of zero groups compressed. */
module Ipv6 {
  import opened Basics
  import opened Bytes

  type Group = x: int | 0 <= x < 0x1_0000
  type Text = seq<char>

  // ---- numerals -----------------------------------------------------------------------------

  function Digit(d: nat): (c: char)
    requires d < 16
    ensures DigitValue(c) == Some(d) && c != ':'
  {
    if d < 10 then '0' + d as char else 'a' + (d - 10) as char
  }

  function DigitValue(c: char): (d: Option<nat>)
    ensures d.Some? ==> d.value < 16
  {
    if '0' <= c <= '9' then Some((c - '0') as nat)
    else if 'a' <= c <= 'f' then Some((c - 'a') as nat + 10)
    else if 'A' <= c <= 'F' then Some((c - 'A') as nat + 10)
    else None
  }

  lemma Divide(n: nat, base: nat)
    requires 2 <= base <= n
    ensures 0 <= n % base < base && n / base * base + n % base == n && n / base < n
  {
  }

  /** What a stream prints for an unsigned integer, in decimal or after std::hex. */
  function Numeral(n: nat, base: nat): (s: Text)
    requires 2 <= base <= 16
    ensures |s| >= 1 && forall i | 0 <= i < |s| :: s[i] != ':'
    decreases n
  {
    if n < base then [Digit(n)]
    else
      Divide(n, base);
      Numeral(n / base, base) + [Digit(n % base)]
  }

  /** The number a numeral stands for. */
  function Value(s: Text, base: nat): (v: Option<nat>) {
    if s == [] then Some(0)
    else
      var high, d := Value(s[..|s| - 1], base), DigitValue(s[|s| - 1]);
      if high.Some? && d.Some? && d.value < base then Some(high.value * base + d.value) else None
  }

  lemma ValueAppend(s: Text, d: nat, base: nat, v: nat)
    requires d < base <= 16 && Value(s, base) == Some(v)
    ensures Value(s + [Digit(d)], base) == Some(v * base + d)
  {
    assert (s + [Digit(d)])[..|s|] == s;
  }

  lemma {:induction false} NumeralValue(n: nat, base: nat)
    requires 2 <= base <= 16
    ensures Value(Numeral(n, base), base) == Some(n)
    decreases n
  {
    hide Value, Digit;
    if n < base {
      assert Value([], base) == Some(0) by { ValueEmpty(base); }
      ValueAppend([], n, base, 0);
      assert [] + [Digit(n)] == [Digit(n)];
    } else {
      Divide(n, base);
      NumeralValue(n / base, base);
      ValueAppend(Numeral(n / base, base), n % base, base, n / base);
    }
  }

  lemma ValueEmpty(base: nat)
    ensures Value([], base) == Some(0)
  {
  }

  lemma HexLength(n: nat)
    requires n < 0x1_0000
    ensures |Numeral(n, 16)| <= 4
  {
    assert |Numeral(n / 4096, 16)| == 1;
    assert n / 256 / 16 == n / 4096 && n / 16 / 16 == n / 256;
    assert |Numeral(n / 256, 16)| <= 2;
    assert |Numeral(n / 16, 16)| <= 3;
  }

  // ---- the text forms of section 2.2 of RFC 4291 --------------------------------------------

  /** "::" stands at k. */
  predicate Gap(t: Text, k: nat) {
    k + 1 < |t| && t[k] == ':' && t[k + 1] == ':'
  }

  /** The first "::". */
  function FindGap(t: Text): (k: Option<nat>)
    ensures k.Some? ==> Gap(t, k.value) && forall j: nat | j < k.value :: !Gap(t, j)
    ensures k.None? ==> forall j: nat :: !Gap(t, j)
  {
    FindGapFrom(t, 0)
  }

  function FindGapFrom(t: Text, i: nat): (k: Option<nat>)
    requires i <= |t|
    ensures k.Some? ==> Gap(t, k.value) && forall j: nat | i <= j < k.value :: !Gap(t, j)
    ensures k.None? ==> forall j: nat | i <= j :: !Gap(t, j)
    decreases |t| - i
  {
    if i == |t| then None else if Gap(t, i) then Some(i) else FindGapFrom(t, i + 1)
  }

  /** The pieces between single colons. */
  function Fields(t: Text): (fs: seq<Text>)
    ensures |fs| >= 1
  {
    if t == [] then [[]]
    else
      var fs := Fields(t[..|t| - 1]);
      if t[|t| - 1] == ':' then fs + [[]] else fs[..|fs| - 1] + [fs[|fs| - 1] + [t[|t| - 1]]]
  }

  /** One group: one to four hexadecimal digits. */
  function GroupOf(f: Text): Option<Group> {
    if 1 <= |f| <= 4 && Value(f, 16).Some? && Value(f, 16).value < 0x1_0000 then Some(Value(f, 16).value) else None
  }

  function GroupsOf(fs: seq<Text>): (r: Option<seq<Group>>) {
    if fs == [] then Some([])
    else
      var init, last := GroupsOf(fs[..|fs| - 1]), GroupOf(fs[|fs| - 1]);
      if init.Some? && last.Some? then Some(init.value + [last.value]) else None
  }

  /** A possibly empty list of groups on one side of "::". */
  function Side(t: Text): Option<seq<Group>> {
    if t == [] then Some([]) else GroupsOf(Fields(t))
  }

  function Zeros(n: nat): seq<Group> { seq(n, i => 0) }

  /** The eight groups a text denotes: written out in full, or with one "::" for one or more zero groups. */
  function Expand(t: Text): Option<seq<Group>> {
    match FindGap(t)
    case None =>
      var gs := GroupsOf(Fields(t));
      if gs.Some? && |gs.value| == 8 then gs else None
    case Some(k) =>
      var left, right := Side(t[..k]), Side(t[k + 2..]);
      if left.Some? && right.Some? && |left.value| + |right.value| < 8
      then Some(left.value + Zeros(8 - |left.value| - |right.value|) + right.value) else None
  }

  ghost predicate OneGap(t: Text) {
    forall j: nat, k: nat | Gap(t, j) && Gap(t, k) :: j == k
  }

  // ---- groups joined by colons --------------------------------------------------------------

  function Hex(g: Group): Text { Numeral(g, 16) }

  function Join(gs: seq<Group>): Text {
    if gs == [] then []
    else if |gs| == 1 then Hex(gs[0])
    else Join(gs[..|gs| - 1]) + [':'] + Hex(gs[|gs| - 1])
  }

  lemma JoinNext(gs: seq<Group>, i: nat, j: nat)
    requires i <= j < |gs|
    ensures Join(gs[i..j + 1]) == (if i == j then [] else Join(gs[i..j]) + [':']) + Hex(gs[j])
  {
    assert gs[i..j + 1][..j - i] == gs[i..j];
  }

  /** Joined groups neither start nor end with a colon and hold no "::". */
  lemma {:induction false} JoinShape(gs: seq<Group>)
    ensures var t := Join(gs);
            && (gs != [] ==> |t| >= 1 && t[0] != ':' && t[|t| - 1] != ':')
            && forall k: nat :: !Gap(t, k)
  {
    if |gs| > 1 {
      hide Hex;
      var p, h := Join(gs[..|gs| - 1]), Hex(gs[|gs| - 1]);
      JoinShape(gs[..|gs| - 1]);
      HexShape(gs[|gs| - 1]);
      var t := p + [':'] + h;
      forall k: nat ensures !Gap(t, k) {
        if k + 1 < |p| { assert !Gap(p, k); }
      }
    }
  }

  lemma HexShape(g: Group)
    ensures |Hex(g)| >= 1 && forall i | 0 <= i < |Hex(g)| :: Hex(g)[i] != ':'
    ensures GroupOf(Hex(g)) == Some(g)
  {
    NumeralValue(g, 16);
    HexLength(g);
  }

  lemma {:induction false} FieldsAppend(t: Text, f: Text)
    requires forall i | 0 <= i < |f| :: f[i] != ':'
    ensures var fs := Fields(t); Fields(t + f) == fs[..|fs| - 1] + [fs[|fs| - 1] + f]
    decreases |f|
  {
    var fs := Fields(t);
    if f == [] {
      assert t + f == t && fs[|fs| - 1] + f == fs[|fs| - 1];
    } else {
      var g, c := f[..|f| - 1], f[|f| - 1];
      FieldsAppend(t, g);
      assert (t + f)[..|t + f| - 1] == t + g;
      assert fs[|fs| - 1] + g + [c] == fs[|fs| - 1] + f;
    }
  }

  lemma FieldsFirst(f: Text)
    requires forall i | 0 <= i < |f| :: f[i] != ':'
    ensures Fields(f) == [f]
  {
    FieldsAppend([], f);
    assert [] + f == f;
  }

  lemma FieldsNext(t: Text, f: Text)
    requires forall i | 0 <= i < |f| :: f[i] != ':'
    ensures Fields(t + [':'] + f) == Fields(t) + [f]
  {
    var u := t + [':'];
    assert u[..|u| - 1] == t;
    assert Fields(u) == Fields(t) + [[]];
    FieldsAppend(u, f);
    assert [] + f == f;
  }

  /** Splitting what was joined gives the groups back. */
  lemma {:induction false} JoinFields(gs: seq<Group>)
    requires gs != []
    ensures GroupsOf(Fields(Join(gs))) == Some(gs)
  {
    hide Hex, Fields, GroupsOf, GroupOf, Value;
    var init, g := gs[..|gs| - 1], gs[|gs| - 1];
    assert gs == init + [g];
    HexShape(g);
    if |gs| == 1 {
      FieldsFirst(Hex(g));
      NoGroups();
      OneMoreGroup([], Hex(g), init, g);
      assert [] + [Hex(g)] == [Hex(g)];
    } else {
      JoinFields(init);
      FieldsNext(Join(init), Hex(g));
      OneMoreGroup(Fields(Join(init)), Hex(g), init, g);
    }
  }

  lemma NoGroups()
    ensures GroupsOf([]) == Some([])
  {
  }

  lemma OneMoreGroup(fs: seq<Text>, f: Text, gs: seq<Group>, g: Group)
    requires GroupsOf(fs) == Some(gs) && GroupOf(f) == Some(g)
    ensures GroupsOf(fs + [f]) == Some(gs + [g])
  {
    assert (fs + [f])[..|fs|] == fs;
  }

  lemma JoinSide(gs: seq<Group>)
    ensures Side(Join(gs)) == Some(gs)
  {
    if gs != [] {
      JoinFields(gs);
      JoinShape(gs);
    }
  }

  /** Uncompressed text. */
  lemma ExpandFull(gs: seq<Group>)
    requires |gs| == 8
    ensures Expand(Join(gs)) == Some(gs) && OneGap(Join(gs))
  {
    JoinShape(gs);
    JoinFields(gs);
  }

  function Compressed(left: seq<Group>, right: seq<Group>): Text {
    Join(left) + [':', ':'] + Join(right)
  }

  lemma CompressedGap(left: seq<Group>, right: seq<Group>)
    ensures var t := Compressed(left, right);
            Gap(t, |Join(left)|) && forall k: nat | Gap(t, k) :: k == |Join(left)|
  {
    JoinShape(left);
    JoinShape(right);
    var l, r := Join(left), Join(right);
    var t := l + [':', ':'] + r;
    forall k: nat | Gap(t, k) ensures k == |l| {
      if k + 1 < |l| {
        assert Gap(l, k);
      } else if k >= |l| + 2 {
        assert Gap(r, k - |l| - 2);
      }
    }
  }

  /** Text with "::" denotes both sides with zeros between. */
  lemma ExpandCompressed(left: seq<Group>, right: seq<Group>)
    requires |left| + |right| < 8
    ensures Expand(Compressed(left, right)) == Some(left + Zeros(8 - |left| - |right|) + right)
    ensures OneGap(Compressed(left, right))
  {
    hide Join, Side, FindGapFrom;
    CompressedGap(left, right);
    var t, n := Compressed(left, right), |Join(left)|;
    assert t[..n] == Join(left) && t[n + 2..] == Join(right);
    JoinSide(left);
    JoinSide(right);
  }

  // ---- the printer --------------------------------------------------------------------------

  /** sin6_addr seen as an array of uint16_t on a little-endian host. */
  function Word(a: seq<byte>, i: nat): Group
    requires |a| == 16 && i < 8
  {
    var low: int, high: int := a[2 * i], a[2 * i + 1];
    low + 256 * high
  }

  function NetworkToHost(w: Group): Group { w % 256 * 256 + w / 256 }

  function BigEndian(high: int, low: int): Group
    requires 0 <= high < 256 && 0 <= low < 256
  {
    256 * high + low
  }

  /** The address the bytes stand for: eight groups, each in network byte order. */
  function Groups(a: seq<byte>): (gs: seq<Group>)
    requires |a| == 16
    ensures |gs| == 8
  {
    seq(8, i requires 0 <= i < 8 => BigEndian(a[2 * i], a[2 * i + 1]))
  }

  lemma WordGroup(a: seq<byte>, i: nat)
    requires |a| == 16 && i < 8
    ensures NetworkToHost(Word(a, i)) == Groups(a)[i]
    ensures Word(a, i) == 0 <==> Groups(a)[i] == 0
  {
  }

  /** The text after groups 0 to i - 1, when z is where the first run of zeros starts and e where it ends. */
  ghost function Printed(gs: seq<Group>, z: nat, e: nat, i: nat): Text
    requires z <= e && i <= |gs|
  {
    if i <= z then Join(gs[..i])
    else if i <= e then Join(gs[..z])
    else Compressed(gs[..z], gs[e..i])
  }

  /** Groups z to e - 1 are the first run of zeros. */
  ghost predicate FirstRun(gs: seq<Group>, z: nat, e: nat) {
    && z <= e <= |gs| && (z < |gs| ==> z < e)
    && (forall k | 0 <= k < z :: gs[k] != 0)
    && (forall k | z <= k < e :: gs[k] == 0)
    && (e < |gs| ==> gs[e] != 0)
  }

  lemma {:induction false} RunFrom(gs: seq<Group>, z: nat) returns (e: nat)
    requires z <= |gs|
    ensures z <= e <= |gs| && (forall k | z <= k < e :: gs[k] == 0) && (e < |gs| ==> gs[e] != 0)
    decreases |gs| - z
  {
    e := z;
    if z < |gs| && gs[z] == 0 {
      e := RunFrom(gs, z + 1);
    }
  }

  lemma {:induction false} FindFirstRun(gs: seq<Group>, i: nat) returns (z: nat, e: nat)
    requires i <= |gs| && forall k | 0 <= k < i :: gs[k] != 0
    ensures FirstRun(gs, z, e)
    decreases |gs| - i
  {
    if i < |gs| && gs[i] != 0 {
      z, e := FindFirstRun(gs, i + 1);
    } else {
      z := i;
      e := RunFrom(gs, z);
    }
  }

  lemma PrintNext(gs: seq<Group>, z: nat, e: nat, i: nat)
    requires FirstRun(gs, z, e) && i < |gs|
    ensures z <= i < e ==> Printed(gs, z, e, i + 1) == Printed(gs, z, e, i)
    ensures i == e ==> Printed(gs, z, e, i + 1) == Printed(gs, z, e, i) + [':', ':'] + Hex(gs[i])
    ensures !(z <= i <= e) ==>
              Printed(gs, z, e, i + 1) == Printed(gs, z, e, i) + (if i == 0 then [] else [':']) + Hex(gs[i])
  {
    hide Join, Hex;
    if i < z {
      JoinNext(gs, 0, i);
      assert gs[0..i + 1] == gs[..i + 1] && gs[0..i] == gs[..i];
      NothingJoined();
    } else if i >= e {
      JoinNext(gs, e, i);
      assert i == e ==> gs[e..i] == [];
    }
  }

  lemma NothingJoined()
    ensures Join([]) == []
  {
  }

  /** The whole text denotes the groups. */
  lemma PrintedDenotes(gs: seq<Group>, z: nat, e: nat)
    requires |gs| == 8 && FirstRun(gs, z, e)
    ensures var t := if z < e == 8 then Printed(gs, z, e, 8) + [':', ':'] else Printed(gs, z, e, 8);
            Expand(t) == Some(gs) && OneGap(t)
  {
    hide Join, Expand, FindGapFrom, Gap;
    if z == 8 {
      assert gs[..8] == gs;
      ExpandFull(gs);
    } else {
      ExpandCompressed(gs[..z], gs[e..]);
      assert gs[..z] + Zeros(e - z) + gs[e..] == gs;
      NothingJoined();
      assert gs[e..8] == gs[e..];
      assert Join(gs[..z]) + [':', ':'] + [] == Join(gs[..z]) + [':', ':'];
    }
  }

  /** The part between the brackets: it denotes the address and has at most one "::". */
  method InsertGroups(a: seq<byte>) returns (os: Text)
    requires |a| == 16
    ensures Expand(os) == Some(Groups(a)) && OneGap(os)
  {
    hide Join, Expand, FindGapFrom, Gap, Compressed, Printed, Groups, OneGap, Numeral;
    ghost var gs := Groups(a);
    ghost var z, e := FindFirstRun(gs, 0);
    os := [];
    var usedZeros := false;
    PrintedStart(gs, z, e);
    for i := 0 to 8
      invariant os == Printed(gs, z, e, i)
      invariant usedZeros <==> i > e
    {
      WordGroup(a, i);
      PrintNext(gs, z, e, i);
      if Word(a, i) == 0 && !usedZeros {
        continue;
      }
      ghost var before := os;
      if i > 0 {
        WordGroup(a, i - 1);
        if Word(a, i - 1) == 0 && !usedZeros {
          os := os + [':'];
          usedZeros := true;
        }
      }
      if i > 0 {
        os := os + [':'];
      }
      assert i == e ==> os == before + [':', ':'];
      assert i == 0 ==> os == before + [];
      os := os + Numeral(NetworkToHost(Word(a, i)), 16);
    }
    WordGroup(a, 7);
    PrintedDenotes(gs, z, e);
    if !usedZeros && Word(a, 7) == 0 {
      os := os + [':', ':'];
    }
  }

  /** insert: "[address]:port", from the bytes of sin6_addr and sin6_port as stored. */
  method Insert(a: seq<byte>, port: Group) returns (os: Text)
    requires |a| == 16
    ensures exists t, p :: os == ['['] + t + [']', ':'] + p
              && Expand(t) == Some(Groups(a)) && OneGap(t) && Value(p, 10) == Some(NetworkToHost(port))
  {
    hide Expand, FindGapFrom, Gap, Groups, OneGap, Numeral, Value;
    var t := InsertGroups(a);
    var p := Numeral(NetworkToHost(port), 10);
    NumeralValue(NetworkToHost(port), 10);
    os := ['['] + t + [']', ':'] + p;
  }

  lemma PrintedStart(gs: seq<Group>, z: nat, e: nat)
    requires z <= e
    ensures Printed(gs, z, e, 0) == []
  {
  }
}
