/** The frame mutator (`tamper`): one bit of a TCP or UDP payload changes, and the checksum is made to fit. */
module Tamper {
  import opened Prelude
  import opened Arith

  // ------------------------------------------------------------ one's complement sums (RFC 1071)

  /** The 16-bit big-endian words of `b` added up; an odd last byte counts as a high byte. */
  function Sum(b: seq<byte>): nat {
    if |b| == 0 then 0
    else if |b| == 1 then b[0] * 256
    else b[0] * 256 + b[1] + Sum(b[2..])
  }

  /** One octet more weighs 256 at an even place and 1 at an odd one. */
  lemma {:induction false} SumMeaning(b: seq<byte>, x: byte)
    ensures Sum([]) == 0
    ensures Sum(b + [x]) == Sum(b) + if |b| % 2 == 0 then 0x100 * x as int else x
    decreases |b|
  {
    if |b| >= 2 {
      SumMeaning(b[2..], x);
      assert (b + [x])[2..] == b[2..] + [x];
    } else if |b| == 1 {
      assert (b + [x])[2..] == [];
    }
  }

  /** Add the carries back in until 16 bits are left. */
  function Fold(x: nat): (r: nat)
    ensures r <= 0xFFFF
  {
    if x <= 0xFFFF then x else Fold(x % 0x1_0000 + x / 0x1_0000)
  }

  lemma {:induction false} FoldMeaning(x: nat)
    ensures Fold(x) % 0xFFFF == x % 0xFFFF
    ensures Fold(x) == 0 <==> x == 0
    decreases x
  {
    if x > 0xFFFF {
      var lo, hi := x % 0x1_0000, x / 0x1_0000;
      FoldMeaning(lo + hi);
      assert x == (lo + hi) + hi * 0xFFFF;
      ModPlus(lo + hi, hi);
    }
  }

  lemma ModPlus(a: nat, k: nat)
    ensures (a + k * 0xFFFF) % 0xFFFF == a % 0xFFFF
  {
    var q, r := a / 0xFFFF, a % 0xFFFF;
    assert a + k * 0xFFFF == (q + k) * 0xFFFF + r;
    DivModUnique(a + k * 0xFFFF, q + k, r);
  }

  lemma DivModUnique(x: nat, q: nat, r: nat)
    requires x == q * 0xFFFF + r && r < 0xFFFF
    ensures x % 0xFFFF == r
  {
  }

  /** A sum verifies exactly when it is a positive multiple of 0xFFFF. */
  lemma FoldIsAllOnes(x: nat)
    ensures Fold(x) == 0xFFFF <==> x > 0 && x % 0xFFFF == 0
  {
    FoldMeaning(x);
  }

  /** The complement of the folded sum, added `m` times, leaves `1 - m` times the sum. */
  lemma ComplementCancels(s: nat, c: nat)
    requires s > 0 && (c == 0xFFFF - Fold(s) || (Fold(s) == 0xFFFF && c == 0xFFFF))
    ensures (s + c) % 0xFFFF == 0
    ensures (s + c + c) % 0xFFFF == 0 <==> s % 0xFFFF == 0
  {
    FoldMeaning(s);
    var r := s % 0xFFFF;
    var q := s / 0xFFFF;
    assert s == q * 0xFFFF + r;
    if r == 0 {
      assert Fold(s) == 0xFFFF;
      assert c == 0 || c == 0xFFFF;
      assert s + c == (if c == 0 then q else q + 1) * 0xFFFF;
      assert s + c + c == (if c == 0 then q else q + 2) * 0xFFFF;
      DivModUnique(s + c, if c == 0 then q else q + 1, 0);
      DivModUnique(s + c + c, if c == 0 then q else q + 2, 0);
    } else {
      assert Fold(s) == r && c == 0xFFFF - r;
      assert s + c == (q + 1) * 0xFFFF;
      assert s + c + c == (q + 1) * 0xFFFF + (0xFFFF - r);
      DivModUnique(s + c, q + 1, 0);
      DivModUnique(s + c + c, q + 1, 0xFFFF - r);
    }
  }

  /** Writing a word at an even place of a zeroed word adds it to the sum. */
  lemma {:induction false} SumSetWord(b: seq<byte>, k: nat, hi: byte, lo: byte)
    requires k % 2 == 0 && k + 1 < |b| && b[k] == 0 && b[k + 1] == 0
    ensures Sum(b[k := hi][k + 1 := lo]) == Sum(b) + hi * 256 + lo
  {
    var d := b[k := hi][k + 1 := lo];
    if k == 0 {
      assert d[2..] == b[2..];
    } else {
      SumSetWord(b[2..], k - 2, hi, lo);
      assert d[2..] == b[2..][k - 2 := hi][k - 1 := lo];
    }
  }

  lemma {:induction false} SumStep(b: seq<byte>, n: nat)
    requires 2 * n < |b|
    ensures Sum(b) == Sum(b[..2 * n]) + Sum(b[2 * n..])
  {
    if n == 0 {
      assert b[0..] == b;
    } else {
      SumStep(b[2..], n - 1);
      assert b[2..][..2 * (n - 1)] == b[..2 * n][2..];
      assert b[2..][2 * (n - 1)..] == b[2 * n..];
    }
  }

  // ------------------------------------------------------------ bits

  /** Bit `k` of `x`, the lowest being bit 0. */
  predicate Bit(x: nat, k: nat) {
    if k == 0 then x % 2 == 1 else Bit(x / 2, k - 1)
  }

  /** `x ^ (1 << k)`. */
  function FlipAt(x: nat, k: nat): nat {
    if k == 0 then (if x % 2 == 1 then x - 1 else x + 1) else x % 2 + 2 * FlipAt(x / 2, k - 1)
  }

  lemma {:induction false} FlipStaysNarrow(x: nat, k: nat, w: nat)
    requires x < Two(w) && k < w
    ensures FlipAt(x, k) < Two(w)
  {
    var half := Two(w - 1);
    assert Two(w) == 2 * half;
    if k > 0 {
      assert x / 2 < half;
      FlipStaysNarrow(x / 2, k - 1, w - 1);
    }
  }

  lemma {:induction false} FlipBit(x: nat, k: nat, j: nat)
    ensures Bit(FlipAt(x, k), j) <==> (if j == k then !Bit(x, j) else Bit(x, j))
  {
    if k == 0 {
      assert FlipAt(x, k) / 2 == x / 2;
    } else if j > 0 {
      FlipBit(x / 2, k - 1, j - 1);
      assert FlipAt(x, k) / 2 == FlipAt(x / 2, k - 1);
    }
  }

  lemma TwoToThe8()
    ensures Two(8) == 256
  {
    assert Two(4) == 16;
  }

  function Flip(x: byte, k: nat): byte
    requires k < 8
  {
    TwoToThe8();
    FlipStaysNarrow(x, k, 8);
    FlipAt(x, k)
  }

  /** Exactly one bit changes. */
  lemma FlipsOneBit(x: byte, k: nat, j: nat)
    requires k < 8
    ensures Bit(Flip(x, k), j) <==> (if j == k then !Bit(x, j) else Bit(x, j))
    ensures Flip(x, k) != x
  {
    FlipBit(x, k, j);
    FlipBit(x, k, k);
  }

  // ------------------------------------------------------------ which frames, and where

  /** Where the transport segment, its payload and its checksum field are. */
  datatype Layout = Layout(proto: int, l4: nat, data: nat, ck: nat, end: nat)

  function Word(f: seq<byte>, i: nat): nat
    requires i + 1 < |f|
  {
    f[i] as int * 256 + f[i + 1]
  }

  function Min(a: nat, b: nat): nat { if a < b then a else b }

  const UDP := 17
  const TCP := 6

  /** `None`: the frame is left alone, because its type, port or length does not fit. */
  function Parse(f: seq<byte>, port: nat): (r: Option<Layout>)
    ensures r.Some? ==>
      var l := r.value;
      && 14 <= l.l4 && l.l4 % 2 == 0 && l.l4 + 8 <= l.end <= |f| && l.data < l.end
      && (l.proto == UDP || l.proto == TCP) && l.l4 <= l.ck && l.ck % 2 == 0 && l.ck + 2 <= l.end && 34 <= |f|
      && l.end - l.l4 <= 0xFFFF
  {
    if |f| < 34 || f[12] != 8 || f[13] != 0 || f[14] / 16 != 4 then None
    else
      var l4 := 14 + f[14] % 16 * 4;
      var end := Min(14 + Word(f, 16), |f|);
      if end < l4 + 8 then None
      else if port != 0 && Word(f, l4) != port && Word(f, l4 + 2) != port then None
      else
        var proto := f[23];
        if proto == UDP then
          if l4 + 8 >= end then None else Some(Layout(UDP, l4, l4 + 8, l4 + 6, end))
        else if proto == TCP && end >= l4 + 20 then
          var data := l4 + f[l4 + 12] / 16 * 4;
          if data >= end then None else Some(Layout(TCP, l4, data, l4 + 16, end))
        else None
  }

  /** The octets of an IPv4 header whose length is `hl` and of a packet that ends at `end`. */
  ghost predicate PacketAt(f: seq<byte>, hl: nat, end: nat) {
    && |f| >= 34 && f[12] == 0x08 && f[13] == 0x00 && 0x40 <= f[14] < 0x50 && hl == (f[14] - 0x40) as int * 4
    && var total := f[16] as int * 0x100 + f[17] as int + 14; end == if total < |f| then total else |f|
  }

  /** Source port or destination port, or any port at all. */
  ghost predicate PortFits(f: seq<byte>, at: nat, port: nat)
    requires at + 4 <= |f|
  {
    port == f[at] as int * 0x100 + f[at + 1] as int || port == f[at + 2] as int * 0x100 + f[at + 3] as int || port == 0
  }

  /** A frame is changed exactly if it is IPv4, room for the ports is left, one of them fits, and the UDP or TCP header
      is followed by at least one octet of payload inside the packet. */
  lemma ParseMeaning(f: seq<byte>, port: nat, hl: nat, end: nat)
    requires PacketAt(f, hl, end)
    ensures var at := 14 + hl;
      Parse(f, port) == if end < at + 8 || !PortFits(f, at, port) then None
                        else if f[23] == 17 && at + 8 < end then Some(Layout(17, at, at + 8, at + 6, end))
                        else if f[23] == 6 && at + 20 <= end && at + f[at + 12] as int / 16 * 4 < end
                        then Some(Layout(6, at, at + f[at + 12] as int / 16 * 4, at + 16, end))
                        else None
  {
  }

  lemma NotIpv4(f: seq<byte>, port: nat)
    requires |f| < 34 || f[12] != 0x08 || f[13] != 0x00 || f[14] < 0x40 || f[14] >= 0x50
    ensures Parse(f, port).None?
  {
  }

  /** The pseudo-header and the segment, as a receiver sums them. */
  function PseudoSum(f: seq<byte>, l: Layout): nat
    requires 34 <= |f| && l.l4 <= l.end <= |f| && l.proto >= 0
  {
    Sum(f[26..34]) + l.proto + (l.end - l.l4) + Sum(f[l.l4..l.end])
  }

  predicate Verifies(f: seq<byte>, l: Layout)
    requires 34 <= |f| && l.l4 <= l.end <= |f| && l.proto >= 0
  {
    Fold(PseudoSum(f, l)) == 0xFFFF
  }

  function Target(l: Layout, pick: nat): nat
    requires l.data < l.end
  {
    l.data + pick % (l.end - l.data)
  }

  function Which(pick: nat): (k: nat)
    ensures k < 8
  {
    pick / 0x1_0000_0000 % 8
  }

  /** Any bit of any payload octet can be the one that is flipped. */
  lemma EveryBitCanBeHit(l: Layout, i: nat, k: nat) returns (pick: nat)
    requires l.data <= i < l.end && l.end - l.data <= 0xFFFF && k < 8
    ensures pick < 0x8_0000_0000 && Target(l, pick) == i && Which(pick) == k
  {
    var n := l.end - l.data;
    var high := k * 0x1_0000_0000;
    var low := (i - l.data - high) % n;
    pick := high + low;
    DivModIs(pick, k, low, 0x1_0000_0000);
    var q := (i - l.data - high) / n;
    assert i - l.data - high == n * q + low;
    assert pick == n * (-q) + (i - l.data);
    DivModIs(pick, -q, i - l.data, n);
  }

  /** The IP header and the TCP header are long enough (section 3.1 of RFC 791 and of RFC 9293). */
  predicate HeadersFit(l: Layout) {
    l.l4 >= 34 && (l.proto == TCP ==> l.data >= l.l4 + 20)
  }

  /** The checksum field is not also one of the words taken for an address. */
  predicate FieldApart(l: Layout) { l.ck < 26 || 34 <= l.ck }

  /** With the bit flipped, and the checksum field zeroed. */
  function Cleared(f: seq<byte>, l: Layout, pick: nat): (r: seq<byte>)
    requires l.data < l.end <= |f| && l.ck + 2 <= l.end
    ensures |r| == |f|
  {
    f[Target(l, pick) := Flip(f[Target(l, pick)], Which(pick))][l.ck := 0][l.ck + 1 := 0]
  }

  /** The UDP "no checksum" marker. */
  predicate Unchecked(f: seq<byte>, l: Layout)
    requires l.ck + 1 < |f|
  {
    l.proto == UDP && f[l.ck] == 0 && f[l.ck + 1] == 0
  }

  /** The checksum that is written. */
  function Checksum(s: nat, proto: int): (c: nat)
    ensures c <= 0xFFFF && (proto == UDP ==> c > 0)
  {
    if proto == UDP && 0xFFFF - Fold(s) == 0 then 0xFFFF else 0xFFFF - Fold(s)
  }

  predicate Placed(f: seq<byte>, l: Layout) {
    && 34 <= |f| && 14 <= l.l4 && l.l4 % 2 == 0 && l.ck % 2 == 0 && l.l4 <= l.ck
    && l.ck + 2 <= l.end <= |f| && l.proto > 0
  }

  /** A checksum written into a zeroed field counts once, or twice if the field is also taken for an address. */
  lemma FieldCounts(z: seq<byte>, l: Layout, hi: byte, lo: byte)
    requires Placed(z, l) && z[l.ck] == 0 && z[l.ck + 1] == 0
    ensures var t := z[l.ck := hi][l.ck + 1 := lo];
      var c := hi as int * 256 + lo;
      PseudoSum(t, l) == PseudoSum(z, l) + c + if FieldApart(l) then 0 else c
  {
    var t := z[l.ck := hi][l.ck + 1 := lo];
    var k := l.ck - l.l4;
    var seg := z[l.l4..l.end];
    SumSetWord(seg, k, hi, lo);
    assert t[l.l4..l.end] == seg[k := hi][k + 1 := lo];
    if FieldApart(l) {
      assert t[26..34] == z[26..34];
    } else {
      var addr := z[26..34];
      SumSetWord(addr, l.ck - 26, hi, lo);
      assert t[26..34] == addr[l.ck - 26 := hi][l.ck - 25 := lo];
    }
  }

  /** The repaired frame verifies exactly when the checksum field is apart from the addresses, or the
      sum happened to be a multiple of 0xFFFF anyway. */
  lemma Repaired(z: seq<byte>, l: Layout, c: nat)
    requires Placed(z, l) && z[l.ck] == 0 && z[l.ck + 1] == 0
    requires c == Checksum(PseudoSum(z, l), l.proto)
    ensures Verifies(z[l.ck := c / 256][l.ck + 1 := c % 256], l) <==> FieldApart(l) || PseudoSum(z, l) % 0xFFFF == 0
  {
    FieldCounts(z, l, c / 256, c % 256);
    ComplementCancels(PseudoSum(z, l), c);
    FoldIsAllOnes(PseudoSum(z[l.ck := c / 256][l.ck + 1 := c % 256], l));
  }

  // ------------------------------------------------------------ the mutator

  /** What a successful call does to the frame. */
  ghost predicate Tampered(f: seq<byte>, t: seq<byte>, l: Layout, pick: nat)
    requires 34 <= |f| && 14 <= l.l4 <= l.end <= |f| && l.data < l.end && l.ck + 2 <= l.end && l.proto >= 0
  {
    var i := Target(l, pick);
    && |t| == |f|
    && (forall j :: 0 <= j < |f| && j != i && j != l.ck && j != l.ck + 1 ==> t[j] == f[j])
    && (i != l.ck && i != l.ck + 1 ==> t[i] == Flip(f[i], Which(pick)))
    && var g := f[i := Flip(f[i], Which(pick))];
       if Unchecked(g, l) then t == g
       else
         && !Unchecked(t, l)
         && (Verifies(t, l) <==> FieldApart(l) || PseudoSum(Cleared(f, l, pick), l) % 0xFFFF == 0)
  }

  /** The bit flipped and the checksum written anew. */
  ghost function Mended(f: seq<byte>, l: Layout, pick: nat): seq<byte>
    requires Placed(f, l) && l.data < l.end
  {
    var z := Cleared(f, l, pick);
    var c := Checksum(PseudoSum(z, l), l.proto);
    z[l.ck := c / 256][l.ck + 1 := c % 256]
  }

  /** The frame after a call, and whether it was changed. */
  ghost function After(f: seq<byte>, port: nat, pick: nat): (t: seq<byte>)
    ensures |t| == |f|
  {
    var parsed := Parse(f, port);
    if parsed.None? then f
    else
      var l := parsed.value;
      var g := f[Target(l, pick) := Flip(f[Target(l, pick)], Which(pick))];
      if Unchecked(g, l) then g else Mended(f, l, pick)
  }

  lemma MendedIsTampered(f: seq<byte>, l: Layout, pick: nat)
    requires Placed(f, l) && l.data < l.end
    requires !Unchecked(f[Target(l, pick) := Flip(f[Target(l, pick)], Which(pick))], l)
    ensures Tampered(f, Mended(f, l, pick), l, pick)
  {
    var z := Cleared(f, l, pick);
    Repaired(z, l, Checksum(PseudoSum(z, l), l.proto));
  }

  lemma PayloadBehindHeader(f: seq<byte>, port: nat)
    requires Parse(f, port).Some?
    ensures Parse(f, port).value.data >= Parse(f, port).value.l4
  {
  }

  lemma MendedHead(f: seq<byte>, l: Layout, pick: nat, j: nat)
    requires Placed(f, l) && l.l4 <= l.data < l.end && j < 14
    ensures Mended(f, l, pick)[j] == f[j]
  {
  }

  /** The link-layer header is left alone. */
  lemma HeadStays(f: seq<byte>, port: nat, pick: nat)
    requires |f| >= 14
    ensures forall j :: 0 <= j < 14 ==> After(f, port, pick)[j] == f[j]
  {
    if Parse(f, port).Some? {
      var l := Parse(f, port).value;
      PayloadBehindHeader(f, port);
      forall j | 0 <= j < 14 ensures After(f, port, pick)[j] == f[j] { MendedHead(f, l, pick, j); }
    }
  }

  /** The closure `add`: the 16-bit words of `b`. */
  method AddWords(b: seq<byte>) returns (sum: nat)
    ensures sum == Sum(b)
  {
    sum := 0;
    var i := 0;
    assert b[..0] == [];
    while i < |b|
      invariant 0 <= i && (i <= |b| ==> i % 2 == 0 && sum == Sum(b[..i])) && (i > |b| ==> sum == Sum(b))
    {
      var n := i / 2;
      SumStep(b, n);
      if i + 1 < |b| {
        sum := sum + Word(b, i);
        assert b[..i + 2][..2 * n] == b[..i];
        SumStep(b[..i + 2], n);
        assert b[..i + 2][2 * n..] == [b[i], b[i + 1]] + [];
        SumWord(b[i], b[i + 1], []);
      } else {
        sum := sum + b[i] as int * 256;
        assert b[2 * n..] == [b[i]];
      }
      i := i + 2;
    }
    assert i == |b| ==> b[..i] == b;
  }

  method FoldCarries(x: nat) returns (r: nat)
    ensures r == Fold(x)
  {
    r := x;
    while r > 0xFFFF
      invariant Fold(r) == Fold(x)
    {
      r := r % 0x1_0000 + r / 0x1_0000;
    }
  }

  /** Zero the field, sum up, write the complement. */
  method Repair(f: array<byte>, l: Layout)
    requires 34 <= f.Length && 14 <= l.l4 && l.ck + 2 <= l.end <= f.Length && l.l4 <= l.ck
    requires (l.proto == UDP || l.proto == TCP) && l.end - l.l4 <= 0xFFFF
    modifies f
    ensures var z := old(f[..])[l.ck := 0][l.ck + 1 := 0];
      var c := Checksum(PseudoSum(z, l), l.proto);
      f[..] == z[l.ck := c / 256][l.ck + 1 := c % 256]
  {
    f[l.ck] := 0;
    f[l.ck + 1] := 0;
    assert f[..] == old(f[..])[l.ck := 0][l.ck + 1 := 0];
    ghost var z := f[..];
    assert f[26..34] == z[26..34] && f[l.l4..l.end] == z[l.l4..l.end];
    var a := AddWords(f[26..34]);
    var p := AddWords([0, l.proto]);
    var n := AddWords([(l.end - l.l4) / 256, (l.end - l.l4) % 256]);
    var s := AddWords(f[l.l4..l.end]);
    SumWord(0, l.proto, []);
    SumWord((l.end - l.l4) / 256, (l.end - l.l4) % 256, []);
    assert [0, l.proto] + [] == [0, l.proto];
    assert [(l.end - l.l4) / 256, (l.end - l.l4) % 256] + [] == [(l.end - l.l4) / 256, (l.end - l.l4) % 256];
    var sum := FoldCarries(a + p + n + s);
    var c := 0xFFFF - sum;
    if l.proto == UDP && c == 0 {
      c := 0xFFFF;
    }
    f[l.ck] := c / 256;
    f[l.ck + 1] := c % 256;
    assert f[..] == z[l.ck := c / 256][l.ck + 1 := c % 256];
  }

  method TamperFrame(f: array<byte>, port: nat, pick: nat) returns (done: bool)
    modifies f
    ensures done <==> Parse(old(f[..]), port).Some?
    ensures !done ==> f[..] == old(f[..])
    ensures f[..] == After(old(f[..]), port, pick)
    ensures done ==> Tampered(old(f[..]), f[..], Parse(old(f[..]), port).value, pick)
  {
    var parsed := Parse(f[..], port);
    if parsed.None? {
      return false;
    }
    var l := parsed.value;
    ghost var was := f[..];
    var i := Target(l, pick);
    f[i] := Flip(f[i], Which(pick));
    assert f[..] == was[i := Flip(was[i], Which(pick))];
    done := true;
    if Unchecked(f[..], l) {
      return;
    }
    Repair(f, l);
    MendedIsTampered(was, l, pick);
  }

  /** With proper headers the packet still verifies (or had no checksum), and the bit that changed is a
      payload bit. */
  lemma TamperedStillVerifies(f: seq<byte>, port: nat, pick: nat, t: seq<byte>)
    requires Parse(f, port).Some? && HeadersFit(Parse(f, port).value)
    requires Tampered(f, t, Parse(f, port).value, pick)
    ensures var l := Parse(f, port).value;
      var i := Target(l, pick);
      && l.data <= i < l.end && l.ck + 1 < i && t[i] == Flip(f[i], Which(pick)) != f[i]
      && (forall j :: 0 <= j < |f| && j != i && j != l.ck && j != l.ck + 1 ==> t[j] == f[j])
      && (if Unchecked(f, l) then t == f[i := Flip(f[i], Which(pick))] else Verifies(t, l) && !Unchecked(t, l))
  {
    FlipsOneBit(f[Target(Parse(f, port).value, pick)], Which(pick), 0);
  }

  /** A UDP packet whose IHL of 2 words puts its checksum field at the destination address. */
  function ShortHeader(): (f: seq<byte>)
    ensures |f| == 34
  {
    seq(34, i => if i == 12 then 8 else if i == 14 then 0x42 else if i == 17 then 20 else if i == 23 then 17 else if i == 29 then 1 else 0)
  }

  const SHORT := Layout(UDP, 22, 30, 28, 34)

  lemma Peel(z: seq<byte>, i: nat, j: nat)
    requires i + 2 <= j <= |z|
    ensures Sum(z[i..j]) == z[i] as int * 256 + z[i + 1] + Sum(z[i + 2..j])
  {
    assert z[i..j][2..] == z[i + 2..j];
  }

  lemma ShortHeaderSum(z: seq<byte>)
    requires |z| == 34 && z[22] == 0 && z[23] == 17 && z[24] == 0 && z[25] == 0
    requires forall i :: 26 <= i < 34 ==> z[i] == if i == 30 then 1 else 0
    ensures PseudoSum(z, SHORT) == 558
  {
    Peel(z, 22, 34);
    Peel(z, 24, 34);
    Peel(z, 26, 34);
    Peel(z, 28, 34);
    Peel(z, 30, 34);
    Peel(z, 32, 34);
  }

  lemma ShortHeaderCleared()
    ensures PseudoSum(Cleared(ShortHeader(), SHORT, 0), SHORT) == 558
  {
    assert Target(SHORT, 0) == 30 && Which(0) == 0 && FlipAt(0, 0) == 1;
    ShortHeaderSum(Cleared(ShortHeader(), SHORT, 0));
  }

  lemma ShortHeaderParses()
    ensures Parse(ShortHeader(), 0) == Some(SHORT)
  {
    var f := ShortHeader();
    assert Word(f, 16) == 20;
    assert f[14] % 16 == 2 && f[14] / 16 == 4;
  }

  /** An IHL that is too short can put the checksum field among the words taken for addresses: it is then
      counted twice, and the packet no longer verifies. */
  lemma ShortHeaderBreaks() returns (f: seq<byte>, t: seq<byte>)
    ensures Parse(f, 0).Some? && !FieldApart(Parse(f, 0).value)
    ensures Tampered(f, t, Parse(f, 0).value, 0) && !Unchecked(f, Parse(f, 0).value) && !Verifies(t, Parse(f, 0).value)
  {
    f := ShortHeader();
    ShortHeaderParses();
    assert f[23] == 17 && f[28] == 0;
    t := Mended(f, SHORT, 0);
    MendedIsTampered(f, SHORT, 0);
    ShortHeaderCleared();
  }

  lemma SumWord(a: byte, b: byte, rest: seq<byte>)
    ensures Sum([a, b] + rest) == a as int * 256 + b + Sum(rest)
  {
    assert ([a, b] + rest)[2..] == rest;
  }
}
