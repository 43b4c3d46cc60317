/** The card scheme's mixing function (`nfc_mix`): eight rounds of add, rotate and xor over four words. */
module NfcMix {
  import opened Prelude
  import opened Arith
  import Wire

  type Word = u32

  datatype Block<T> = Block(v0: T, v1: T, v2: T, v3: T)

  /** The operations a round is made of, with what undoes them; the rounds are stated for any words that have them. */
  datatype Ops<!T(!new)> = Ops(add: (T, T) -> T, sub: (T, T) -> T, xor: (T, T) -> T, rotl: (T, nat) -> T,
                               back17: T -> T, num: nat -> T)

  ghost predicate Undoable<T(!new)>(o: Ops<T>) {
    && (forall a, b :: o.sub(o.add(a, b), b) == a && o.add(o.sub(a, b), b) == a)
    && (forall a, b :: o.xor(o.xor(a, b), b) == a)
    && (forall a :: o.back17(o.rotl(a, 17)) == a && o.rotl(o.back17(a), 17) == a)
  }

  /** The key's words; rounds use them in turn. */
  function Part<T>(k: Block<T>, i: nat): T {
    match i % 4
    case 0 => k.v0
    case 1 => k.v1
    case 2 => k.v2
    case _ => k.v3
  }

  /** Round number `r`. */
  function Round<T(!new)>(o: Ops<T>, k: Block<T>, r: nat, v: Block<T>): Block<T> {
    var a0 := o.add(v.v0, Part(k, r));
    var a1 := o.xor(v.v1, o.rotl(a0, 7));
    var a2 := o.add(v.v2, a1);
    var a3 := o.xor(v.v3, o.rotl(a2, 13));
    var b0 := o.add(a0, a3);
    Block(b0, o.add(o.rotl(a1, 17), Part(k, r + 1)), o.xor(a2, o.rotl(b0, 5)), o.add(o.xor(a3, o.num(r)), Part(k, r + 2)))
  }

  /** The round's steps undone in reverse order. */
  function UnRound<T(!new)>(o: Ops<T>, k: Block<T>, r: nat, b: Block<T>): Block<T> {
    var a3 := o.xor(o.sub(b.v3, Part(k, r + 2)), o.num(r));
    var a2 := o.xor(b.v2, o.rotl(b.v0, 5));
    var a1 := o.back17(o.sub(b.v1, Part(k, r + 1)));
    var a0 := o.sub(b.v0, a3);
    Block(o.sub(a0, Part(k, r)), o.xor(a1, o.rotl(a0, 7)), o.sub(a2, a1), o.xor(a3, o.rotl(a2, 13)))
  }

  lemma RoundUndone<T(!new)>(o: Ops<T>, k: Block<T>, r: nat, v: Block<T>)
    requires Undoable(o)
    ensures UnRound(o, k, r, Round(o, k, r, v)) == v
    ensures Round(o, k, r, UnRound(o, k, r, v)) == v
  {
  }

  // ------------------------------------------------------------ eight rounds

  const ROUNDS := 8

  /** Steps 0 to `n - 1`, one after the other. */
  function Up<B>(step: (nat, B) -> B, n: nat, v: B): B {
    if n == 0 then v else step(n - 1, Up(step, n - 1, v))
  }

  /** The steps' inverses, last first. */
  function Down<B>(back: (nat, B) -> B, n: nat, v: B): B {
    if n == 0 then v else Down(back, n - 1, back(n - 1, v))
  }

  lemma {:induction false} DownUp<B(!new)>(step: (nat, B) -> B, back: (nat, B) -> B, n: nat, v: B)
    requires forall r, x :: back(r, step(r, x)) == x && step(r, back(r, x)) == x
    ensures Down(back, n, Up(step, n, v)) == v && Up(step, n, Down(back, n, v)) == v
  {
    if n > 0 {
      DownUp(step, back, n - 1, v);
      DownUp(step, back, n - 1, back(n - 1, v));
    }
  }

  function Rounds<T(!new)>(o: Ops<T>, k: Block<T>, n: nat, v: Block<T>): Block<T> {
    Up((r, x) => Round(o, k, r, x), n, v)
  }

  function UnRounds<T(!new)>(o: Ops<T>, k: Block<T>, n: nat, v: Block<T>): Block<T> {
    Down((r, x) => UnRound(o, k, r, x), n, v)
  }

  lemma RoundsUndone<T(!new)>(o: Ops<T>, k: Block<T>, n: nat, v: Block<T>)
    requires Undoable(o)
    ensures UnRounds(o, k, n, Rounds(o, k, n, v)) == v && Rounds(o, k, n, UnRounds(o, k, n, v)) == v
  {
    var step, back := (r: nat, x) => Round(o, k, r, x), (r: nat, x) => UnRound(o, k, r, x);
    forall r: nat, x: Block<T> ensures back(r, step(r, x)) == x && step(r, back(r, x)) == x {
      RoundUndone(o, k, r, x);
    }
    DownUp(step, back, n, v);
  }

  /** The loop over the rounds, updating four variables. */
  method RunRounds<T(!new)>(o: Ops<T>, k: Block<T>, v: Block<T>) returns (w: Block<T>)
    ensures w == Rounds(o, k, ROUNDS, v)
  {
    var v0, v1, v2, v3 := v.v0, v.v1, v.v2, v.v3;
    for r := 0 to ROUNDS
      invariant Block(v0, v1, v2, v3) == Rounds(o, k, r, v)
    {
      v0 := o.add(v0, Part(k, r));
      v1 := o.xor(v1, o.rotl(v0, 7));
      v2 := o.add(v2, v1);
      v3 := o.xor(v3, o.rotl(v2, 13));
      v0 := o.add(v0, v3);
      v1 := o.add(o.rotl(v1, 17), Part(k, r + 1));
      v2 := o.xor(v2, o.rotl(v0, 5));
      v3 := o.add(o.xor(v3, o.num(r)), Part(k, r + 2));
    }
    w := Block(v0, v1, v2, v3);
  }

  // ------------------------------------------------------------ 32-bit words

  const M := 0x1_0000_0000

  function Add(a: Word, b: Word): Word { (a + b) % M }

  function Sub(a: Word, b: Word): Word { (a - b) % M }

  lemma AddUndone(a: Word, b: Word)
    ensures Sub(Add(a, b), b) == a && Add(Sub(a, b), b) == a
  {
  }

  /** Bit by bit. */
  function XorBits(a: nat, b: nat): nat
    decreases a + b
  {
    if a == 0 && b == 0 then 0 else (a + b) % 2 + 2 * XorBits(a / 2, b / 2)
  }

  lemma {:induction false} XorStaysNarrow(a: nat, b: nat, w: nat)
    requires a < Two(w) && b < Two(w)
    ensures XorBits(a, b) < Two(w)
    decreases w
  {
    if w > 0 {
      var half := Two(w - 1);
      assert Two(w) == 2 * half && a / 2 < half && b / 2 < half;
      XorStaysNarrow(a / 2, b / 2, w - 1);
    }
  }

  lemma XorHalves(a: nat, b: nat)
    ensures XorBits(a, b) % 2 == (a + b) % 2 && XorBits(a, b) / 2 == XorBits(a / 2, b / 2)
  {
    if a > 0 || b > 0 { HalfOf((a + b) % 2, XorBits(a / 2, b / 2)); }
  }

  lemma HalfOf(bit: nat, y: nat)
    requires bit < 2
    ensures (bit + 2 * y) % 2 == bit && (bit + 2 * y) / 2 == y
  {
  }

  lemma {:induction false} XorBitsTwice(a: nat, b: nat)
    ensures XorBits(XorBits(a, b), b) == a
    decreases a + b
  {
    if a == 0 && b == 0 {
    } else {
      var x := XorBits(a, b);
      XorBitsTwice(a / 2, b / 2);
      XorHalves(a, b);
      XorHalves(x, b);
      Parity(a, b, x);
      SameHalves(XorBits(x, b), a);
    }
  }

  lemma Parity(a: nat, b: nat, x: nat)
    requires x % 2 == (a + b) % 2
    ensures (x + b) % 2 == a % 2
  {
  }

  lemma SameHalves(x: nat, y: nat)
    requires x % 2 == y % 2 && x / 2 == y / 2
    ensures x == y
  {
  }

  lemma TwoToThe32()
    ensures Two(32) == M
  {
    assert Two(8) == 256;
    assert Two(16) == 0x1_0000;
    assert Two(24) == 0x100_0000;
  }

  function Xor(a: Word, b: Word): Word {
    TwoToThe32();
    XorStaysNarrow(a, b, 32);
    XorBits(a, b)
  }

  /** Rotate left by `n`: the two shifted halves share no bit, so joining them is adding them. */
  function Rotl(v: Word, n: nat): Word {
    if n > 32 then v
    else
      RotlStays(v, n);
      v % Two(32 - n) * Two(n) + v / Two(32 - n)
  }

  lemma {:induction false} TwoAdds(a: nat, b: nat)
    ensures Two(a + b) == Two(a) * Two(b)
  {
    if a > 0 { TwoAdds(a - 1, b); }
  }

  lemma RotlStays(v: Word, n: nat)
    requires n <= 32
    ensures 0 <= v % Two(32 - n) * Two(n) + v / Two(32 - n) < M
  {
    TwoAdds(32 - n, n);
    TwoToThe32();
    SwapHalves(v, Two(32 - n), Two(n));
  }

  lemma SwapHalves(v: nat, hi: nat, lo: nat)
    requires hi > 0 && lo > 0 && v < hi * lo
    ensures 0 <= v % hi * lo + v / hi < hi * lo
  {
    DivBelow(v, hi, lo);
    MulNext(v % hi, hi, lo);
  }

  lemma DivBelow(v: nat, hi: nat, lo: nat)
    requires hi > 0 && v < hi * lo
    ensures v / hi < lo
  {
    var q := v / hi;
    assert hi * q <= v;
    MulBig(hi, q - lo + 1);
    assert hi * (q - lo + 1) == hi * q - hi * lo + hi;
  }

  lemma MulNext(r: nat, hi: nat, lo: nat)
    requires r < hi
    ensures 0 <= r * lo <= hi * lo - lo
  {
    var d := hi - r - 1;
    assert hi * lo == (r + 1 + d) * lo == r * lo + lo + d * lo;
    assert d * lo >= 0;
  }

  function Back17(v: Word): Word { Rotl(v, 15) }

  lemma RotlUndone(v: Word)
    ensures Back17(Rotl(v, 17)) == v && Rotl(Back17(v), 17) == v
  {
    TwoToThe32();
    TwoAdds(15, 17);
    HalvesBack(v, Two(15), Two(17));
    HalvesBack(v, Two(17), Two(15));
  }

  lemma HalvesBack(v: nat, hi: nat, lo: nat)
    requires hi > 0 && lo > 0 && v < hi * lo
    ensures var w := v % hi * lo + v / hi;
      w >= 0 && w % lo * hi + w / lo == v
  {
    DivBelow(v, hi, lo);
    MulNext(v % hi, hi, lo);
    var w := v % hi * lo + v / hi;
    DivModIs(w, v % hi, v / hi, lo);
  }

  const WORDS := Ops<Word>.Ops(Add, Sub, Xor, Rotl, Back17, (r: nat) => r % M)

  lemma WordsUndoable()
    ensures Undoable(WORDS)
  {
    forall a: Word, b: Word ensures WORDS.sub(WORDS.add(a, b), b) == a && WORDS.add(WORDS.sub(a, b), b) == a {
      AddUndone(a, b);
    }
    forall a: Word, b: Word ensures WORDS.xor(WORDS.xor(a, b), b) == a { XorBitsTwice(a, b); }
    forall a: Word ensures WORDS.back17(WORDS.rotl(a, 17)) == a && WORDS.rotl(WORDS.back17(a), 17) == a { RotlUndone(a); }
  }

  // ------------------------------------------------------------ bytes

  type Octets = s: seq<byte> | |s| == 16 witness seq(16, i => 0)

  lemma Pow256Of4()
    ensures Wire.Pow256(4) == M
  {
    assert Wire.Pow256(2) == 0x1_0000;
  }

  /** A little-endian word. */
  function WordOf(b: seq<byte>): Word
    requires |b| == 4
  {
    Wire.ToFromLe(b);
    Pow256Of4();
    Wire.FromLe(b)
  }

  /** Four little-endian words (`struct.unpack("<4I")`). */
  function Unpack(s: Octets): Block<Word> {
    Block(WordOf(s[0..4]), WordOf(s[4..8]), WordOf(s[8..12]), WordOf(s[12..16]))
  }

  function Pack(v: Block<Word>): Octets {
    Wire.ToLe(v.v0, 4) + Wire.ToLe(v.v1, 4) + Wire.ToLe(v.v2, 4) + Wire.ToLe(v.v3, 4)
  }

  lemma PackUnpack(s: Octets)
    ensures Pack(Unpack(s)) == s
  {
    Wire.ToFromLe(s[0..4]);
    Wire.ToFromLe(s[4..8]);
    Wire.ToFromLe(s[8..12]);
    Wire.ToFromLe(s[12..16]);
    assert s[0..4] + s[4..8] + s[8..12] + s[12..16] == s;
  }

  lemma UnpackPack(v: Block<Word>)
    ensures Unpack(Pack(v)) == v
  {
    Pow256Of4();
    Wire.FromToLe(v.v0, 4);
    Wire.FromToLe(v.v1, 4);
    Wire.FromToLe(v.v2, 4);
    Wire.FromToLe(v.v3, 4);
    Quarters(Wire.ToLe(v.v0, 4), Wire.ToLe(v.v1, 4), Wire.ToLe(v.v2, 4), Wire.ToLe(v.v3, 4));
  }

  lemma Quarters<T>(a: seq<T>, b: seq<T>, c: seq<T>, d: seq<T>)
    requires |a| == 4 && |b| == 4 && |c| == 4 && |d| == 4
    ensures var s := a + b + c + d;
      s[0..4] == a && s[4..8] == b && s[8..12] == c && s[12..16] == d
  {
  }

  function Mixed(key: Octets, x: Octets): Octets {
    Pack(Rounds(WORDS, Unpack(key), ROUNDS, Unpack(x)))
  }

  function Unmixed(key: Octets, y: Octets): Octets {
    Pack(UnRounds(WORDS, Unpack(key), ROUNDS, Unpack(y)))
  }

  /** With any fixed key, mixing is a permutation of all 128-bit blocks. */
  lemma MixIsPermutation(key: Octets, x: Octets)
    ensures Unmixed(key, Mixed(key, x)) == x && Mixed(key, Unmixed(key, x)) == x
  {
    var k := Unpack(key);
    WordsUndoable();
    RoundsUndone(WORDS, k, ROUNDS, Unpack(x));
    UnpackPack(Rounds(WORDS, k, ROUNDS, Unpack(x)));
    UnpackPack(UnRounds(WORDS, k, ROUNDS, Unpack(x)));
    PackUnpack(x);
  }

  /** Different blocks never mix to the same. */
  lemma MixIsInjective(key: Octets, x: Octets, y: Octets)
    ensures Mixed(key, x) == Mixed(key, y) ==> x == y
  {
    MixIsPermutation(key, x);
    MixIsPermutation(key, y);
  }

  method Mix(key: Octets, x: Octets) returns (y: Octets)
    ensures y == Mixed(key, x)
  {
    var w := RunRounds(WORDS, Unpack(key), Unpack(x));
    y := Pack(w);
  }
}
