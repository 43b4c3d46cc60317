/** Little-endian fixed-width integers of the UI protocol (`W.int`, `R.int`). */
module Wire {
  import opened Prelude

  datatype IntTy = U8 | U16 | U32 | U64 | I16 | I32

  /** The widths of PRIMS. */
  function Width(t: IntTy): nat {
    match t
    case U8 => 1 case U16 => 2 case U32 => 4 case U64 => 8 case I16 => 2 case I32 => 4
  }

  predicate Signed(t: IntTy) { t.I16? || t.I32? }

  function Pow256(w: nat): nat
    ensures Pow256(w) > 0
  {
    if w == 0 then 1 else 256 * Pow256(w - 1)
  }

  /** INT_BOUNDS, lower end. */
  function Lo(t: IntTy): int {
    match t
    case I16 => -0x8000
    case I32 => -0x8000_0000
    case _ => 0
  }

  /** INT_BOUNDS, upper end. */
  function Hi(t: IntTy): int {
    match t
    case U8 => 0xFF case U16 => 0xFFFF case U32 => 0xFFFF_FFFF case U64 => 0xFFFF_FFFF_FFFF_FFFF
    case I16 => 0x7FFF case I32 => 0x7FFF_FFFF
  }

  predicate InRange(t: IntTy, v: int) { Lo(t) <= v <= Hi(t) }

  function ToLe(n: nat, w: nat): (r: seq<byte>)
    ensures |r| == w
  {
    if w == 0 then [] else [n % 256] + ToLe(n / 256, w - 1)
  }

  function FromLe(b: seq<byte>): nat {
    if b == [] then 0 else b[0] + 256 * FromLe(b[1..])
  }

  lemma {:induction false} FromToLe(n: nat, w: nat)
    requires n < Pow256(w)
    ensures FromLe(ToLe(n, w)) == n
  {
    if w > 0 {
      FromToLe(n / 256, w - 1);
      assert ToLe(n, w)[1..] == ToLe(n / 256, w - 1);
    }
  }

  lemma {:induction false} ToFromLe(b: seq<byte>)
    ensures FromLe(b) < Pow256(|b|)
    ensures ToLe(FromLe(b), |b|) == b
  {
    if b != [] {
      ToFromLe(b[1..]);
      var n := FromLe(b[1..]);
      assert (b[0] + 256 * n) % 256 == b[0] && (b[0] + 256 * n) / 256 == n;
      assert [b[0]] + b[1..] == b;
    }
  }

  lemma Widths(t: IntTy)
    ensures Pow256(Width(t)) == (if Signed(t) then 2 * (Hi(t) + 1) else Hi(t) + 1)
    ensures Lo(t) == if Signed(t) then -(Hi(t) + 1) else 0
  {
    assert Pow256(1) == 0x100;
    assert Pow256(2) == 0x1_0000;
    assert Pow256(3) == 0x100_0000;
    assert Pow256(4) == 0x1_0000_0000;
    assert Pow256(5) == 0x100_0000_0000;
    assert Pow256(6) == 0x1_0000_0000_0000;
    assert Pow256(7) == 0x100_0000_0000_0000;
    assert Pow256(8) == 0x1_0000_0000_0000_0000;
  }

  /** `v.to_bytes(width, "little", signed)`; the source asserts the range first. */
  function EncInt(t: IntTy, v: int): (r: seq<byte>)
    requires InRange(t, v)
    ensures |r| == Width(t)
  {
    ToLe(if v < 0 then Widths(t); v + Pow256(Width(t)) else v, Width(t))
  }

  /** `int.from_bytes(b, "little", signed)`. */
  function DecInt(t: IntTy, b: seq<byte>): int
    requires |b| == Width(t)
  {
    var n := FromLe(b);
    if Signed(t) && n > Hi(t) then n - Pow256(Width(t)) else n
  }

  lemma DecEncInt(t: IntTy, v: int)
    requires InRange(t, v)
    ensures DecInt(t, EncInt(t, v)) == v
  {
    Widths(t);
    FromToLe(if v < 0 then v + Pow256(Width(t)) else v, Width(t));
  }

  lemma EncDecInt(t: IntTy, b: seq<byte>)
    requires |b| == Width(t)
    ensures InRange(t, DecInt(t, b)) && EncInt(t, DecInt(t, b)) == b
  {
    Widths(t);
    ToFromLe(b);
  }
}
