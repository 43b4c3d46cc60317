/** The UI protocol contract: types, constraints, values, and what a well-formed contract is.
    A named struct or union is represented by its definition, so every type is a finite tree. */
module UiSchema {
  import opened Prelude
  import opened Wire

  const DEFAULT_STR_MAX := 4096
  const DEFAULT_ARR_MAX := 65535
  const U32_LIMIT := 0x1_0000_0000

  datatype Cons = Cons(max: Option<int>, itemmax: Option<int>, lo: Option<int>, hi: Option<int>,
                       choices: Option<seq<int>>, sorted: bool)

  datatype Ty =
    | TInt(i: IntTy)
    | TBool
    | TStr
    | TBytes
    | TEnum(erepr: IntTy, values: seq<(string, int)>)
    | TFlags(frepr: IntTy, bits: seq<nat>)
    | TArr(elem: Ty)
    | TStruct(fields: seq<Field>)
    | TUnion(tagTy: IntTy, variants: seq<Variant>)

  datatype Field = Field(name: string, t: Ty, cons: Cons)

  /** `nodeProps` is the variant's `validate = "node_props"`. */
  datatype Variant = Variant(name: string, tag: int, vfields: seq<Field>, nodeProps: bool)

  datatype Message = Message(mname: string, opcode: int, mfields: seq<Field>)

  /** Python values: a struct is a dictionary, a union a dictionary with an extra "type" entry. */
  datatype Val =
    | VInt(n: int)
    | VBool(b: bool)
    | VStr(s: string)
    | VBytes(raw: seq<byte>)
    | VArr(items: seq<Val>)
    | VDict(m: map<string, Val>)

  /** Text encoding, kept abstract: `enc` is `str.encode("utf-8")`, `dec` its strict inverse. */
  datatype Utf8 = Utf8(enc: string -> seq<byte>, dec: seq<byte> -> Option<string>)

  datatype Spec = Spec(maxMessage: nat, messages: seq<Message>, nodeProps: map<string, set<string>>, utf8: Utf8)

  // ------------------------------------------------------------ look-ups

  /** `dict(values)[n]`: the last entry with that name. */
  function CodeOf(values: seq<(string, int)>, n: string): Option<int> {
    if values == [] then None
    else
      var later := CodeOf(values[1..], n);
      if later.Some? then later else if values[0].0 == n then Some(values[0].1) else None
  }

  /** The first name with that code. */
  function NameOf(values: seq<(string, int)>, code: int): Option<string> {
    if values == [] then None
    else if values[0].1 == code then Some(values[0].0)
    else NameOf(values[1..], code)
  }

  /** Index of the first variant with that name; `|vs|` when there is none. */
  function VariantNamed(vs: seq<Variant>, n: string): (k: nat)
    ensures k <= |vs|
    ensures k < |vs| ==> vs[k].name == n
    ensures forall j :: 0 <= j < k ==> vs[j].name != n
  {
    if vs == [] || vs[0].name == n then 0 else 1 + VariantNamed(vs[1..], n)
  }

  /** Index of the first variant with that tag; `|vs|` when there is none. */
  function VariantTagged(vs: seq<Variant>, tag: int): (k: nat)
    ensures k <= |vs|
    ensures k < |vs| ==> vs[k].tag == tag
    ensures forall j :: 0 <= j < k ==> vs[j].tag != tag
  {
    if vs == [] || vs[0].tag == tag then 0 else 1 + VariantTagged(vs[1..], tag)
  }

  function Names(fs: seq<Field>): (r: set<string>)
    ensures forall i :: 0 <= i < |fs| ==> fs[i].name in r
  {
    if fs == [] then {} else {fs[0].name} + Names(fs[1..])
  }

  /** The constraints an array's items are decoded under; an item limit of 0 counts as absent. */
  function ItemCons(c: Cons): Cons {
    Cons(if c.itemmax.Some? && c.itemmax.value != 0 then c.itemmax else None, None, None, None, None, false)
  }

  function Limit(max: Option<int>, default: int): int {
    if max.Some? then max.value else default
  }

  /** `check_int` finds nothing to complain about. */
  predicate IntAllowed(c: Cons, v: int) {
    && (c.lo.Some? ==> c.lo.value <= v)
    && (c.hi.Some? ==> v <= c.hi.value)
    && (c.choices.Some? ==> v in c.choices.value)
  }

  // ------------------------------------------------------------ flags

  function Or(a: nat, b: nat): nat {
    if a == 0 then b else (if a % 2 == 1 || b % 2 == 1 then 1 else 0) + 2 * Or(a / 2, b / 2)
  }

  function Mask(bits: seq<nat>): nat {
    if bits == [] then 0 else Or(bits[0], Mask(bits[1..]))
  }

  /** `v & ~mask == 0`. */
  predicate OnlyIn(v: nat, mask: nat) {
    v == 0 || ((v % 2 == 1 ==> mask % 2 == 1) && OnlyIn(v / 2, mask / 2))
  }

  predicate Bit(v: nat, k: nat) {
    if k == 0 then v % 2 == 1 else Bit(v / 2, k - 1)
  }

  lemma {:induction false} ZeroHasNoBits(k: nat)
    ensures !Bit(0, k)
  {
    if k > 0 { ZeroHasNoBits(k - 1); }
  }

  lemma {:induction false} OrBits(a: nat, b: nat, k: nat)
    ensures Bit(Or(a, b), k) <==> Bit(a, k) || Bit(b, k)
  {
    if a == 0 {
      ZeroHasNoBits(k);
    } else if k > 0 {
      OrBits(a / 2, b / 2, k - 1);
      assert Or(a, b) / 2 == Or(a / 2, b / 2);
    }
  }

  lemma {:induction false} MaskBits(bits: seq<nat>, k: nat)
    ensures Bit(Mask(bits), k) <==> exists i :: 0 <= i < |bits| && Bit(bits[i], k)
  {
    if bits == [] {
      ZeroHasNoBits(k);
    } else {
      MaskBits(bits[1..], k);
      OrBits(bits[0], Mask(bits[1..]), k);
      if i :| 0 <= i < |bits| && Bit(bits[i], k) {
        assert i > 0 ==> bits[i] == bits[1..][i - 1];
      }
    }
  }

  ghost predicate SubBits(v: nat, mask: nat) {
    forall k: nat :: Bit(v, k) ==> Bit(mask, k)
  }

  lemma {:induction false} OnlyInBits(v: nat, mask: nat)
    ensures OnlyIn(v, mask) <==> SubBits(v, mask)
    decreases v
  {
    if v == 0 {
      forall k: nat ensures !Bit(v, k) { ZeroHasNoBits(k); }
    } else {
      OnlyInBits(v / 2, mask / 2);
      if OnlyIn(v, mask) {
        forall k: nat | Bit(v, k) ensures Bit(mask, k) {
          if k > 0 { assert Bit(v / 2, k - 1); }
        }
      }
      if SubBits(v, mask) {
        assert Bit(v, 0) ==> Bit(mask, 0);
        forall k: nat | Bit(v / 2, k) ensures Bit(mask / 2, k) {
          assert Bit(v, k + 1);
          assert Bit(mask, k + 1);
        }
      }
    }
  }

  ghost predicate Declared(bits: seq<nat>, k: nat) {
    exists i :: 0 <= i < |bits| && Bit(bits[i], k)
  }

  ghost predicate AllDeclared(v: nat, bits: seq<nat>) {
    forall k: nat :: Bit(v, k) ==> Declared(bits, k)
  }

  /** A flags value is accepted exactly when each of its bits is in some declared flag. */
  lemma FlagsMeaning(v: nat, bits: seq<nat>)
    ensures OnlyIn(v, Mask(bits)) <==> AllDeclared(v, bits)
  {
    OnlyInBits(v, Mask(bits));
    forall k: nat
      ensures Bit(Mask(bits), k) <==> Declared(bits, k)
    {
      MaskBits(bits, k);
    }
  }

  // ------------------------------------------------------------ sizes

  /** `min_size`: the fewest bytes a value of the type takes. */
  function MinSize(t: Ty): nat
    decreases t, 0
  {
    match t
    case TInt(i) => Width(i)
    case TBool => 1
    case TStr => 4
    case TBytes => 4
    case TEnum(r, _) => Width(r)
    case TFlags(r, _) => Width(r)
    case TArr(_) => 4
    case TStruct(fs) => MinSizeFields(fs)
    case TUnion(r, vs) => Width(r) + MinSizeVariants(vs)
  }

  function MinSizeFields(fs: seq<Field>): nat
    decreases fs, 0
  {
    if fs == [] then 0 else MinSize(fs[0].t) + MinSizeFields(fs[1..])
  }

  function MinSizeVariants(vs: seq<Variant>): (r: nat)
    ensures forall i :: 0 <= i < |vs| ==> r <= MinSizeFields(vs[i].vfields)
    decreases vs, 0
  {
    if vs == [] then 0
    else if |vs| == 1 then MinSizeFields(vs[0].vfields)
    else
      var a, b := MinSizeFields(vs[0].vfields), MinSizeVariants(vs[1..]);
      if a <= b then a else b
  }

  // ------------------------------------------------------------ sorted arrays

  datatype Key = KInt(k: int) | KBytes(bs: seq<byte>)

  predicate BytesLess(a: seq<byte>, b: seq<byte>) {
    b != [] && (a == [] || a[0] < b[0] || (a[0] == b[0] && BytesLess(a[1..], b[1..])))
  }

  predicate KeyLess(a: Key, b: Key) {
    match (a, b)
    case (KInt(x), KInt(y)) => x < y
    case (KBytes(x), KBytes(y)) => BytesLess(x, y)
    case _ => false
  }

  /** The key of a first field: text (and so an enum's name) compares by its bytes. */
  function ScalarKey(sp: Spec, v: Val): Option<Key> {
    match v
    case VInt(n) => Some(KInt(n))
    case VBool(b) => Some(KInt(if b then 1 else 0))
    case VStr(s) => Some(KBytes(sp.utf8.enc(s)))
    case VBytes(r) => Some(KBytes(r))
    case _ => None
  }

  /** `sort_key`; `None` where the source raises something other than `Bad`. */
  function SortKey(sp: Spec, t: Ty, v: Val): Option<Key> {
    match t
    case TUnion(_, vs) =>
      if v.VDict? && "type" in v.m && v.m["type"].VStr? && VariantNamed(vs, v.m["type"].s) < |vs|
      then Some(KInt(vs[VariantNamed(vs, v.m["type"].s)].tag)) else None
    case TStruct(fs) =>
      if v.VDict? && fs != [] && fs[0].name in v.m then ScalarKey(sp, v.m[fs[0].name]) else None
    case _ => None
  }

  /** Keys strictly increase from each item to the next. */
  predicate SortedItems(sp: Spec, t: Ty, items: seq<Val>) {
    && (forall i :: 0 <= i < |items| ==> SortKey(sp, t, items[i]).Some?)
    && forall i :: 0 < i < |items| ==>
                     KeyLess(SortKey(sp, t, items[i - 1]).value, SortKey(sp, t, items[i]).value)
  }

  /** The `node_props` validation of a created node. */
  predicate PropsAllowed(sp: Spec, m: map<string, Val>) {
    && "kind" in m && m["kind"].VStr? && m["kind"].s in sp.nodeProps
    && "props" in m && m["props"].VArr?
    && forall i :: 0 <= i < |m["props"].items| ==>
         var p := m["props"].items[i];
         p.VDict? && "type" in p.m && p.m["type"].VStr? && p.m["type"].s in sp.nodeProps[m["kind"].s]
  }

  // ------------------------------------------------------------ well-formed contracts

  predicate DistinctEntries(values: seq<(string, int)>) {
    forall i, j :: 0 <= i < j < |values| ==> values[i].0 != values[j].0 && values[i].1 != values[j].1
  }

  predicate DistinctVariants(vs: seq<Variant>) {
    forall i, j :: 0 <= i < j < |vs| ==> vs[i].name != vs[j].name && vs[i].tag != vs[j].tag
  }

  predicate DistinctFields(fs: seq<Field>) {
    forall i, j :: 0 <= i < j < |fs| ==> fs[i].name != fs[j].name
  }

  predicate DistinctMessages(ms: seq<Message>) {
    forall i, j :: 0 <= i < j < |ms| ==> ms[i].mname != ms[j].mname && ms[i].opcode != ms[j].opcode
  }

  predicate WfTy(t: Ty)
    decreases t, 0
  {
    match t
    case TEnum(r, values) => DistinctEntries(values) && forall i :: 0 <= i < |values| ==> InRange(r, values[i].1)
    case TArr(e) => WfTy(e)
    case TStruct(fs) => DistinctFields(fs) && WfFields(fs)
    case TUnion(r, vs) =>
      && vs != [] && DistinctVariants(vs)
      && forall i :: 0 <= i < |vs| ==>
           && InRange(r, vs[i].tag)
           && DistinctFields(vs[i].vfields)
           && "type" !in Names(vs[i].vfields)
           && WfFields(vs[i].vfields)
    case _ => true
  }

  predicate WfFields(fs: seq<Field>)
    decreases fs, 0
  {
    forall i :: 0 <= i < |fs| ==> WfTy(fs[i].t)
  }

  ghost predicate Utf8Laws(u: Utf8) {
    && (forall s: string :: u.dec(u.enc(s)) == Some(s))
    && (forall b: seq<byte> :: u.dec(b).Some? ==> u.enc(u.dec(b).value) == b)
  }

  ghost predicate WfSpec(sp: Spec) {
    && sp.maxMessage < U32_LIMIT
    && Utf8Laws(sp.utf8)
    && DistinctMessages(sp.messages)
    && forall i :: 0 <= i < |sp.messages| ==>
         && InRange(U16, sp.messages[i].opcode)
         && DistinctFields(sp.messages[i].mfields)
         && WfFields(sp.messages[i].mfields)
  }

  // ------------------------------------------------------------ values

  /** What the encoder can put on the wire at all (its look-ups and range assertions succeed). */
  predicate Encodable(sp: Spec, t: Ty, v: Val)
    decreases t, 0
  {
    match t
    case TInt(i) => v.VInt? && InRange(i, v.n)
    case TBool => v.VBool?
    case TStr => v.VStr? && |sp.utf8.enc(v.s)| < U32_LIMIT
    case TBytes => v.VBytes? && |v.raw| < U32_LIMIT
    case TEnum(r, values) => v.VStr? && CodeOf(values, v.s).Some? && InRange(r, CodeOf(values, v.s).value)
    case TFlags(r, _) => v.VInt? && InRange(r, v.n)
    case TArr(e) => v.VArr? && |v.items| < U32_LIMIT && EncodableItems(sp, e, v.items)
    case TStruct(fs) => v.VDict? && EncodableFields(sp, fs, v.m)
    case TUnion(r, vs) =>
      && v.VDict? && "type" in v.m && v.m["type"].VStr?
      && var k := VariantNamed(vs, v.m["type"].s);
         k < |vs| && InRange(r, vs[k].tag) && EncodableFields(sp, vs[k].vfields, v.m)
  }

  predicate EncodableItems(sp: Spec, e: Ty, items: seq<Val>)
    decreases e, 1 + |items|
  {
    items == [] || (Encodable(sp, e, items[0]) && EncodableItems(sp, e, items[1..]))
  }

  predicate EncodableFields(sp: Spec, fs: seq<Field>, m: map<string, Val>)
    decreases fs, 0
  {
    fs == [] || (fs[0].name in m && Encodable(sp, fs[0].t, m[fs[0].name]) && EncodableFields(sp, fs[1..], m))
  }

  /** The value meets the contract: right shape, and every constraint holds. */
  predicate Conforms(sp: Spec, t: Ty, c: Cons, v: Val)
    decreases t, 0
  {
    match t
    case TInt(i) => v.VInt? && InRange(i, v.n) && IntAllowed(c, v.n)
    case TBool => v.VBool?
    case TStr => v.VStr? && |sp.utf8.enc(v.s)| < U32_LIMIT && |sp.utf8.enc(v.s)| <= Limit(c.max, DEFAULT_STR_MAX)
    case TBytes => v.VBytes? && |v.raw| < U32_LIMIT && |v.raw| <= Limit(c.max, sp.maxMessage)
    case TEnum(r, values) => v.VStr? && CodeOf(values, v.s).Some?
    case TFlags(r, bits) => v.VInt? && InRange(r, v.n) && 0 <= v.n && OnlyIn(v.n, Mask(bits))
    case TArr(e) =>
      && v.VArr? && |v.items| < U32_LIMIT && |v.items| <= Limit(c.max, DEFAULT_ARR_MAX)
      && ConformsItems(sp, e, ItemCons(c), v.items)
      && (c.sorted ==> SortedItems(sp, e, v.items))
    case TStruct(fs) => v.VDict? && v.m.Keys == Names(fs) && ConformsFields(sp, fs, v.m)
    case TUnion(r, vs) =>
      && v.VDict? && "type" in v.m && v.m["type"].VStr?
      && var k := VariantNamed(vs, v.m["type"].s);
         && k < |vs|
         && v.m.Keys == {"type"} + Names(vs[k].vfields)
         && ConformsFields(sp, vs[k].vfields, v.m)
         && (vs[k].nodeProps ==> PropsAllowed(sp, v.m))
  }

  predicate ConformsItems(sp: Spec, e: Ty, c: Cons, items: seq<Val>)
    decreases e, 1 + |items|
  {
    items == [] || (Conforms(sp, e, c, items[0]) && ConformsItems(sp, e, c, items[1..]))
  }

  predicate ConformsFields(sp: Spec, fs: seq<Field>, m: map<string, Val>)
    decreases fs, 0
  {
    fs == [] || (fs[0].name in m && Conforms(sp, fs[0].t, fs[0].cons, m[fs[0].name]) && ConformsFields(sp, fs[1..], m))
  }
}
