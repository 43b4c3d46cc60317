/** The reference encoder and strict decoder of the UI protocol, and the proof that they are
    inverse to each other on every well-formed contract. */
module UiCodec {
  import opened Prelude
  import opened Wire
  import opened UiSchema

  /** Why the decoder refuses a buffer. */
  datatype Bad =
    | Truncated | BadBool | TooLong | BadUtf8 | OutOfRange | NotAChoice | UnknownEnum | UnknownFlag
    | BadCount | NotSorted | UnknownTag | PropNotAllowed
    | IncompleteHeader | NonZeroFlags | UnknownOpcode | TooLarge | LengthMismatch | TrailingBytes

  /** A decoded value and the bytes after it. */
  datatype Res<+T> = Ok(val: T, rest: seq<byte>) | Err(bad: Bad)

  // ------------------------------------------------------------ encoder

  function Enc(sp: Spec, t: Ty, v: Val): seq<byte>
    requires Encodable(sp, t, v)
    decreases t, 0
  {
    match t
    case TInt(i) => EncInt(i, v.n)
    case TBool => [if v.b then 1 else 0]
    case TStr => EncInt(U32, |sp.utf8.enc(v.s)|) + sp.utf8.enc(v.s)
    case TBytes => EncInt(U32, |v.raw|) + v.raw
    case TEnum(r, values) => EncInt(r, CodeOf(values, v.s).value)
    case TFlags(r, _) => EncInt(r, v.n)
    case TArr(e) => EncInt(U32, |v.items|) + EncItems(sp, e, v.items)
    case TStruct(fs) => EncFields(sp, fs, v.m)
    case TUnion(r, vs) =>
      var k := VariantNamed(vs, v.m["type"].s);
      EncInt(r, vs[k].tag) + EncFields(sp, vs[k].vfields, v.m)
  }

  function EncItems(sp: Spec, e: Ty, items: seq<Val>): seq<byte>
    requires EncodableItems(sp, e, items)
    decreases e, 1 + |items|
  {
    if items == [] then [] else Enc(sp, e, items[0]) + EncItems(sp, e, items[1..])
  }

  function EncFields(sp: Spec, fs: seq<Field>, m: map<string, Val>): seq<byte>
    requires EncodableFields(sp, fs, m)
    decreases fs, 0
  {
    if fs == [] then [] else Enc(sp, fs[0].t, m[fs[0].name]) + EncFields(sp, fs[1..], m)
  }

  // ------------------------------------------------------------ decoder

  function TakeInt(i: IntTy, bs: seq<byte>): Res<int> {
    if |bs| < Width(i) then Err(Truncated) else Ok(DecInt(i, bs[..Width(i)]), bs[Width(i)..])
  }

  function CheckInt(c: Cons, v: int): Option<Bad> {
    if (c.lo.Some? && v < c.lo.value) || (c.hi.Some? && v > c.hi.value) then Some(OutOfRange)
    else if c.choices.Some? && v !in c.choices.value then Some(NotAChoice)
    else None
  }

  /** A u32 length within `limit`, then that many bytes. */
  function TakeBlob(limit: int, bs: seq<byte>): Res<seq<byte>> {
    match TakeInt(U32, bs)
    case Err(e) => Err(e)
    case Ok(n, r1) =>
      if n > limit then Err(TooLong)
      else if n < 0 || |r1| < n then Err(Truncated)
      else Ok(r1[..n], r1[n..])
  }

  function Dec(sp: Spec, t: Ty, c: Cons, bs: seq<byte>): Res<Val>
    decreases t, 0
  {
    match t
    case TInt(i) => (
      match TakeInt(i, bs)
      case Err(e) => Err(e)
      case Ok(n, r) => if CheckInt(c, n).Some? then Err(CheckInt(c, n).value) else Ok(VInt(n), r))
    case TBool => (
      match TakeInt(U8, bs)
      case Err(e) => Err(e)
      case Ok(n, r) => if n > 1 then Err(BadBool) else Ok(VBool(n == 1), r))
    case TStr => (
      match TakeBlob(Limit(c.max, DEFAULT_STR_MAX), bs)
      case Err(e) => Err(e)
      case Ok(raw, r) => if sp.utf8.dec(raw).None? then Err(BadUtf8) else Ok(VStr(sp.utf8.dec(raw).value), r))
    case TBytes => (
      match TakeBlob(Limit(c.max, sp.maxMessage), bs)
      case Err(e) => Err(e)
      case Ok(raw, r) => Ok(VBytes(raw), r))
    case TEnum(repr, values) => (
      match TakeInt(repr, bs)
      case Err(e) => Err(e)
      case Ok(n, r) => if NameOf(values, n).None? then Err(UnknownEnum) else Ok(VStr(NameOf(values, n).value), r))
    case TFlags(repr, bits) => (
      match TakeInt(repr, bs)
      case Err(e) => Err(e)
      case Ok(n, r) => if n < 0 || !OnlyIn(n, Mask(bits)) then Err(UnknownFlag) else Ok(VInt(n), r))
    case TArr(elem) => (
      match TakeInt(U32, bs)
      case Err(e) => Err(e)
      case Ok(n, r1) =>
        if n < 0 || n > Limit(c.max, DEFAULT_ARR_MAX) || n * MinSize(elem) > |r1| then Err(BadCount)
        else
          match DecItems(sp, elem, ItemCons(c), n, r1)
          case Err(e) => Err(e)
          case Ok(items, r) => if c.sorted && !SortedItems(sp, elem, items) then Err(NotSorted) else Ok(VArr(items), r))
    case TStruct(fs) => (
      match DecFields(sp, fs, bs)
      case Err(e) => Err(e)
      case Ok(m, r) => Ok(VDict(m), r))
    case TUnion(repr, vs) => (
      match TakeInt(repr, bs)
      case Err(e) => Err(e)
      case Ok(tag, r1) =>
        var k := VariantTagged(vs, tag);
        if k == |vs| then Err(UnknownTag)
        else
          match DecFields(sp, vs[k].vfields, r1)
          case Err(e) => Err(e)
          case Ok(fm, r) =>
            var m := map["type" := VStr(vs[k].name)] + fm;
            if vs[k].nodeProps && !PropsAllowed(sp, m) then Err(PropNotAllowed) else Ok(VDict(m), r))
  }

  function DecItems(sp: Spec, e: Ty, c: Cons, n: nat, bs: seq<byte>): Res<seq<Val>>
    decreases e, 1 + n
  {
    if n == 0 then Ok([], bs)
    else
      match Dec(sp, e, c, bs)
      case Err(b) => Err(b)
      case Ok(v, r1) =>
        match DecItems(sp, e, c, n - 1, r1)
        case Err(b) => Err(b)
        case Ok(vs, r) => Ok([v] + vs, r)
  }

  /** Fields in order; a later field of the same name would replace an earlier one. */
  function DecFields(sp: Spec, fs: seq<Field>, bs: seq<byte>): Res<map<string, Val>>
    decreases fs, 0
  {
    if fs == [] then Ok(map[], bs)
    else
      match Dec(sp, fs[0].t, fs[0].cons, bs)
      case Err(b) => Err(b)
      case Ok(v, r1) =>
        match DecFields(sp, fs[1..], r1)
        case Err(b) => Err(b)
        case Ok(m, r) => Ok(map[fs[0].name := v] + m, r)
  }

  // ------------------------------------------------------------ small facts

  lemma {:induction false} CodeThenName(values: seq<(string, int)>, n: string)
    requires DistinctEntries(values) && CodeOf(values, n).Some?
    ensures NameOf(values, CodeOf(values, n).value) == Some(n)
    ensures exists i :: 0 <= i < |values| && values[i] == (n, CodeOf(values, n).value)
  {
    if CodeOf(values[1..], n).Some? {
      CodeThenName(values[1..], n);
      var i :| 0 <= i < |values[1..]| && values[1..][i] == (n, CodeOf(values[1..], n).value);
      assert values[i + 1] == (n, CodeOf(values, n).value);
    } else {
      assert values[0] == (n, CodeOf(values, n).value);
    }
  }

  lemma {:induction false} NameThenCode(values: seq<(string, int)>, code: int)
    requires DistinctEntries(values) && NameOf(values, code).Some?
    ensures CodeOf(values, NameOf(values, code).value) == Some(code)
  {
    var n := NameOf(values, code).value;
    if values[0].1 == code {
      if CodeOf(values[1..], n).Some? {
        CodeThenName(values[1..], n);
        assert false;
      }
    } else {
      NameThenCode(values[1..], code);
    }
  }

  lemma TakeIntEnc(i: IntTy, v: int, rest: seq<byte>)
    requires InRange(i, v)
    ensures TakeInt(i, EncInt(i, v) + rest) == Ok(v, rest)
  {
    DecEncInt(i, v);
    assert (EncInt(i, v) + rest)[..Width(i)] == EncInt(i, v);
    assert (EncInt(i, v) + rest)[Width(i)..] == rest;
  }

  lemma EncTakeInt(i: IntTy, bs: seq<byte>)
    requires TakeInt(i, bs).Ok?
    ensures InRange(i, TakeInt(i, bs).val)
    ensures bs == EncInt(i, TakeInt(i, bs).val) + TakeInt(i, bs).rest
  {
    EncDecInt(i, bs[..Width(i)]);
    assert bs == bs[..Width(i)] + bs[Width(i)..];
  }

  lemma TakeBlobEnc(limit: int, raw: seq<byte>, rest: seq<byte>)
    requires |raw| < U32_LIMIT && |raw| <= limit
    ensures TakeBlob(limit, EncInt(U32, |raw|) + raw + rest) == Ok(raw, rest)
  {
    assert EncInt(U32, |raw|) + raw + rest == EncInt(U32, |raw|) + (raw + rest);
    TakeIntEnc(U32, |raw|, raw + rest);
  }

  lemma EncTakeBlob(limit: int, bs: seq<byte>)
    requires TakeBlob(limit, bs).Ok?
    ensures var raw := TakeBlob(limit, bs).val;
      |raw| < U32_LIMIT && |raw| <= limit && bs == EncInt(U32, |raw|) + raw + TakeBlob(limit, bs).rest
  {
    EncTakeInt(U32, bs);
    var raw, rest := TakeBlob(limit, bs).val, TakeBlob(limit, bs).rest;
    assert TakeInt(U32, bs).rest == raw + rest;
    assert EncInt(U32, |raw|) + (raw + rest) == EncInt(U32, |raw|) + raw + rest;
  }

  lemma BoolBytes(b: bool)
    ensures EncInt(U8, if b then 1 else 0) == [if b then 1 else 0]
  {
    var n: nat := if b then 1 else 0;
    assert ToLe(n / 256, 0) == [];
  }

  // ------------------------------------------------------------ conforming values can be encoded

  lemma {:induction false} ConformsEncodable(sp: Spec, t: Ty, c: Cons, v: Val)
    requires WfTy(t) && Conforms(sp, t, c, v)
    ensures Encodable(sp, t, v)
    decreases t, 0
  {
    match t
    case TEnum(r, values) => CodeThenName(values, v.s);
    case TArr(e) => ItemsEncodable(sp, e, ItemCons(c), v.items);
    case TStruct(fs) => FieldsEncodable(sp, fs, v.m);
    case TUnion(r, vs) => FieldsEncodable(sp, vs[VariantNamed(vs, v.m["type"].s)].vfields, v.m);
    case _ =>
  }

  lemma {:induction false} ItemsEncodable(sp: Spec, e: Ty, c: Cons, items: seq<Val>)
    requires WfTy(e) && ConformsItems(sp, e, c, items)
    ensures EncodableItems(sp, e, items)
    decreases e, 1 + |items|
  {
    if items != [] {
      ConformsEncodable(sp, e, c, items[0]);
      ItemsEncodable(sp, e, c, items[1..]);
    }
  }

  lemma {:induction false} FieldsEncodable(sp: Spec, fs: seq<Field>, m: map<string, Val>)
    requires WfFields(fs) && ConformsFields(sp, fs, m)
    ensures EncodableFields(sp, fs, m)
    decreases fs, 0
  {
    if fs != [] {
      ConformsEncodable(sp, fs[0].t, fs[0].cons, m[fs[0].name]);
      FieldsEncodable(sp, fs[1..], m);
    }
  }

  // ------------------------------------------------------------ the count guard rejects nothing valid

  /** An encoding is never shorter than `min_size`. */
  lemma {:induction false} AtLeastMinSize(sp: Spec, t: Ty, v: Val)
    requires Encodable(sp, t, v)
    ensures |Enc(sp, t, v)| >= MinSize(t)
    decreases t, 0
  {
    match t
    case TStruct(fs) => FieldsAtLeastMinSize(sp, fs, v.m);
    case TUnion(r, vs) => FieldsAtLeastMinSize(sp, vs[VariantNamed(vs, v.m["type"].s)].vfields, v.m);
    case _ =>
  }

  lemma {:induction false} FieldsAtLeastMinSize(sp: Spec, fs: seq<Field>, m: map<string, Val>)
    requires EncodableFields(sp, fs, m)
    ensures |EncFields(sp, fs, m)| >= MinSizeFields(fs)
    decreases fs, 0
  {
    if fs != [] {
      AtLeastMinSize(sp, fs[0].t, m[fs[0].name]);
      FieldsAtLeastMinSize(sp, fs[1..], m);
    }
  }

  lemma MulStep(n: nat, k: nat)
    requires n > 0
    ensures n * k == k + (n - 1) * k
  {
  }

  lemma Assoc(a: seq<byte>, b: seq<byte>, c: seq<byte>)
    ensures a + b + c == a + (b + c)
  {
  }

  lemma {:induction false} ItemsAtLeastMinSize(sp: Spec, e: Ty, items: seq<Val>)
    requires EncodableItems(sp, e, items)
    ensures |EncItems(sp, e, items)| >= |items| * MinSize(e)
  {
    if items != [] {
      AtLeastMinSize(sp, e, items[0]);
      ItemsAtLeastMinSize(sp, e, items[1..]);
      MulStep(|items|, MinSize(e));
    }
  }

  // ------------------------------------------------------------ decode after encode

  function Restrict(m: map<string, Val>, ks: set<string>): map<string, Val> {
    map k | k in m && k in ks :: m[k]
  }

  lemma RestrictCons(m: map<string, Val>, fs: seq<Field>)
    requires fs != [] && fs[0].name in m
    ensures map[fs[0].name := m[fs[0].name]] + Restrict(m, Names(fs[1..])) == Restrict(m, Names(fs))
  {
  }

  /** Decoding what was encoded gives the value back and leaves what follows untouched. */
  lemma {:induction false} DecodeEncode(sp: Spec, t: Ty, c: Cons, v: Val, rest: seq<byte>)
    requires Utf8Laws(sp.utf8) && WfTy(t) && Conforms(sp, t, c, v) && Encodable(sp, t, v)
    ensures Dec(sp, t, c, Enc(sp, t, v) + rest) == Ok(v, rest)
    decreases t, 0
  {
    match t
    case TInt(i) => TakeIntEnc(i, v.n, rest);
    case TBool =>
      BoolBytes(v.b);
      TakeIntEnc(U8, if v.b then 1 else 0, rest);
    case TStr => TakeBlobEnc(Limit(c.max, DEFAULT_STR_MAX), sp.utf8.enc(v.s), rest);
    case TBytes => TakeBlobEnc(Limit(c.max, sp.maxMessage), v.raw, rest);
    case TEnum(r, values) =>
      CodeThenName(values, v.s);
      TakeIntEnc(r, CodeOf(values, v.s).value, rest);
    case TFlags(r, _) => TakeIntEnc(r, v.n, rest);
    case TArr(e) => DecodeEncodeArr(sp, e, c, v, rest);
    case TStruct(fs) =>
      DecodeEncodeFields(sp, fs, v.m, rest);
      assert Restrict(v.m, Names(fs)) == v.m;
    case TUnion(r, vs) => DecodeEncodeUnion(sp, t, c, v, rest);
  }

  lemma {:induction false} DecodeEncodeArr(sp: Spec, e: Ty, c: Cons, v: Val, rest: seq<byte>)
    requires Utf8Laws(sp.utf8) && WfTy(e) && Conforms(sp, TArr(e), c, v) && Encodable(sp, TArr(e), v)
    ensures Dec(sp, TArr(e), c, Enc(sp, TArr(e), v) + rest) == Ok(v, rest)
    decreases e, 2 + |v.items|
  {
    Assoc(EncInt(U32, |v.items|), EncItems(sp, e, v.items), rest);
    TakeIntEnc(U32, |v.items|, EncItems(sp, e, v.items) + rest);
    ItemsAtLeastMinSize(sp, e, v.items);
    DecodeEncodeItems(sp, e, ItemCons(c), v.items, rest);
  }

  lemma {:induction false} DecodeEncodeUnion(sp: Spec, t: Ty, c: Cons, v: Val, rest: seq<byte>)
    requires Utf8Laws(sp.utf8) && t.TUnion? && WfTy(t) && Conforms(sp, t, c, v) && Encodable(sp, t, v)
    ensures Dec(sp, t, c, Enc(sp, t, v) + rest) == Ok(v, rest)
    decreases t.variants, 1
  {
    var k := VariantNamed(t.variants, v.m["type"].s);
    var variant := t.variants[k];
    Assoc(EncInt(t.tagTy, variant.tag), EncFields(sp, variant.vfields, v.m), rest);
    TakeIntEnc(t.tagTy, variant.tag, EncFields(sp, variant.vfields, v.m) + rest);
    assert VariantTagged(t.variants, variant.tag) == k;
    DecodeEncodeFields(sp, variant.vfields, v.m, rest);
    assert map["type" := VStr(variant.name)] + Restrict(v.m, Names(variant.vfields)) == v.m;
  }

  lemma {:induction false} DecodeEncodeItems(sp: Spec, e: Ty, c: Cons, items: seq<Val>, rest: seq<byte>)
    requires Utf8Laws(sp.utf8) && WfTy(e) && ConformsItems(sp, e, c, items) && EncodableItems(sp, e, items)
    ensures DecItems(sp, e, c, |items|, EncItems(sp, e, items) + rest) == Ok(items, rest)
    decreases e, 1 + |items|
  {
    if items != [] {
      var tail := EncItems(sp, e, items[1..]) + rest;
      Assoc(Enc(sp, e, items[0]), EncItems(sp, e, items[1..]), rest);
      DecodeEncode(sp, e, c, items[0], tail);
      DecodeEncodeItems(sp, e, c, items[1..], rest);
      assert [items[0]] + items[1..] == items;
    } else {
      assert EncItems(sp, e, items) + rest == rest;
    }
  }

  lemma {:induction false} DecodeEncodeFields(sp: Spec, fs: seq<Field>, m: map<string, Val>, rest: seq<byte>)
    requires Utf8Laws(sp.utf8) && WfFields(fs) && ConformsFields(sp, fs, m) && EncodableFields(sp, fs, m)
    ensures DecFields(sp, fs, EncFields(sp, fs, m) + rest) == Ok(Restrict(m, Names(fs)), rest)
    decreases fs, 0
  {
    if fs != [] {
      var tail := EncFields(sp, fs[1..], m) + rest;
      Assoc(Enc(sp, fs[0].t, m[fs[0].name]), EncFields(sp, fs[1..], m), rest);
      DecodeEncode(sp, fs[0].t, fs[0].cons, m[fs[0].name], tail);
      DecodeEncodeFields(sp, fs[1..], m, rest);
      RestrictCons(m, fs);
    } else {
      assert EncFields(sp, fs, m) + rest == rest;
      assert Restrict(m, {}) == map[];
    }
  }

  // ------------------------------------------------------------ encode after decode

  /** Only the entries named by the fields matter. */
  lemma {:induction false} FieldsFrame(sp: Spec, fs: seq<Field>, m: map<string, Val>, m': map<string, Val>)
    requires forall n :: n in Names(fs) ==> n in m && n in m' && m[n] == m'[n]
    requires ConformsFields(sp, fs, m) && EncodableFields(sp, fs, m)
    ensures ConformsFields(sp, fs, m') && EncodableFields(sp, fs, m')
    ensures EncFields(sp, fs, m') == EncFields(sp, fs, m)
  {
    if fs != [] { FieldsFrame(sp, fs[1..], m, m'); }
  }

  /** What the decoder accepts is the encoding of a conforming value, byte for byte. */
  lemma {:induction false} EncodeDecode(sp: Spec, t: Ty, c: Cons, bs: seq<byte>)
    requires Utf8Laws(sp.utf8) && WfTy(t) && Dec(sp, t, c, bs).Ok?
    ensures var r := Dec(sp, t, c, bs);
      Conforms(sp, t, c, r.val) && Encodable(sp, t, r.val) && bs == Enc(sp, t, r.val) + r.rest
    decreases t, 0
  {
    var r := Dec(sp, t, c, bs);
    match t
    case TInt(i) => EncTakeInt(i, bs);
    case TBool =>
      EncTakeInt(U8, bs);
      BoolBytes(r.val.b);
    case TStr => EncTakeBlob(Limit(c.max, DEFAULT_STR_MAX), bs);
    case TBytes => EncTakeBlob(Limit(c.max, sp.maxMessage), bs);
    case TEnum(repr, values) =>
      EncTakeInt(repr, bs);
      NameThenCode(values, TakeInt(repr, bs).val);
    case TFlags(repr, _) => EncTakeInt(repr, bs);
    case TArr(e) =>
      EncTakeInt(U32, bs);
      var n, r1 := TakeInt(U32, bs).val, TakeInt(U32, bs).rest;
      EncodeDecodeItems(sp, e, ItemCons(c), n, r1);
      Assoc(EncInt(U32, n), EncItems(sp, e, r.val.items), r.rest);
    case TStruct(fs) => EncodeDecodeFields(sp, fs, bs);
    case TUnion(repr, vs) => EncodeDecodeUnion(sp, t, c, bs);
  }

  lemma {:induction false} EncodeDecodeUnion(sp: Spec, t: Ty, c: Cons, bs: seq<byte>)
    requires Utf8Laws(sp.utf8) && t.TUnion? && WfTy(t) && Dec(sp, t, c, bs).Ok?
    ensures var r := Dec(sp, t, c, bs);
      Conforms(sp, t, c, r.val) && Encodable(sp, t, r.val) && bs == Enc(sp, t, r.val) + r.rest
    decreases t.variants, 1
  {
    var r := Dec(sp, t, c, bs);
    var vs := t.variants;
    EncTakeInt(t.tagTy, bs);
    var tag, r1 := TakeInt(t.tagTy, bs).val, TakeInt(t.tagTy, bs).rest;
    var k := VariantTagged(vs, tag);
    EncodeDecodeFields(sp, vs[k].vfields, r1);
    assert VariantNamed(vs, vs[k].name) == k;
    FieldsFrame(sp, vs[k].vfields, DecFields(sp, vs[k].vfields, r1).val, r.val.m);
    Assoc(EncInt(t.tagTy, tag), EncFields(sp, vs[k].vfields, r.val.m), r.rest);
  }

  lemma {:induction false} EncodeDecodeItems(sp: Spec, e: Ty, c: Cons, n: nat, bs: seq<byte>)
    requires Utf8Laws(sp.utf8) && WfTy(e) && DecItems(sp, e, c, n, bs).Ok?
    ensures var r := DecItems(sp, e, c, n, bs);
      && |r.val| == n && ConformsItems(sp, e, c, r.val) && EncodableItems(sp, e, r.val)
      && bs == EncItems(sp, e, r.val) + r.rest
    decreases e, 1 + n
  {
    if n > 0 {
      EncodeDecode(sp, e, c, bs);
      var d := Dec(sp, e, c, bs);
      EncodeDecodeItems(sp, e, c, n - 1, d.rest);
      var ds := DecItems(sp, e, c, n - 1, d.rest);
      assert ([d.val] + ds.val)[1..] == ds.val;
      Assoc(Enc(sp, e, d.val), EncItems(sp, e, ds.val), ds.rest);
    }
  }

  lemma {:induction false} EncodeDecodeFields(sp: Spec, fs: seq<Field>, bs: seq<byte>)
    requires Utf8Laws(sp.utf8) && WfFields(fs) && DistinctFields(fs) && DecFields(sp, fs, bs).Ok?
    ensures var r := DecFields(sp, fs, bs);
      && r.val.Keys == Names(fs) && ConformsFields(sp, fs, r.val) && EncodableFields(sp, fs, r.val)
      && bs == EncFields(sp, fs, r.val) + r.rest
    decreases fs, 0
  {
    if fs != [] {
      EncodeDecode(sp, fs[0].t, fs[0].cons, bs);
      var d := Dec(sp, fs[0].t, fs[0].cons, bs);
      EncodeDecodeFields(sp, fs[1..], d.rest);
      var ds := DecFields(sp, fs[1..], d.rest);
      var m := map[fs[0].name := d.val] + ds.val;
      NotNamedLater(fs);
      FieldsFrame(sp, fs[1..], ds.val, m);
      Assoc(Enc(sp, fs[0].t, d.val), EncFields(sp, fs[1..], m), ds.rest);
    }
  }

  lemma {:induction false} NamesAre(fs: seq<Field>, n: string)
    ensures n in Names(fs) <==> exists i :: 0 <= i < |fs| && fs[i].name == n
  {
    if fs != [] {
      NamesAre(fs[1..], n);
      if i :| 0 <= i < |fs[1..]| && fs[1..][i].name == n { assert fs[i + 1].name == n; }
    }
  }

  lemma NotNamedLater(fs: seq<Field>)
    requires fs != [] && DistinctFields(fs)
    ensures fs[0].name !in Names(fs[1..])
  {
    NamesAre(fs[1..], fs[0].name);
  }

  // ------------------------------------------------------------ whole messages

  datatype Decoded = Accepted(name: string, value: map<string, Val>) | Rejected(why: Bad)

  predicate MessageConforms(sp: Spec, msg: Message, value: map<string, Val>) {
    value.Keys == Names(msg.mfields) && ConformsFields(sp, msg.mfields, value)
  }

  /** `py_encode_message`: opcode, flags, body length, body. */
  function EncodeMessage(sp: Spec, msg: Message, value: map<string, Val>, flags: int): seq<byte>
    requires InRange(U16, msg.opcode) && InRange(U16, flags)
    requires EncodableFields(sp, msg.mfields, value) && InRange(U32, |EncFields(sp, msg.mfields, value)|)
  {
    var body := EncFields(sp, msg.mfields, value);
    EncInt(U16, msg.opcode) + EncInt(U16, flags) + EncInt(U32, |body|) + body
  }

  /** Index of the first message with that opcode; `|ms|` when there is none. */
  function MessageOf(ms: seq<Message>, op: int): (k: nat)
    ensures k <= |ms|
    ensures k < |ms| ==> ms[k].opcode == op
    ensures forall j :: 0 <= j < k ==> ms[j].opcode != op
  {
    if ms == [] || ms[0].opcode == op then 0 else 1 + MessageOf(ms[1..], op)
  }

  /** `py_decode`: header checks, then the fields, then nothing more. */
  function Decode(sp: Spec, buf: seq<byte>): Decoded {
    if |buf| < 8 then Rejected(IncompleteHeader)
    else
      var op, flags, n := DecInt(U16, buf[0..2]), DecInt(U16, buf[2..4]), DecInt(U32, buf[4..8]);
      var k := MessageOf(sp.messages, op);
      if flags != 0 then Rejected(NonZeroFlags)
      else if k == |sp.messages| then Rejected(UnknownOpcode)
      else if n > sp.maxMessage then Rejected(TooLarge)
      else if |buf| != 8 + n then Rejected(LengthMismatch)
      else
        match DecFields(sp, sp.messages[k].mfields, buf[8..])
        case Err(e) => Rejected(e)
        case Ok(m, rest) => if rest != [] then Rejected(TrailingBytes) else Accepted(sp.messages[k].mname, m)
  }

  lemma Header(a: seq<byte>, b: seq<byte>, c: seq<byte>, d: seq<byte>)
    requires |a| == 2 && |b| == 2 && |c| == 4
    ensures (a + b + c + d)[0..2] == a && (a + b + c + d)[2..4] == b && (a + b + c + d)[4..8] == c && (a + b + c + d)[8..] == d
  {
  }

  lemma EnvelopeRead(op: int, body: seq<byte>)
    requires InRange(U16, op) && InRange(U32, |body|)
    ensures var buf := EncInt(U16, op) + EncInt(U16, 0) + EncInt(U32, |body|) + body;
      && |buf| == 8 + |body| && buf[8..] == body
      && DecInt(U16, buf[0..2]) == op && DecInt(U16, buf[2..4]) == 0 && DecInt(U32, buf[4..8]) == |body|
  {
    Header(EncInt(U16, op), EncInt(U16, 0), EncInt(U32, |body|), body);
    DecEncInt(U16, op);
    DecEncInt(U16, 0);
    DecEncInt(U32, |body|);
  }

  /** Decode after encode, for every well-formed contract and conforming value that fits. */
  lemma MessageRoundTrip(sp: Spec, k: nat, value: map<string, Val>)
    requires WfSpec(sp) && k < |sp.messages| && MessageConforms(sp, sp.messages[k], value)
    ensures EncodableFields(sp, sp.messages[k].mfields, value)
    ensures |EncFields(sp, sp.messages[k].mfields, value)| <= sp.maxMessage ==>
              Decode(sp, EncodeMessage(sp, sp.messages[k], value, 0)) == Accepted(sp.messages[k].mname, value)
  {
    var msg := sp.messages[k];
    FieldsEncodable(sp, msg.mfields, value);
    var body := EncFields(sp, msg.mfields, value);
    if |body| <= sp.maxMessage {
      EnvelopeRead(msg.opcode, body);
      DecodeEncodeFields(sp, msg.mfields, value, []);
      assert body + [] == body;
      assert Restrict(value, Names(msg.mfields)) == value;
      assert MessageOf(sp.messages, msg.opcode) == k;
    }
  }

  /** Canonical encoding: an accepted buffer is the encoding of the message it decodes to. */
  lemma Canonical(sp: Spec, buf: seq<byte>)
    requires WfSpec(sp) && Decode(sp, buf).Accepted?
    ensures exists k ::
      && 0 <= k < |sp.messages|
      && sp.messages[k].mname == Decode(sp, buf).name
      && MessageConforms(sp, sp.messages[k], Decode(sp, buf).value)
      && EncodableFields(sp, sp.messages[k].mfields, Decode(sp, buf).value)
      && |EncFields(sp, sp.messages[k].mfields, Decode(sp, buf).value)| <= sp.maxMessage
      && buf == EncodeMessage(sp, sp.messages[k], Decode(sp, buf).value, 0)
  {
    var k := MessageOf(sp.messages, DecInt(U16, buf[0..2]));
    EncodeDecodeFields(sp, sp.messages[k].mfields, buf[8..]);
    EncDecInt(U16, buf[0..2]);
    EncDecInt(U16, buf[2..4]);
    EncDecInt(U32, buf[4..8]);
    var value := Decode(sp, buf).value;
    var body := EncFields(sp, sp.messages[k].mfields, value);
    assert body + [] == body == buf[8..];
    assert buf == buf[0..2] + buf[2..4] + buf[4..8] + buf[8..];
  }

  /** So no two different buffers decode to the same message. */
  lemma Injective(sp: Spec, a: seq<byte>, b: seq<byte>)
    requires WfSpec(sp) && Decode(sp, a).Accepted? && Decode(sp, a) == Decode(sp, b)
    ensures a == b
  {
    Canonical(sp, a);
    Canonical(sp, b);
  }
}
