/** The codec as the generator runs it: a growing buffer, a reading cursor, loops over fields and items. */
module UiCodecImpl {
  import opened Prelude
  import opened Wire
  import opened UiSchema
  import opened UiCodec

  datatype Result<+T> = Good(value: T) | Bad(why: UiCodec.Bad)

  /** `W`: the output buffer. */
  class Writer {
    var b: seq<byte>

    constructor ()
      ensures b == []
    {
      b := [];
    }

    method Int(ty: IntTy, v: int)
      requires InRange(ty, v)
      modifies this
      ensures b == old(b) + EncInt(ty, v)
    {
      b := b + EncInt(ty, v);
    }
  }

  /** `R`: the input and the cursor into it. */
  class Reader {
    const b: seq<byte>
    var p: nat

    ghost predicate Valid()
      reads this
    {
      p <= |b|
    }

    function Left(): (s: seq<byte>)
      requires Valid()
      reads this
    {
      b[p..]
    }

    constructor (input: seq<byte>)
      ensures Valid() && b == input && p == 0
    {
      b, p := input, 0;
    }

    method Take(n: nat) returns (res: Result<seq<byte>>)
      requires Valid()
      modifies this
      ensures Valid() && p >= old(p)
      ensures n > |old(Left())| ==> res == Bad(Truncated)
      ensures n <= |old(Left())| ==> res == Good(old(Left())[..n]) && Left() == old(Left())[n..]
    {
      if p + n > |b| {
        return Bad(Truncated);
      }
      assert b[p..p + n] == Left()[..n] && b[p + n..] == Left()[n..];
      res := Good(b[p..p + n]);
      p := p + n;
    }

    method Int(ty: IntTy) returns (res: Result<int>)
      requires Valid()
      modifies this
      ensures Valid() && p >= old(p)
      ensures Agrees(TakeInt(ty, old(Left())), res, Left())
    {
      var raw := Take(Width(ty));
      match raw
      case Bad(e) => res := Bad(e);
      case Good(r) => res := Good(DecInt(ty, r));
    }
  }

  /** The method's outcome is the one the specification gives, cursor included. */
  ghost predicate Agrees<T>(expected: Res<T>, res: Result<T>, left: seq<byte>) {
    match expected
    case Ok(v, rest) => res == Good(v) && left == rest
    case Err(e) => res == Bad(e)
  }

  method PyEnc(sp: Spec, t: Ty, v: Val, w: Writer)
    requires Encodable(sp, t, v)
    modifies w
    ensures w.b == old(w.b) + Enc(sp, t, v)
    decreases t, 0
  {
    match t
    case TInt(i) => w.Int(i, v.n);
    case TBool => w.b := w.b + [if v.b then 1 else 0];
    case TStr =>
      var raw := sp.utf8.enc(v.s);
      w.Int(U32, |raw|);
      w.b := w.b + raw;
    case TBytes =>
      w.Int(U32, |v.raw|);
      w.b := w.b + v.raw;
    case TEnum(r, values) => w.Int(r, CodeOf(values, v.s).value);
    case TFlags(r, _) => w.Int(r, v.n);
    case TArr(e) =>
      w.Int(U32, |v.items|);
      PyEncItems(sp, e, v.items, w);
    case TStruct(fs) => PyEncFields(sp, fs, v.m, w);
    case TUnion(r, vs) =>
      var k := VariantNamed(vs, v.m["type"].s);
      w.Int(r, vs[k].tag);
      PyEncFields(sp, vs[k].vfields, v.m, w);
  }

  method PyEncItems(sp: Spec, e: Ty, items: seq<Val>, w: Writer)
    requires EncodableItems(sp, e, items)
    modifies w
    ensures w.b == old(w.b) + EncItems(sp, e, items)
    decreases e, 1
  {
    var i := 0;
    while i < |items|
      invariant i <= |items| && EncodableItems(sp, e, items[i..])
      invariant w.b + EncItems(sp, e, items[i..]) == old(w.b) + EncItems(sp, e, items)
    {
      ghost var tail := EncItems(sp, e, items[i + 1..]);
      assert items[i..][1..] == items[i + 1..];
      ghost var before := w.b;
      PyEnc(sp, e, items[i], w);
      Assoc(before, Enc(sp, e, items[i]), tail);
      i := i + 1;
    }
  }

  method PyEncFields(sp: Spec, fs: seq<Field>, m: map<string, Val>, w: Writer)
    requires EncodableFields(sp, fs, m)
    modifies w
    ensures w.b == old(w.b) + EncFields(sp, fs, m)
    decreases fs, 1
  {
    var i := 0;
    while i < |fs|
      invariant i <= |fs| && EncodableFields(sp, fs[i..], m)
      invariant w.b + EncFields(sp, fs[i..], m) == old(w.b) + EncFields(sp, fs, m)
    {
      ghost var tail := EncFields(sp, fs[i + 1..], m);
      assert fs[i..][1..] == fs[i + 1..];
      ghost var before := w.b;
      PyEnc(sp, fs[i].t, m[fs[i].name], w);
      Assoc(before, Enc(sp, fs[i].t, m[fs[i].name]), tail);
      i := i + 1;
    }
  }

  method PyEncodeMessage(sp: Spec, msg: Message, value: map<string, Val>, flags: int) returns (out: seq<byte>)
    requires InRange(U16, msg.opcode) && InRange(U16, flags)
    requires EncodableFields(sp, msg.mfields, value) && InRange(U32, |EncFields(sp, msg.mfields, value)|)
    ensures out == EncodeMessage(sp, msg, value, flags)
  {
    var w := new Writer();
    PyEncFields(sp, msg.mfields, value, w);
    var body := w.b;
    out := EncInt(U16, msg.opcode) + EncInt(U16, flags) + EncInt(U32, |body|) + body;
  }

  method TakeBlobFrom(limit: int, r: Reader) returns (res: Result<seq<byte>>)
    requires r.Valid()
    modifies r
    ensures r.Valid() && r.p >= old(r.p)
    ensures Agrees(TakeBlob(limit, old(r.Left())), res, r.Left())
  {
    EncTakeIntIfOk(U32, r.Left());
    var len := r.Int(U32);
    match len
    case Bad(e) => res := Bad(e);
    case Good(n) =>
      if n > limit {
        return Bad(TooLong);
      }
      res := r.Take(n);
  }

  lemma EncTakeIntIfOk(i: IntTy, bs: seq<byte>)
    ensures TakeInt(i, bs).Ok? ==> InRange(i, TakeInt(i, bs).val)
  {
    if TakeInt(i, bs).Ok? { EncTakeInt(i, bs); }
  }

  method PyDec(sp: Spec, t: Ty, c: Cons, r: Reader) returns (res: Result<Val>)
    requires r.Valid()
    modifies r
    ensures r.Valid() && r.p >= old(r.p)
    ensures Agrees(Dec(sp, t, c, old(r.Left())), res, r.Left())
    decreases t, 2
  {
    match t
    case TStr =>
      var raw := TakeBlobFrom(Limit(c.max, DEFAULT_STR_MAX), r);
      if raw.Bad? { return Bad(raw.why); }
      var text := sp.utf8.dec(raw.value);
      res := if text.None? then Bad(BadUtf8) else Good(VStr(text.value));
    case TBytes =>
      var raw := TakeBlobFrom(Limit(c.max, sp.maxMessage), r);
      res := if raw.Bad? then Bad(raw.why) else Good(VBytes(raw.value));
    case TArr(e) => res := PyDecArr(sp, e, c, r);
    case TStruct(fs) =>
      IntoNothing(DecFields(sp, fs, r.Left()));
      var m := PyDecFields(sp, fs, map[], r);
      res := if m.Bad? then Bad(m.why) else Good(VDict(m.value));
    case TUnion(_, _) => res := PyDecUnion(sp, t, c, r);
    case _ => res := PyDecScalar(sp, t, c, r);
  }

  method PyDecScalar(sp: Spec, t: Ty, c: Cons, r: Reader) returns (res: Result<Val>)
    requires r.Valid() && (t.TInt? || t.TBool? || t.TEnum? || t.TFlags?)
    modifies r
    ensures r.Valid() && r.p >= old(r.p)
    ensures Agrees(Dec(sp, t, c, old(r.Left())), res, r.Left())
  {
    var ty := match t case TInt(i) => i case TEnum(x, _) => x case TFlags(x, _) => x case _ => U8;
    var code := r.Int(ty);
    if code.Bad? { return Bad(code.why); }
    var n := code.value;
    match t
    case TInt(_) => res := if CheckInt(c, n).Some? then Bad(CheckInt(c, n).value) else Good(VInt(n));
    case TBool => res := if n > 1 then Bad(BadBool) else Good(VBool(n == 1));
    case TFlags(_, bits) => res := if n < 0 || !OnlyIn(n, Mask(bits)) then Bad(UnknownFlag) else Good(VInt(n));
    case TEnum(_, values) =>
      var name := NameOf(values, n);
      res := if name.None? then Bad(UnknownEnum) else Good(VStr(name.value));
  }

  method PyDecArr(sp: Spec, e: Ty, c: Cons, r: Reader) returns (res: Result<Val>)
    requires r.Valid()
    modifies r
    ensures r.Valid() && r.p >= old(r.p)
    ensures Agrees(Dec(sp, TArr(e), c, old(r.Left())), res, r.Left())
    decreases e, 4
  {
    var count := r.Int(U32);
    if count.Bad? { return Bad(count.why); }
    var n := count.value;
    if n < 0 || n > Limit(c.max, DEFAULT_ARR_MAX) || n * MinSize(e) > |r.b| - r.p {
      return Bad(BadCount);
    }
    var d := PyDecItems(sp, e, ItemCons(c), n, r);
    if d.Bad? { return Bad(d.why); }
    res := if c.sorted && !SortedItems(sp, e, d.value) then Bad(NotSorted) else Good(VArr(d.value));
  }

  /** `later` finishes what `out` started. */
  function After(out: seq<Val>, later: Res<seq<Val>>): Res<seq<Val>> {
    match later
    case Ok(vs, rest) => Ok(out + vs, rest)
    case Err(b) => Err(b)
  }

  lemma AfterOne(out: seq<Val>, v: Val, later: Res<seq<Val>>)
    ensures After(out, After([v], later)) == After(out + [v], later)
  {
    if later.Ok? { assert out + ([v] + later.val) == out + [v] + later.val; }
  }

  /** With `out` decoded, the `k` items at the front of `left` complete `all`. */
  ghost predicate ItemsGoOn(sp: Spec, e: Ty, c: Cons, k: nat, left: seq<byte>, out: seq<Val>, all: Res<seq<Val>>) {
    all == After(out, DecItems(sp, e, c, k, left))
  }

  lemma ItemsStart(sp: Spec, e: Ty, c: Cons, k: nat, left: seq<byte>)
    ensures ItemsGoOn(sp, e, c, k, left, [], DecItems(sp, e, c, k, left))
  {
    var all := DecItems(sp, e, c, k, left);
    assert all.Ok? ==> [] + all.val == all.val;
  }

  lemma ItemsNext(sp: Spec, e: Ty, c: Cons, k: nat, left: seq<byte>, out: seq<Val>, all: Res<seq<Val>>)
    requires k > 0 && ItemsGoOn(sp, e, c, k, left, out, all)
    ensures match Dec(sp, e, c, left)
            case Err(b) => all == Err(b)
            case Ok(v, rest) => ItemsGoOn(sp, e, c, k - 1, rest, out + [v], all)
  {
    var first := Dec(sp, e, c, left);
    if first.Ok? { AfterOne(out, first.val, DecItems(sp, e, c, k - 1, first.rest)); }
  }

  lemma ItemsEnd(sp: Spec, e: Ty, c: Cons, left: seq<byte>, out: seq<Val>, all: Res<seq<Val>>)
    requires ItemsGoOn(sp, e, c, 0, left, out, all)
    ensures all == Ok(out, left)
  {
    assert out + [] == out;
  }

  method PyDecItems(sp: Spec, e: Ty, c: Cons, n: nat, r: Reader) returns (res: Result<seq<Val>>)
    requires r.Valid()
    modifies r
    ensures r.Valid() && r.p >= old(r.p)
    ensures Agrees(DecItems(sp, e, c, n, old(r.Left())), res, r.Left())
    decreases e, 3
  {
    var out: seq<Val> := [];
    var i := 0;
    ghost var all := DecItems(sp, e, c, n, r.Left());
    ItemsStart(sp, e, c, n, r.Left());
    while i < n
      invariant r.Valid() && r.p >= old(r.p)
      invariant i <= n
      invariant ItemsGoOn(sp, e, c, n - i, r.Left(), out, all)
    {
      ItemsNext(sp, e, c, n - i, r.Left(), out, all);
      var item := PyDec(sp, e, c, r);
      if item.Bad? { return Bad(item.why); }
      out := out + [item.value];
      i := i + 1;
    }
    ItemsEnd(sp, e, c, r.Left(), out, all);
    res := Good(out);
  }

  method PyDecUnion(sp: Spec, t: Ty, c: Cons, r: Reader) returns (res: Result<Val>)
    requires r.Valid() && t.TUnion?
    modifies r
    ensures r.Valid() && r.p >= old(r.p)
    ensures Agrees(Dec(sp, t, c, old(r.Left())), res, r.Left())
    decreases t, 1
  {
    var vs := t.variants;
    var code := r.Int(t.tagTy);
    if code.Bad? { return Bad(code.why); }
    var k := VariantTagged(vs, code.value);
    if k == |vs| {
      return Bad(UnknownTag);
    }
    var d := PyDecFields(sp, vs[k].vfields, map["type" := VStr(vs[k].name)], r);
    if d.Bad? { return Bad(d.why); }
    res := if vs[k].nodeProps && !PropsAllowed(sp, d.value) then Bad(PropNotAllowed) else Good(VDict(d.value));
  }

  /** `later` overrides what `out` holds. */
  function Into(out: map<string, Val>, later: Res<map<string, Val>>): Res<map<string, Val>> {
    match later
    case Ok(m, rest) => Ok(out + m, rest)
    case Err(b) => Err(b)
  }

  lemma IntoOne(out: map<string, Val>, n: string, v: Val, later: Res<map<string, Val>>)
    ensures Into(out, Into(map[n := v], later)) == Into(out[n := v], later)
  {
    if later.Ok? { assert out + (map[n := v] + later.val) == out[n := v] + later.val; }
  }

  lemma IntoNothing(later: Res<map<string, Val>>)
    ensures Into(map[], later) == later
  {
    if later.Ok? { assert map[] + later.val == later.val; }
  }

  /** Decode the fields into the dictionary `into`. */
  method PyDecFields(sp: Spec, fs: seq<Field>, into: map<string, Val>, r: Reader) returns (res: Result<map<string, Val>>)
    requires r.Valid()
    modifies r
    ensures r.Valid() && r.p >= old(r.p)
    ensures Agrees(Into(into, DecFields(sp, fs, old(r.Left()))), res, r.Left())
    decreases fs, 3
  {
    var out := into;
    var i := 0;
    ghost var all := Into(into, DecFields(sp, fs, r.Left()));
    while i < |fs|
      invariant r.Valid() && r.p >= old(r.p)
      invariant i <= |fs|
      invariant all == Into(out, DecFields(sp, fs[i..], r.Left()))
    {
      assert fs[i..][1..] == fs[i + 1..];
      var item := PyDec(sp, fs[i].t, fs[i].cons, r);
      if item.Bad? { return Bad(item.why); }
      IntoOne(out, fs[i].name, item.value, DecFields(sp, fs[i + 1..], r.Left()));
      out := out[fs[i].name := item.value];
      i := i + 1;
    }
    assert out + map[] == out;
    res := Good(out);
  }

  method PyDecode(sp: Spec, buf: seq<byte>) returns (res: Decoded)
    ensures res == Decode(sp, buf)
  {
    if |buf| < 8 {
      return Rejected(IncompleteHeader);
    }
    var op, flags, n := DecInt(U16, buf[0..2]), DecInt(U16, buf[2..4]), DecInt(U32, buf[4..8]);
    if flags != 0 {
      return Rejected(NonZeroFlags);
    }
    var k := MessageOf(sp.messages, op);
    if k == |sp.messages| {
      return Rejected(UnknownOpcode);
    }
    if n > sp.maxMessage {
      return Rejected(TooLarge);
    }
    if |buf| != 8 + n {
      return Rejected(LengthMismatch);
    }
    var r := new Reader(buf[8..]);
    IntoNothing(DecFields(sp, sp.messages[k].mfields, buf[8..]));
    var d := PyDecFields(sp, sp.messages[k].mfields, map[], r);
    if d.Bad? {
      return Rejected(d.why);
    }
    if r.p != |r.b| {
      return Rejected(TrailingBytes);
    }
    res := Accepted(sp.messages[k].mname, d.value);
  }
}
