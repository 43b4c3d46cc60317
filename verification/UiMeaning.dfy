/** What the decoder accepts, said in octets, integers and positions instead of its own look-ups:
    byte order, header, limits, choices, flags, enums, the order of sorted arrays. */
module UiMeaning {
  import opened Prelude
  import opened Wire
  import opened UiSchema
  import opened UiCodec
  import opened UiChecks
  import Arith

  // ------------------------------------------------------------ octets

  function Word16(a: int, b: int): int { a + 0x100 * b }

  function Word32(a: int, b: int, c: int, d: int): int { Word16(a, b) + 0x1_0000 * Word16(c, d) }

  /** The first octet weighs least; the top bit of a signed integer takes the sign. */
  lemma IntFromOctets(t: IntTy, b: seq<byte>)
    requires |b| == Width(t)
    ensures t == U8 ==> |b| == 1 && DecInt(t, b) == b[0]
    ensures t == U16 ==> |b| == 2 && DecInt(t, b) == Word16(b[0], b[1])
    ensures t == I16 ==> |b| == 2 && DecInt(t, b) == Word16(b[0], b[1]) - (if b[1] >= 0x80 then 0x1_0000 else 0)
    ensures t == U32 ==> |b| == 4 && DecInt(t, b) == Word32(b[0], b[1], b[2], b[3])
    ensures t == I32 ==>
              && |b| == 4
              && DecInt(t, b) == Word32(b[0], b[1], b[2], b[3]) - (if b[3] >= 0x80 then 0x1_0000_0000 else 0)
    ensures t == U64 ==>
              && |b| == 8
              && DecInt(t, b) == Word32(b[0], b[1], b[2], b[3]) + 0x1_0000_0000 * Word32(b[4], b[5], b[6], b[7])
  {
    Widths(t);
    assert b[0..] == b && b[|b|..] == [];
    if |b| == 1 { assert b[1..] == [] && FromLe(b[1..]) == 0; }
    if |b| >= 2 { Pairs(b, 0); }
    if |b| >= 4 { Pairs(b, 2); }
    if |b| == 8 {
      Pairs(b, 4);
      Pairs(b, 6);
    }
  }

  lemma Pairs(b: seq<byte>, k: nat)
    requires k + 2 <= |b|
    ensures FromLe(b[k..]) == Word16(b[k], b[k + 1]) + 0x1_0000 * FromLe(b[k + 2..])
  {
    assert b[k..][1..] == b[k + 1..] && b[k + 1..][1..] == b[k + 2..];
  }

  // ------------------------------------------------------------ header

  ghost predicate OpcodeListed(sp: Spec, op: int) {
    exists k :: 0 <= k < |sp.messages| && sp.messages[k].opcode == op
  }

  /** Each of the first eight octets, and the error that a wrong one gives. */
  lemma HeaderChecks(sp: Spec, buf: seq<byte>)
    ensures |buf| < 8 ==> Decode(sp, buf) == Rejected(IncompleteHeader)
    ensures |buf| >= 8 ==>
              var op, n := Word16(buf[0], buf[1]), Word32(buf[4], buf[5], buf[6], buf[7]);
              var d := Decode(sp, buf);
              && (buf[2] != 0 || buf[3] != 0 ==> d == Rejected(NonZeroFlags))
              && (buf[2] == 0 && buf[3] == 0 && !OpcodeListed(sp, op) ==> d == Rejected(UnknownOpcode))
              && (buf[2] == 0 && buf[3] == 0 && OpcodeListed(sp, op) ==>
                    && (n > sp.maxMessage ==> d == Rejected(TooLarge))
                    && (n <= sp.maxMessage && n != |buf| - 8 ==> d == Rejected(LengthMismatch)))
  {
    if |buf| >= 8 {
      IntFromOctets(U16, buf[0..2]);
      IntFromOctets(U16, buf[2..4]);
      IntFromOctets(U32, buf[4..8]);
    }
  }

  // ------------------------------------------------------------ scalars

  ghost predicate Within(c: Cons, n: int) {
    !(c.lo.Some? && c.lo.value > n) && !(c.hi.Some? && c.hi.value < n)
  }

  ghost predicate Chosen(c: Cons, n: int) {
    c.choices.Some? ==> exists k :: 0 <= k < |c.choices.value| && c.choices.value[k] == n
  }

  /** An integer on the wire is refused exactly if it is out of the bounds or none of the choices. */
  lemma IntRead(sp: Spec, i: IntTy, c: Cons, n: int, rest: seq<byte>)
    requires InRange(i, n)
    ensures var d := Dec(sp, TInt(i), c, EncInt(i, n) + rest);
      && (d == Err(OutOfRange) <==> !Within(c, n))
      && (d == Err(NotAChoice) <==> Within(c, n) && !Chosen(c, n))
      && (d.Ok? ==> d == Ok(VInt(n), rest))
      && (d.Err? ==> d.bad == OutOfRange || d.bad == NotAChoice)
  {
    TakeIntEnc(i, n, rest);
  }

  /** One octet, and only 0 and 1. */
  lemma BoolRead(sp: Spec, c: Cons, bs: seq<byte>)
    requires bs != []
    ensures Dec(sp, TBool, c, bs) == if bs[0] == 0 then Ok(VBool(false), bs[1..])
                                     else if bs[0] == 1 then Ok(VBool(true), bs[1..])
                                     else Err(BadBool)
  {
    IntFromOctets(U8, bs[..1]);
  }

  /** A length in four octets, no more than `limit`, then the bytes. */
  lemma BlobRead(limit: int, bs: seq<byte>)
    ensures |bs| < 4 ==> TakeBlob(limit, bs) == Err(Truncated)
    ensures |bs| >= 4 ==>
              var n := Word32(bs[0], bs[1], bs[2], bs[3]);
              TakeBlob(limit, bs) == if n > limit then Err(TooLong)
                                     else if |bs| - 4 < n then Err(Truncated)
                                     else Ok(bs[4..4 + n], bs[4 + n..])
  {
    if |bs| >= 4 {
      IntFromOctets(U32, bs[..4]);
      var n := Word32(bs[0], bs[1], bs[2], bs[3]);
      if 4 + n <= |bs| { assert bs[4..][..n] == bs[4..4 + n] && bs[4..][n..] == bs[4 + n..]; }
    }
  }

  /** Text: at most the field's limit, or else 4096 octets, all of it UTF-8. */
  lemma TextRead(sp: Spec, c: Cons, bs: seq<byte>)
    requires |bs| >= 4
    ensures var n := Word32(bs[0], bs[1], bs[2], bs[3]);
      var d := Dec(sp, TStr, c, bs);
      && (d == Err(TooLong) <==> n > match c.max case Some(x) => x case None => 4096)
      && (d.Err? ==> d.bad in {TooLong, Truncated, BadUtf8})
      && (d == Err(BadUtf8) ==> 4 + n <= |bs| && sp.utf8.dec(bs[4..4 + n]) == None)
      && (d.Ok? ==> 4 + n <= |bs| && d.val.VStr? && sp.utf8.dec(bs[4..4 + n]) == Some(d.val.s) && d.rest == bs[4 + n..])
      && (d == Err(Truncated) ==> 4 + n > |bs|)
  {
    BlobRead(if c.max.Some? then c.max.value else 4096, bs);
  }

  /** Bytes: at most the field's limit, or else as many as a message may hold. */
  lemma BytesRead(sp: Spec, c: Cons, bs: seq<byte>)
    requires |bs| >= 4
    ensures var n := Word32(bs[0], bs[1], bs[2], bs[3]);
      Dec(sp, TBytes, c, bs) == if n > (match c.max case Some(x) => x case None => sp.maxMessage) then Err(TooLong)
                                else if 4 + n > |bs| then Err(Truncated)
                                else Ok(VBytes(bs[4..4 + n]), bs[4 + n..])
  {
    BlobRead(if c.max.Some? then c.max.value else sp.maxMessage, bs);
  }

  // ------------------------------------------------------------ enums and flags

  /** Each entry of an enum is found by its code and by its name. */
  lemma {:induction false} EnumEntry(values: seq<(string, int)>, k: nat)
    requires DistinctEntries(values) && k < |values|
    ensures NameOf(values, values[k].1) == Some(values[k].0)
    ensures CodeOf(values, values[k].0) == Some(values[k].1)
  {
    var n := values[k].0;
    if k > 0 {
      EnumEntry(values[1..], k - 1);
    } else if CodeOf(values[1..], n).Some? {
      CodeThenName(values[1..], n);
      assert false;
    }
  }

  lemma {:induction false} NameIsListed(values: seq<(string, int)>, code: int) returns (k: nat)
    requires NameOf(values, code).Some?
    ensures k < |values| && values[k] == (NameOf(values, code).value, code)
  {
    if values[0].1 == code {
      k := 0;
    } else {
      k := NameIsListed(values[1..], code);
      k := k + 1;
    }
  }

  /** An enum is refused exactly if no entry has the code; else it is that entry's name. */
  lemma EnumRead(sp: Spec, r: IntTy, values: seq<(string, int)>, c: Cons, code: int, rest: seq<byte>)
    requires DistinctEntries(values) && InRange(r, code)
    ensures var d := Dec(sp, TEnum(r, values), c, EncInt(r, code) + rest);
      && (d == Err(UnknownEnum) <==> forall k :: 0 <= k < |values| ==> values[k].1 != code)
      && (d.Err? ==> d.bad == UnknownEnum)
      && (forall k :: 0 <= k < |values| && values[k].1 == code ==> d == Ok(VStr(values[k].0), rest))
  {
    TakeIntEnc(r, code, rest);
    forall k | 0 <= k < |values| && values[k].1 == code
      ensures NameOf(values, code) == Some(values[k].0)
    {
      EnumEntry(values, k);
    }
    if NameOf(values, code).Some? { var k := NameIsListed(values, code); }
  }

  /** `Bit` is the binary digit of weight 2 to the power k. */
  lemma {:induction false} BitMeaning(v: nat, k: nat)
    ensures Bit(v, k) <==> v / Arith.Two(k) % 2 == 1
  {
    if k == 0 {
      assert v / 1 == v;
    } else {
      BitMeaning(v / 2, k - 1);
      HalfThen(v, Arith.Two(k - 1));
    }
  }

  lemma HalfThen(v: nat, p: nat)
    requires p > 0
    ensures v / (2 * p) == v / 2 / p
  {
    var q, r := v / 2 / p, v / 2 % p;
    assert v / 2 == p * q + r;
    assert v == 2 * (p * q + r) + v % 2;
    assert 2 * (p * q) == (2 * p) * q;
    Arith.DivModIs(v, q, 2 * r + v % 2, 2 * p);
  }

  /** A flags value is refused exactly if it is negative or has a bit that no flag has. */
  lemma FlagsRead(sp: Spec, r: IntTy, bits: seq<nat>, c: Cons, n: int, rest: seq<byte>)
    requires InRange(r, n)
    ensures Dec(sp, TFlags(r, bits), c, EncInt(r, n) + rest)
         == if n >= 0 && AllDeclared(n, bits) then Ok(VInt(n), rest) else Err(UnknownFlag)
  {
    TakeIntEnc(r, n, rest);
    if n >= 0 { FlagsMeaning(n, bits); }
  }

  // ------------------------------------------------------------ arrays

  /** Too many items, counted against the field's limit or else 65535, are refused before any is read. */
  lemma CountRead(sp: Spec, e: Ty, c: Cons, bs: seq<byte>)
    requires |bs| >= 4
    ensures Word32(bs[0], bs[1], bs[2], bs[3]) > (match c.max case Some(x) => x case None => 65535)
        ==> Dec(sp, TArr(e), c, bs) == Err(BadCount)
    ensures Dec(sp, TArr(e), c, bs).Ok? ==>
              && Dec(sp, TArr(e), c, bs).val.VArr?
              && |Dec(sp, TArr(e), c, bs).val.items| == Word32(bs[0], bs[1], bs[2], bs[3])
  {
    IntFromOctets(U32, bs[..4]);
    var n := Word32(bs[0], bs[1], bs[2], bs[3]);
    if Dec(sp, TArr(e), c, bs).Ok? { AsManyItems(sp, e, ItemCons(c), n, bs[4..]); }
  }

  lemma {:induction false} AsManyItems(sp: Spec, e: Ty, c: Cons, n: nat, bs: seq<byte>)
    requires DecItems(sp, e, c, n, bs).Ok?
    ensures |DecItems(sp, e, c, n, bs).val| == n
    decreases n
  {
    if n > 0 { AsManyItems(sp, e, c, n - 1, Dec(sp, e, c, bs).rest); }
  }

  /** Texts of which each keeps the item limit. */
  ghost predicate ShortTexts(sp: Spec, items: seq<Val>, limit: int) {
    forall k :: 0 <= k < |items| ==> items[k].VStr? && |sp.utf8.enc(items[k].s)| <= limit
  }

  /** An item limit other than 0 bounds every text; without one each may have 4096 octets, whatever the array's
      own limit. */
  lemma ItemLimit(sp: Spec, c: Cons, items: seq<Val>, rest: seq<byte>)
    requires Utf8Laws(sp.utf8) && Encodable(sp, TArr(TStr), VArr(items)) && !c.sorted
    requires |items| <= match c.max case Some(x) => x case None => 65535
    ensures var limit := if c.itemmax == None || c.itemmax == Some(0) then 4096 else c.itemmax.value;
      var d := Dec(sp, TArr(TStr), c, Enc(sp, TArr(TStr), VArr(items)) + rest);
      && (ShortTexts(sp, items, limit) ==> d == Ok(VArr(items), rest))
      && (d.Ok? ==> d.val.VArr? && ShortTexts(sp, d.val.items, limit))
  {
    var limit := if c.itemmax == None || c.itemmax == Some(0) then 4096 else c.itemmax.value;
    var bs := Enc(sp, TArr(TStr), VArr(items)) + rest;
    if ShortTexts(sp, items, limit) {
      TextsConform(sp, c, items, limit);
      DecodeEncode(sp, TArr(TStr), c, VArr(items), rest);
    }
    if Dec(sp, TArr(TStr), c, bs).Ok? {
      EncodeDecode(sp, TArr(TStr), c, bs);
      var got := Dec(sp, TArr(TStr), c, bs).val.items;
      forall k | 0 <= k < |got| ensures got[k].VStr? && |sp.utf8.enc(got[k].s)| <= limit {
        ItemConforms(sp, TStr, ItemCons(c), got, k);
      }
    }
  }

  lemma {:induction false} TextsConform(sp: Spec, c: Cons, items: seq<Val>, limit: int)
    requires EncodableItems(sp, TStr, items) && ShortTexts(sp, items, limit)
    requires limit == if c.itemmax == None || c.itemmax == Some(0) then 4096 else c.itemmax.value
    ensures ConformsItems(sp, TStr, ItemCons(c), items)
  {
    if items != [] {
      assert ShortTexts(sp, items[1..], limit);
      TextsConform(sp, c, items[1..], limit);
    }
  }

  /** The bounds and choices of an array's field are not for its items. */
  lemma ItemsUnbounded(sp: Spec, i: IntTy, c: Cons, items: seq<Val>, rest: seq<byte>)
    requires Utf8Laws(sp.utf8) && Encodable(sp, TArr(TInt(i)), VArr(items)) && !c.sorted
    requires |items| <= match c.max case Some(x) => x case None => 65535
    ensures Dec(sp, TArr(TInt(i)), c, Enc(sp, TArr(TInt(i)), VArr(items)) + rest) == Ok(VArr(items), rest)
  {
    IntsConform(sp, i, ItemCons(c), items);
    DecodeEncode(sp, TArr(TInt(i)), c, VArr(items), rest);
  }

  lemma {:induction false} IntsConform(sp: Spec, i: IntTy, c: Cons, items: seq<Val>)
    requires EncodableItems(sp, TInt(i), items) && c.lo.None? && c.hi.None? && c.choices.None?
    ensures ConformsItems(sp, TInt(i), c, items)
  {
    if items != [] { IntsConform(sp, i, c, items[1..]); }
  }

  // ------------------------------------------------------------ one after another

  /** Each item stands behind those before it and ahead of those after it. */
  lemma {:induction false} ItemInPlace(sp: Spec, e: Ty, items: seq<Val>, i: nat)
    requires EncodableItems(sp, e, items) && i < |items|
    ensures EncodableItems(sp, e, items[..i]) && Encodable(sp, e, items[i]) && EncodableItems(sp, e, items[i + 1..])
    ensures EncItems(sp, e, items) == EncItems(sp, e, items[..i]) + Enc(sp, e, items[i]) + EncItems(sp, e, items[i + 1..])
    decreases i
  {
    if i == 0 {
      assert [] + Enc(sp, e, items[0]) + EncItems(sp, e, items[1..]) == EncItems(sp, e, items);
    } else {
      var t := items[1..];
      ItemInPlace(sp, e, t, i - 1);
      assert items[..i][1..] == t[..i - 1] && t[i..] == items[i + 1..];
      ThreeParts(Enc(sp, e, items[0]), EncItems(sp, e, t[..i - 1]), Enc(sp, e, items[i]), EncItems(sp, e, items[i + 1..]));
    }
  }

  lemma ThreeParts(a: seq<byte>, b: seq<byte>, c: seq<byte>, d: seq<byte>)
    ensures a + (b + c + d) == a + b + c + d
  {
  }

  /** And so does each field. */
  lemma {:induction false} FieldInPlace(sp: Spec, fs: seq<Field>, m: map<string, Val>, i: nat)
    requires EncodableFields(sp, fs, m) && i < |fs|
    ensures EncodableFields(sp, fs[..i], m) && EncodableFields(sp, fs[i + 1..], m)
    ensures fs[i].name in m && Encodable(sp, fs[i].t, m[fs[i].name])
    ensures EncFields(sp, fs, m) == EncFields(sp, fs[..i], m) + Enc(sp, fs[i].t, m[fs[i].name]) + EncFields(sp, fs[i + 1..], m)
    decreases i
  {
    if i == 0 {
      assert [] + Enc(sp, fs[0].t, m[fs[0].name]) + EncFields(sp, fs[1..], m) == EncFields(sp, fs, m);
    } else {
      var t := fs[1..];
      FieldInPlace(sp, t, m, i - 1);
      assert fs[..i][1..] == t[..i - 1] && t[i..] == fs[i + 1..];
      ThreeParts(Enc(sp, fs[0].t, m[fs[0].name]), EncFields(sp, t[..i - 1], m), Enc(sp, fs[i].t, m[fs[i].name]),
                 EncFields(sp, fs[i + 1..], m));
    }
  }

  /** A union's tag stands before its fields, and says which variant they are of. */
  lemma TagFirst(sp: Spec, r: IntTy, vs: seq<Variant>, v: Val, k: nat)
    requires Encodable(sp, TUnion(r, vs), v) && DistinctVariants(vs) && k < |vs| && v.m["type"] == VStr(vs[k].name)
    ensures InRange(r, vs[k].tag) && EncodableFields(sp, vs[k].vfields, v.m)
    ensures Enc(sp, TUnion(r, vs), v) == EncInt(r, vs[k].tag) + EncFields(sp, vs[k].vfields, v.m)
  {
    assert VariantNamed(vs, vs[k].name) == k;
  }

  // ------------------------------------------------------------ the order of sorted arrays

  /** The first difference decides, and a proper prefix comes before what it is a prefix of. */
  ghost predicate FirstDifference(a: seq<byte>, b: seq<byte>, k: nat) {
    k <= |a| && k < |b| && a[..k] == b[..k] && (k == |a| || a[k] < b[k])
  }

  lemma DifferenceIsFirst(a: seq<byte>, b: seq<byte>, k: nat)
    ensures FirstDifference(a, b, k) && k > 0 ==> a[0] == b[0]
  {
    if FirstDifference(a, b, k) && k > 0 { assert a[..k][0] == b[..k][0]; }
  }

  ghost predicate Before(a: seq<byte>, b: seq<byte>) {
    exists k: nat :: FirstDifference(a, b, k)
  }

  lemma {:induction false} BytesOrder(a: seq<byte>, b: seq<byte>)
    ensures BytesLess(a, b) <==> Before(a, b)
  {
    if b == [] {
    } else if a == [] || a[0] < b[0] {
      assert FirstDifference(a, b, 0);
    } else if a[0] == b[0] {
      BytesOrder(a[1..], b[1..]);
      if k: nat :| FirstDifference(a[1..], b[1..], k) {
        assert a[..k + 1] == [a[0]] + a[1..][..k] && b[..k + 1] == [b[0]] + b[1..][..k];
        assert FirstDifference(a, b, k + 1);
      }
      if k: nat :| FirstDifference(a, b, k) {
        assert k > 0;
        assert a[1..][..k - 1] == a[..k][1..] && b[1..][..k - 1] == b[..k][1..];
        assert FirstDifference(a[1..], b[1..], k - 1);
      }
    } else {
      forall k: nat { DifferenceIsFirst(a, b, k); }
    }
  }

  lemma {:induction false} BytesLessTransitive(a: seq<byte>, b: seq<byte>, c: seq<byte>)
    requires BytesLess(a, b) && BytesLess(b, c)
    ensures BytesLess(a, c)
  {
    if a != [] && a[0] == b[0] == c[0] { BytesLessTransitive(a[1..], b[1..], c[1..]); }
  }

  lemma KeyLessTransitive(a: Key, b: Key, c: Key)
    requires KeyLess(a, b) && KeyLess(b, c)
    ensures KeyLess(a, c)
  {
    if a.KBytes? { BytesLessTransitive(a.bs, b.bs, c.bs); }
  }

  ghost predicate AllHaveKeys(sp: Spec, t: Ty, items: seq<Val>) {
    forall i :: 0 <= i < |items| ==> SortKey(sp, t, items[i]).Some?
  }

  /** Comparing neighbours compares all. */
  lemma {:induction false} SortedFromTo(sp: Spec, t: Ty, items: seq<Val>, i: nat, j: nat)
    requires SortedItems(sp, t, items) && i < j < |items|
    ensures KeyLess(SortKey(sp, t, items[i]).value, SortKey(sp, t, items[j]).value)
    decreases j
  {
    if i < j - 1 {
      SortedFromTo(sp, t, items, i, j - 1);
      var a, b, c := SortKey(sp, t, items[i]).value, SortKey(sp, t, items[j - 1]).value, SortKey(sp, t, items[j]).value;
      KeyLessTransitive(a, b, c);
    }
  }

  /** `x` is of a variant with a smaller tag than `y`'s. */
  ghost predicate TagBelow(vs: seq<Variant>, x: Val, y: Val) {
    && x.VDict? && "type" in x.m && y.VDict? && "type" in y.m
    && exists a, b :: 0 <= a < |vs| && 0 <= b < |vs|
                   && x.m["type"] == VStr(vs[a].name) && y.m["type"] == VStr(vs[b].name) && vs[a].tag < vs[b].tag
  }

  /** `x` comes before `y`: integers by value, false before true, text by its UTF-8 bytes, bytes. */
  ghost predicate ScalarBelow(sp: Spec, x: Val, y: Val) {
    match (x, y)
    case (VInt(a), VInt(b)) => a < b
    case (VBool(a), VBool(b)) => !a && b
    case (VStr(a), VStr(b)) => Before(sp.utf8.enc(a), sp.utf8.enc(b))
    case (VBytes(a), VBytes(b)) => Before(a, b)
    case _ => false
  }

  /** `x` comes before `y` in a sorted array of `t`: by variant tag, or by the struct's first field. */
  ghost predicate Precedes(sp: Spec, t: Ty, x: Val, y: Val) {
    match t
    case TUnion(_, vs) => TagBelow(vs, x, y)
    case TStruct(fs) =>
      && fs != [] && x.VDict? && y.VDict? && fs[0].name in x.m && fs[0].name in y.m
      && ScalarBelow(sp, x.m[fs[0].name], y.m[fs[0].name])
    case _ => false
  }

  ghost predicate Increasing(sp: Spec, t: Ty, items: seq<Val>) {
    forall i, j :: 0 <= i < j < |items| ==> Precedes(sp, t, items[i], items[j])
  }

  lemma UnionOrder(sp: Spec, t: Ty, x: Val, y: Val)
    requires t.TUnion? && WfTy(t) && SortKey(sp, t, x).Some? && SortKey(sp, t, y).Some?
    ensures KeyLess(SortKey(sp, t, x).value, SortKey(sp, t, y).value) <==> TagBelow(t.variants, x, y)
  {
    var vs := t.variants;
    var a, b := VariantNamed(vs, x.m["type"].s), VariantNamed(vs, y.m["type"].s);
    assert x.m["type"] == VStr(vs[a].name) && y.m["type"] == VStr(vs[b].name);
  }

  lemma StructOrder(sp: Spec, t: Ty, c: Cons, x: Val, y: Val)
    requires t.TStruct? && Sortable(t) && Conforms(sp, t, c, x) && Conforms(sp, t, c, y)
    requires SortKey(sp, t, x).Some? && SortKey(sp, t, y).Some?
    ensures KeyLess(SortKey(sp, t, x).value, SortKey(sp, t, y).value) <==> Precedes(sp, t, x, y)
  {
    FieldConforms(sp, t.fields, x.m, 0);
    FieldConforms(sp, t.fields, y.m, 0);
    var p, q := x.m[t.fields[0].name], y.m[t.fields[0].name];
    if p.VStr? && q.VStr? { BytesOrder(sp.utf8.enc(p.s), sp.utf8.enc(q.s)); }
    if p.VBytes? && q.VBytes? { BytesOrder(p.raw, q.raw); }
  }

  lemma ItemOrder(sp: Spec, t: Ty, c: Cons, x: Val, y: Val)
    requires WfTy(t) && Sortable(t) && Conforms(sp, t, c, x) && Conforms(sp, t, c, y)
    ensures SortKey(sp, t, x).Some? && SortKey(sp, t, y).Some?
    ensures KeyLess(SortKey(sp, t, x).value, SortKey(sp, t, y).value) <==> Precedes(sp, t, x, y)
  {
    SortKeyDefined(sp, t, c, x);
    SortKeyDefined(sp, t, c, y);
    if t.TUnion? { UnionOrder(sp, t, x, y); } else { StructOrder(sp, t, c, x, y); }
  }

  lemma SortedMeans(sp: Spec, t: Ty, c: Cons, items: seq<Val>)
    requires WfTy(t) && Sortable(t) && ConformsItems(sp, t, c, items)
    ensures SortedItems(sp, t, items) <==> Increasing(sp, t, items)
  {
    forall i | 0 <= i < |items| ensures Conforms(sp, t, c, items[i]) { ItemConforms(sp, t, c, items, i); }
    if SortedItems(sp, t, items) {
      forall i, j | 0 <= i < j < |items| ensures Precedes(sp, t, items[i], items[j]) {
        SortedFromTo(sp, t, items, i, j);
        ItemOrder(sp, t, c, items[i], items[j]);
      }
    }
    if Increasing(sp, t, items) {
      forall i | 0 <= i < |items| ensures SortKey(sp, t, items[i]).Some? { SortKeyDefined(sp, t, c, items[i]); }
      forall i | 0 < i < |items|
        ensures KeyLess(SortKey(sp, t, items[i - 1]).value, SortKey(sp, t, items[i]).value)
      {
        assert Precedes(sp, t, items[i - 1], items[i]);
        ItemOrder(sp, t, c, items[i - 1], items[i]);
      }
    }
  }

  /** What `sorted` adds: a buffer that decodes as an unsorted array is refused exactly if some item does not
      precede every later one, and nothing else changes. */
  lemma SortedRead(sp: Spec, t: Ty, c: Cons, bs: seq<byte>)
    requires Utf8Laws(sp.utf8) && WfTy(t) && Sortable(t) && c.sorted
    ensures var plain := Dec(sp, TArr(t), c.(sorted := false), bs);
      Dec(sp, TArr(t), c, bs) ==
        if plain.Ok? && plain.val.VArr? && !Increasing(sp, t, plain.val.items) then Err(NotSorted) else plain
  {
    var plain := Dec(sp, TArr(t), c.(sorted := false), bs);
    assert ItemCons(c.(sorted := false)) == ItemCons(c);
    if plain.Ok? {
      EncodeDecode(sp, TArr(t), c.(sorted := false), bs);
      SortedMeans(sp, t, ItemCons(c), plain.val.items);
    }
  }

  // ------------------------------------------------------------ validated variants

  /** A validated variant that decodes is refused exactly if some property is not one of its kind's. */
  lemma PropsRead(sp: Spec, r: IntTy, vs: seq<Variant>, k: nat, c: Cons, body: seq<byte>)
    requires Utf8Laws(sp.utf8) && WfTy(TUnion(r, vs)) && k < |vs| && vs[k].nodeProps && HasNodeProps(sp, vs[k].vfields)
    requires DecFields(sp, vs[k].vfields, body).Ok?
    ensures var d := Dec(sp, TUnion(r, vs), c, EncInt(r, vs[k].tag) + body);
      var m := DecFields(sp, vs[k].vfields, body).val;
      && PropsReadable(sp, m)
      && var kind, props := m["kind"].s, m["props"].items;
         && (d == Err(PropNotAllowed) <==> exists x :: 0 <= x < |props| && props[x].m["type"].s !in sp.nodeProps[kind])
         && (d.Err? ==> d.bad == PropNotAllowed)
  {
    TakeIntEnc(r, vs[k].tag, body);
    assert VariantTagged(vs, vs[k].tag) == k;
    ValidatedVariantIsReadable(sp, vs[k].vfields, body);
    EncodeDecodeFields(sp, vs[k].vfields, body);
    var m := DecFields(sp, vs[k].vfields, body).val;
    var whole := map["type" := VStr(vs[k].name)] + m;
    assert whole["kind"] == m["kind"] && whole["props"] == m["props"];
  }

  // ------------------------------------------------------------ the smallest values

  /** Every enum has an entry, at every depth. */
  predicate Inhabited(t: Ty)
    decreases t, 0
  {
    match t
    case TEnum(_, values) => values != []
    case TStruct(fs) => InhabitedFields(fs)
    case TUnion(_, vs) => forall i :: 0 <= i < |vs| ==> InhabitedFields(vs[i].vfields)
    case _ => true
  }

  predicate InhabitedFields(fs: seq<Field>)
    decreases fs, 0
  {
    forall i :: 0 <= i < |fs| ==> Inhabited(fs[i].t)
  }

  /** Text and bytes can be empty, so the guard's minimum is reached: no larger one would be safe, and none is smaller
      than it need be. */
  lemma {:induction false} MinSizeIsReached(sp: Spec, t: Ty) returns (v: Val)
    requires Utf8Laws(sp.utf8) && sp.utf8.dec([]).Some? && WfTy(t) && Inhabited(t)
    ensures Encodable(sp, t, v) && |Enc(sp, t, v)| == MinSize(t)
    decreases t, 0
  {
    match t
    case TInt(i) => v := VInt(0);
    case TBool => v := VBool(false);
    case TStr =>
      v := VStr(sp.utf8.dec([]).value);
      assert sp.utf8.enc(v.s) == [];
    case TBytes => v := VBytes([]);
    case TEnum(r, values) =>
      v := VStr(values[0].0);
      EnumEntry(values, 0);
    case TFlags(_, _) => v := VInt(0);
    case TArr(_) => v := VArr([]);
    case TStruct(fs) =>
      var m := MinSizeOfFields(sp, fs);
      v := VDict(m);
    case TUnion(r, vs) =>
      var k := SmallestVariant(vs);
      var m := MinSizeOfFields(sp, vs[k].vfields);
      var m' := m["type" := VStr(vs[k].name)];
      EncodableFrame(sp, vs[k].vfields, m, m');
      assert VariantNamed(vs, vs[k].name) == k;
      v := VDict(m');
  }

  lemma {:induction false} SmallestVariant(vs: seq<Variant>) returns (k: nat)
    requires vs != []
    ensures k < |vs| && MinSizeVariants(vs) == MinSizeFields(vs[k].vfields)
  {
    if |vs| == 1 || MinSizeFields(vs[0].vfields) <= MinSizeVariants(vs[1..]) {
      k := 0;
    } else {
      k := SmallestVariant(vs[1..]);
      k := k + 1;
    }
  }

  lemma {:induction false} EncodableFrame(sp: Spec, fs: seq<Field>, m: map<string, Val>, m': map<string, Val>)
    requires forall n :: n in Names(fs) ==> n in m && n in m' && m[n] == m'[n]
    requires EncodableFields(sp, fs, m)
    ensures EncodableFields(sp, fs, m') && EncFields(sp, fs, m') == EncFields(sp, fs, m)
  {
    if fs != [] { EncodableFrame(sp, fs[1..], m, m'); }
  }

  lemma {:induction false} MinSizeOfFields(sp: Spec, fs: seq<Field>) returns (m: map<string, Val>)
    requires Utf8Laws(sp.utf8) && sp.utf8.dec([]).Some? && WfFields(fs) && InhabitedFields(fs) && DistinctFields(fs)
    ensures m.Keys == Names(fs) && EncodableFields(sp, fs, m) && |EncFields(sp, fs, m)| == MinSizeFields(fs)
    decreases fs, 0
  {
    if fs == [] {
      m := map[];
    } else {
      var v := MinSizeIsReached(sp, fs[0].t);
      var rest := MinSizeOfFields(sp, fs[1..]);
      NotNamedLater(fs);
      m := rest[fs[0].name := v];
      EncodableFrame(sp, fs[1..], rest, m);
    }
  }
}
