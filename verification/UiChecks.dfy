/** The decoder's own look-ups never fail: if in a well-formed contract only sortable types are sorted and validated
    variants have the fields that the validation reads, it refuses a buffer or decodes it, nothing else. */
module UiChecks {
  import opened Prelude
  import opened Wire
  import opened UiSchema
  import opened UiCodec

  lemma {:induction false} ItemConforms(sp: Spec, e: Ty, c: Cons, items: seq<Val>, i: nat)
    requires ConformsItems(sp, e, c, items) && i < |items|
    ensures Conforms(sp, e, c, items[i])
    decreases i
  {
    if i > 0 { ItemConforms(sp, e, c, items[1..], i - 1); }
  }

  lemma {:induction false} FieldConforms(sp: Spec, fs: seq<Field>, m: map<string, Val>, i: nat)
    requires ConformsFields(sp, fs, m) && i < |fs|
    ensures fs[i].name in m && Conforms(sp, fs[i].t, fs[i].cons, m[fs[i].name])
    decreases i
  {
    if i > 0 { FieldConforms(sp, fs[1..], m, i - 1); }
  }

  /** What `sorted` may be put on: unions, and structs that start with a scalar. */
  predicate Sortable(t: Ty) {
    t.TUnion? || (t.TStruct? && t.fields != [] && !t.fields[0].t.TArr? && !t.fields[0].t.TStruct? && !t.fields[0].t.TUnion?)
  }

  /** A value that meets its type has a sort key, if the type may be sorted. */
  lemma SortKeyDefined(sp: Spec, t: Ty, c: Cons, v: Val)
    requires Sortable(t) && Conforms(sp, t, c, v)
    ensures SortKey(sp, t, v).Some?
  {
    if t.TStruct? { FieldConforms(sp, t.fields, v.m, 0); }
  }

  /** Every item decoded for a sorted array has a sort key. */
  lemma SortedArrayHasKeys(sp: Spec, e: Ty, c: Cons, n: nat, bs: seq<byte>)
    requires Utf8Laws(sp.utf8) && WfTy(e) && Sortable(e) && DecItems(sp, e, c, n, bs).Ok?
    ensures forall i :: 0 <= i < |DecItems(sp, e, c, n, bs).val| ==> SortKey(sp, e, DecItems(sp, e, c, n, bs).val[i]).Some?
  {
    var items := DecItems(sp, e, c, n, bs).val;
    EncodeDecodeItems(sp, e, c, n, bs);
    forall i | 0 <= i < |items| ensures SortKey(sp, e, items[i]).Some? {
      ItemConforms(sp, e, c, items, i);
      SortKeyDefined(sp, e, c, items[i]);
    }
  }

  /** A validated variant has the two fields the validation reads, and every kind is listed. */
  predicate HasNodeProps(sp: Spec, fs: seq<Field>) {
    && (exists i :: 0 <= i < |fs| && fs[i].name == "kind" && fs[i].t.TEnum?
          && forall j :: 0 <= j < |fs[i].t.values| ==> fs[i].t.values[j].0 in sp.nodeProps)
    && (exists i :: 0 <= i < |fs| && fs[i].name == "props" && fs[i].t.TArr? && fs[i].t.elem.TUnion?)
  }

  /** What the validation of a created node looks up. */
  predicate PropsReadable(sp: Spec, m: map<string, Val>) {
    && "kind" in m && m["kind"].VStr? && m["kind"].s in sp.nodeProps
    && "props" in m && m["props"].VArr?
    && forall i :: 0 <= i < |m["props"].items| ==>
         var p := m["props"].items[i]; p.VDict? && "type" in p.m && p.m["type"].VStr?
  }

  lemma {:induction false} CodeMeansListed(values: seq<(string, int)>, n: string) returns (j: nat)
    requires CodeOf(values, n).Some?
    ensures j < |values| && values[j].0 == n
  {
    if CodeOf(values[1..], n).Some? {
      j := CodeMeansListed(values[1..], n);
      j := j + 1;
    } else {
      j := 0;
    }
  }

  /** Decoding the fields of a validated variant gives everything the validation reads. */
  lemma ValidatedVariantIsReadable(sp: Spec, fs: seq<Field>, bs: seq<byte>)
    requires Utf8Laws(sp.utf8) && WfFields(fs) && DistinctFields(fs) && HasNodeProps(sp, fs)
    requires DecFields(sp, fs, bs).Ok?
    ensures PropsReadable(sp, DecFields(sp, fs, bs).val)
  {
    var m := DecFields(sp, fs, bs).val;
    EncodeDecodeFields(sp, fs, bs);
    var i :| 0 <= i < |fs| && fs[i].name == "kind" && fs[i].t.TEnum?
             && forall j :: 0 <= j < |fs[i].t.values| ==> fs[i].t.values[j].0 in sp.nodeProps;
    FieldConforms(sp, fs, m, i);
    var j := CodeMeansListed(fs[i].t.values, m["kind"].s);
    var k :| 0 <= k < |fs| && fs[k].name == "props" && fs[k].t.TArr? && fs[k].t.elem.TUnion?;
    FieldConforms(sp, fs, m, k);
    var items := m["props"].items;
    forall x | 0 <= x < |items| ensures items[x].VDict? && "type" in items[x].m && items[x].m["type"].VStr? {
      ItemConforms(sp, fs[k].t.elem, ItemCons(fs[k].cons), items, x);
    }
  }
}
