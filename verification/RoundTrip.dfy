/** Unmarshalling inverts marshalling, whatever follows the encoding. */
module RoundTrip {
  import opened Bytes
  import opened Packing
  import opened Ordered
  import opened Wire
  import opened Marshal
  import opened Unmarshal
  import opened Canonical

  /** The next bytes to be read are data. */
  predicate At(s: PState, data: bytes) {
    && Reading(s) && s.off + |data| <= |s.buf| && |s.buf| <= USIZE_MAX
    && s.buf[s.off..s.off + |data|] == data
  }

  function Skip(s: PState, data: bytes): PState {
    s.(off := s.off + |data|)
  }

  lemma AtSplit(s: PState, a: bytes, b: bytes)
    requires At(s, a + b)
    ensures At(s, a) && At(Skip(s, a), b) && Skip(Skip(s, a), b) == Skip(s, a + b)
  {
    var w := s.buf[s.off..s.off + |a + b|];
    assert w[..|a|] == s.buf[s.off..s.off + |a|] && w[|a|..] == s.buf[s.off + |a|..s.off + |a| + |b|];
    assert (a + b)[..|a|] == a && (a + b)[|a|..] == b;
  }

  lemma TakeAt(s: PState, data: bytes)
    requires At(s, data)
    ensures Take(s, |data|) == (data, Skip(s, data))
  {
  }

  lemma TakeIntAt(s: PState, v: nat, n: nat)
    requires v < Pow256(n) && At(s, BE(v, n))
    ensures TakeInt(s, n) == (v, Skip(s, BE(v, n)))
  {
    TakeAt(s, BE(v, n));
    BERoundTrip(v, n);
  }

  // ----- a map's entries in wire order -----

  function InsertByKey(less: Order, ty: Ty, e: (Val, Val), es: seq<(Val, Val)>): (r: seq<(Val, Val)>)
    requires ty.Map? && EntriesTyped(less, ty, es) && HasType(less, ty.key, e.0) && HasType(less, ty.val, e.1)
    ensures EntriesTyped(less, ty, r)
    ensures forall x :: x in r <==> x == e || x in es
  {
    if es == [] then [e]
    else if Lt(Enc(less, ty.key, e.0), Enc(less, ty.key, es[0].0)) then [e] + es
    else [es[0]] + InsertByKey(less, ty, e, es[1..])
  }

  function SortByKey(less: Order, ty: Ty, es: seq<(Val, Val)>): (r: seq<(Val, Val)>)
    requires ty.Map? && EntriesTyped(less, ty, es)
    ensures EntriesTyped(less, ty, r)
    ensures forall x :: x in r <==> x in es
  {
    if es == [] then []
    else
      var n := |es| - 1;
      assert es == es[..n] + [es[n]];
      InsertByKey(less, ty, es[n], SortByKey(less, ty, es[..n]))
  }

  lemma {:induction false} InsertByKeyKeys(less: Order, ty: Ty, e: (Val, Val), es: seq<(Val, Val)>)
    requires ty.Map? && EntriesTyped(less, ty, es) && HasType(less, ty.key, e.0) && HasType(less, ty.val, e.1)
    ensures KeyAll(less, ty, InsertByKey(less, ty, e, es))
         == InsertKeyed((Enc(less, ty.key, e.0), e.1), KeyAll(less, ty, es))
    decreases |es|
  {
    if es == [] {
      KeyAllCons(less, ty, e, []);
      assert [e] + [] == [e];
    } else {
      assert es == [es[0]] + es[1..];
      KeyAllCons(less, ty, es[0], es[1..]);
      if Lt(Enc(less, ty.key, e.0), Enc(less, ty.key, es[0].0)) {
        KeyAllCons(less, ty, e, es);
      } else {
        InsertByKeyKeys(less, ty, e, es[1..]);
        KeyAllCons(less, ty, es[0], InsertByKey(less, ty, e, es[1..]));
        assert KeyAll(less, ty, es)[1..] == KeyAll(less, ty, es[1..]);
      }
    }
  }

  lemma {:induction false} SortByKeyKeys(less: Order, ty: Ty, es: seq<(Val, Val)>)
    requires ty.Map? && EntriesTyped(less, ty, es)
    ensures KeyAll(less, ty, SortByKey(less, ty, es)) == SortKeyed(KeyAll(less, ty, es))
  {
    if es != [] {
      var n := |es| - 1;
      SortByKeyKeys(less, ty, es[..n]);
      InsertByKeyKeys(less, ty, es[n], SortByKey(less, ty, es[..n]));
      var ks := KeyAll(less, ty, es);
      assert ks[..n] == KeyAll(less, ty, es[..n]);
    }
  }

  // ----- the round trip -----

  /** Reading at the encoding of a value yields the value and stops right behind it. */
  lemma {:induction false} DecodeInvertsEncode(less: Order, ty: Ty, v: Val, s: PState)
    requires KeyOrder(less) && DistinctIds(ty) && HasType(less, ty, v) && Decodable(less, ty, v)
    requires At(s, Enc(less, ty, v))
    ensures Get(less, ty, s) == (Some(v), Skip(s, Enc(less, ty, v)))
    decreases ty, 1, 0
  {
    hide Get, Enc, HasType, Decodable;
    match ty
    case Vec(elem) => VecInverts(less, ty, v, s);
    case Map(key, val) => MapInverts(less, ty, v, s);
    case Struct(fields) => RecordInverts(less, ty, v, s);
    case Enum(variants) => VariantInverts(less, ty, v, s);
    case _ => PlainInverts(less, ty, v, s);
  }

  lemma PlainInverts(less: Order, ty: Ty, v: Val, s: PState)
    requires KeyOrder(less) && HasType(less, ty, v) && Decodable(less, ty, v) && At(s, Enc(less, ty, v))
    requires !ty.Vec? && !ty.Map? && !ty.Struct? && !ty.Enum?
    ensures Get(less, ty, s) == (Some(v), Skip(s, Enc(less, ty, v)))
  {
    if IsInt(ty) {
      TakeIntAt(s, v.num, Width(ty));
    } else {
      match ty
      case Bool =>
        TakeAt(s, Enc(less, ty, v));
        assert FromBE([if v.flag then 1 else 0]) == 256 * FromBE([]) + (if v.flag then 1 else 0);
      case Str => StrInverts(v.utf8, s);
      case Fixed(n) => TakeAt(s, v.data);
    }
  }

  lemma RecordInverts(less: Order, ty: Ty, v: Val, s: PState)
    requires KeyOrder(less) && ty.Struct? && DistinctIds(ty) && HasType(less, ty, v) && Decodable(less, ty, v)
    requires At(s, Enc(less, ty, v))
    ensures Get(less, ty, s) == (Some(v), Skip(s, Enc(less, ty, v)))
    decreases ty, 0, |v.values| + 1
  {
    hide GetFields, EncFields, HasType, Decodable, FieldsRead;
    RecordTyped(less, ty, v);
    RecordReads(less, ty, v);
    FieldsInvert(less, ty, v.values, s);
  }

  lemma RecordReads(less: Order, ty: Ty, v: Val)
    requires ty.Struct? && HasType(less, ty, v) && v.Record? && FieldsTyped(less, ty, v.values)
    ensures Enc(less, ty, v) == EncFields(less, ty, v.values) && |v.values| == |ty.fields|
    ensures Decodable(less, ty, v) ==> FieldsRead(less, ty, v.values)
  {
    hide EncFields;
    var k := |ty.fields| - |v.values|;
    assert k == 0;
    if Decodable(less, ty, v) {
      forall i | 0 <= i < |v.values| ensures Decodable(less, ty.fields[k + i], v.values[i]) {
        assert Decodable(less, ty.fields[i], v.values[i]);
      }
    }
  }

  lemma StrInverts(raw: bytes, s: PState)
    requires |raw| <= MAX_STRING_LEN && ValidUtf8(raw) && At(s, BE(|raw|, 2) + raw)
    ensures StrTaken(s) == (raw, Skip(s, BE(|raw|, 2) + raw))
  {
    Pow256Values();
    AtSplit(s, BE(|raw|, 2), raw);
    TakeIntAt(s, |raw|, 2);
    TakeAt(Skip(s, BE(|raw|, 2)), raw);
  }

  lemma VecInverts(less: Order, ty: Ty, v: Val, s: PState)
    requires KeyOrder(less) && ty.Vec? && DistinctIds(ty) && HasType(less, ty, v) && Decodable(less, ty, v)
    requires At(s, Enc(less, ty, v))
    ensures Get(less, ty, s) == (Some(v), Skip(s, Enc(less, ty, v)))
    decreases ty, 0, |v.elems| + 1
  {
    Pow256Values();
    AtSplit(s, BE(|v.elems|, 4), EncElems(less, ty, v.elems));
    TakeIntAt(s, |v.elems|, 4);
    ElemsInvert(less, ty, v.elems, Skip(s, BE(|v.elems|, 4)));
  }

  lemma VariantInverts(less: Order, ty: Ty, v: Val, s: PState)
    requires KeyOrder(less) && ty.Enum? && DistinctIds(ty) && HasType(less, ty, v) && Decodable(less, ty, v)
    requires At(s, Enc(less, ty, v))
    ensures Get(less, ty, s) == (Some(v), Skip(s, Enc(less, ty, v)))
    decreases ty, 0, 0
  {
    Pow256Values();
    var (id, t) := ty.variants[v.variant];
    AtSplit(s, BE(id, 4), Enc(less, t, v.payload));
    TakeIntAt(s, id, 4);
    DecodeInvertsEncode(less, t, v.payload, Skip(s, BE(id, 4)));
  }

  lemma {:induction false} ElemsInvert(less: Order, ty: Ty, vs: seq<Val>, s: PState)
    requires KeyOrder(less) && ty.Vec? && DistinctIds(ty)
    requires forall i :: 0 <= i < |vs| ==> HasType(less, ty.elem, vs[i])
    requires ElemsRead(less, ty, vs) && At(s, EncElems(less, ty, vs))
    ensures GetElems(less, ty, |vs|, s) == (Some(vs), Skip(s, EncElems(less, ty, vs)))
    decreases ty, 0, |vs|
  {
    hide Get;
    if vs != [] {
      var e := Enc(less, ty.elem, vs[0]);
      AtSplit(s, e, EncElems(less, ty, vs[1..]));
      DecodeInvertsEncode(less, ty.elem, vs[0], s);
      ElemsInvert(less, ty, vs[1..], Skip(s, e));
      assert vs == [vs[0]] + vs[1..];
    }
  }

  lemma FieldLoopTurns(less: Order, ty: Ty, s: PState, vs: seq<Val>, s1: PState)
    requires KeyOrder(less) && ty.Struct? && 0 < |vs| <= |ty.fields|
    requires Get(less, ty.fields[|ty.fields| - |vs|], s) == (Some(vs[0]), s1)
    requires GetFields(less, ty, |vs| - 1, s1).0 == Some(vs[1..])
    ensures GetFields(less, ty, |vs|, s) == (Some(vs), GetFields(less, ty, |vs| - 1, s1).1)
  {
    hide Get, HasType;
    assert vs == [vs[0]] + vs[1..];
  }

  lemma FieldsReadSplit(less: Order, ty: Ty, vs: seq<Val>)
    requires ty.Struct? && FieldsTyped(less, ty, vs) && vs != [] && FieldsRead(less, ty, vs)
    ensures FieldsTyped(less, ty, vs[1..]) && FieldsRead(less, ty, vs[1..])
    ensures Decodable(less, ty.fields[|ty.fields| - |vs|], vs[0])
  {
    hide HasType, Decodable;
    var k := |ty.fields| - |vs|;
    assert HasType(less, ty.fields[k + 0], vs[0]) && Decodable(less, ty.fields[k + 0], vs[0]);
    forall i | 0 <= i < |vs[1..]|
      ensures HasType(less, ty.fields[k + 1 + i], vs[1..][i]) && Decodable(less, ty.fields[k + 1 + i], vs[1..][i])
    {
      assert HasType(less, ty.fields[k + (i + 1)], vs[i + 1]) && Decodable(less, ty.fields[k + (i + 1)], vs[i + 1]);
    }
  }

  lemma NoFieldsRead(less: Order, ty: Ty, s: PState)
    requires KeyOrder(less) && ty.Struct? && s.err.None?
    ensures GetFields(less, ty, 0, s) == (Some([]), s)
  {
  }

  lemma {:induction false} FieldsInvert(less: Order, ty: Ty, vs: seq<Val>, s: PState)
    requires KeyOrder(less) && ty.Struct? && DistinctIds(ty) && FieldsTyped(less, ty, vs)
    requires FieldsRead(less, ty, vs) && At(s, EncFields(less, ty, vs))
    ensures GetFields(less, ty, |vs|, s) == (Some(vs), Skip(s, EncFields(less, ty, vs)))
    decreases ty, 0, |vs|
  {
    hide Get, GetFields, Enc, HasType, Decodable, FieldsRead;
    if vs == [] {
      NoFieldsRead(less, ty, s);
    } else {
      var f := ty.fields[|ty.fields| - |vs|];
      FieldsReadSplit(less, ty, vs);
      AtSplit(s, Enc(less, f, vs[0]), EncFields(less, ty, vs[1..]));
      DecodeInvertsEncode(less, f, vs[0], s);
      FieldsInvert(less, ty, vs[1..], Skip(s, Enc(less, f, vs[0])));
      FieldLoopTurns(less, ty, s, vs, Skip(s, Enc(less, f, vs[0])));
    }
  }

  /** Different keys have different bytes: both are what decoding those bytes yields. */
  lemma EncInjective(less: Order, ty: Ty, a: Val, b: Val)
    requires KeyOrder(less) && DistinctIds(ty)
    requires HasType(less, ty, a) && Decodable(less, ty, a) && HasType(less, ty, b) && Decodable(less, ty, b)
    requires Enc(less, ty, a) == Enc(less, ty, b) && |Enc(less, ty, a)| <= USIZE_MAX
    ensures a == b
    decreases ty, 2, 0
  {
    hide Get, Enc, HasType, Decodable;
    var s := NewRead(Enc(less, ty, a));
    DecodeInvertsEncode(less, ty, a, s);
    DecodeInvertsEncode(less, ty, b, s);
  }

  lemma MapKeysDistinct(less: Order, ty: Ty, v: Val)
    requires KeyOrder(less) && ty.Map? && DistinctIds(ty) && HasType(less, ty, v) && Decodable(less, ty, v)
    requires |Enc(less, ty, v)| <= USIZE_MAX
    ensures DistinctKeys(KeyAll(less, ty, v.entries))
    decreases ty, 0, 0
  {
    var es, ks := v.entries, KeyAll(less, ty, v.entries);
    SortKeepsLength(less, ty, ks);
    forall i, j | 0 <= i < j < |ks| ensures ks[i].0 != ks[j].0 {
      KeyAllAt(less, ty, es, i);
      KeyAllAt(less, ty, es, j);
      KeyFits(less, ty, ks, i);
      assert less(es[i].0, es[j].0);
      EncodableIff(less, ty.key, es[i].0);
      EncodableIff(less, ty.key, es[j].0);
      if ks[i].0 == ks[j].0 { EncInjective(less, ty.key, es[i].0, es[j].0); }
    }
  }

  /** One entry, read at its bytes. */
  lemma EntryInverts(less: Order, ty: Ty, k: Val, v: Val, s: PState, prev: Option<bytes>)
    requires KeyOrder(less) && ty.Map? && DistinctIds(ty)
    requires HasType(less, ty.key, k) && HasType(less, ty.val, v)
    requires Encodable(less, ty.key, k) && Decodable(less, ty.val, v)
    requires At(s, Enc(less, ty.key, k) + Enc(less, ty.val, v))
    requires prev.Some? ==> Lt(prev.value, Enc(less, ty.key, k))
    ensures var kb, vb := Enc(less, ty.key, k), Enc(less, ty.val, v);
            && Get(less, ty.key, s) == (Some(k), Skip(s, kb))
            && KeyState(less, ty.key, k).buf == kb
            && !(prev.Some? && Le(kb, prev.value))
            && Get(less, ty.val, Skip(s, kb)) == (Some(v), Skip(s, kb + vb))
    decreases ty, 0, 0, 0
  {
    var kb, vb := Enc(less, ty.key, k), Enc(less, ty.val, v);
    AtSplit(s, kb, vb);
    EncodableIff(less, ty.key, k);
    DecodeInvertsEncode(less, ty.key, k, s);
    KeyStateWrites(less, ty.key, k);
    if prev.Some? { LtAsymmetric(prev.value, kb); }
    DecodeInvertsEncode(less, ty.val, v, Skip(s, kb));
  }

  /** One turn of the entry loop. */
  lemma EntryLoopTurns(less: Order, ty: Ty, n: nat, s: PState, prev: Option<bytes>, out: seq<(Val, Val)>,
                       k: Val, v: Val, s1: PState, s2: PState, kb: bytes)
    requires KeyOrder(less) && ty.Map? && s.err.None? && DictTyped(less, ty, out) && n > 0
    requires Get(less, ty.key, s) == (Some(k), s1) && KeyState(less, ty.key, k).buf == kb
    requires !(prev.Some? && Le(kb, prev.value)) && Get(less, ty.val, s1) == (Some(v), s2)
    requires DictTyped(less, ty, InsertEntry(less, out, k, v))
    ensures GetEntries(less, ty, n, s, prev, out)
         == GetEntries(less, ty, n - 1, s2, Some(kb), InsertEntry(less, out, k, v))
  {
  }

  /** The first turn over a wire order, and what is left to read. */
  lemma FirstEntryInverts(
    less: Order, ty: Ty, ws: seq<(Val, Val)>, s: PState, prev: Option<bytes>, out: seq<(Val, Val)>)
    returns (kb: bytes, s2: PState, out': seq<(Val, Val)>)
    requires KeyOrder(less) && ty.Map? && DistinctIds(ty) && ws != []
    requires WireOrder(less, ty, ws) && Above(less, ty, prev, ws) && ValuesRead(less, ty, ws)
    requires DictTyped(less, ty, out) && Below(less, ty, out, prev)
    requires At(s, EncKeyed(less, ty, KeyAll(less, ty, ws)))
    ensures WireOrder(less, ty, ws[1..]) && Above(less, ty, Some(kb), ws[1..]) && ValuesRead(less, ty, ws[1..])
    ensures DictTyped(less, ty, out') && Below(less, ty, out', Some(kb))
    ensures forall e :: e in out' <==> e == ws[0] || e in out
    ensures At(s2, EncKeyed(less, ty, KeyAll(less, ty, ws[1..])))
    ensures Skip(s2, EncKeyed(less, ty, KeyAll(less, ty, ws[1..]))) == Skip(s, EncKeyed(less, ty, KeyAll(less, ty, ws)))
    ensures GetEntries(less, ty, |ws|, s, prev, out) == GetEntries(less, ty, |ws| - 1, s2, Some(kb), out')
    decreases ty, 0, 0, 1
  {
    hide Get, GetEntries, KeyState, Enc, EncKeyed, KeyAll, HasType, Encodable, Decodable, InsertEntry, Le, Lt, Below;
    var (k, v) := ws[0];
    kb := Enc(less, ty.key, k);
    var vb := Enc(less, ty.val, v);
    WireTail(less, ty, ws);
    AtSplit(s, kb + vb, EncKeyed(less, ty, KeyAll(less, ty, ws[1..])));
    EntryInverts(less, ty, k, v, s, prev);
    BelowNext(less, ty, out, prev, k, v, kb);
    s2, out' := Skip(s, kb + vb), InsertEntry(less, out, k, v);
    EntryLoopTurns(less, ty, |ws|, s, prev, out, k, v, Skip(s, kb), s2, kb);
  }

  lemma {:induction false} EntriesInvert(
    less: Order, ty: Ty, ws: seq<(Val, Val)>, s: PState, prev: Option<bytes>, out: seq<(Val, Val)>)
    requires KeyOrder(less) && ty.Map? && DistinctIds(ty)
    requires WireOrder(less, ty, ws) && Above(less, ty, prev, ws) && ValuesRead(less, ty, ws)
    requires DictTyped(less, ty, out) && Below(less, ty, out, prev)
    requires At(s, EncKeyed(less, ty, KeyAll(less, ty, ws)))
    ensures var (es, s') := GetEntries(less, ty, |ws|, s, prev, out);
            && es.Some? && s' == Skip(s, EncKeyed(less, ty, KeyAll(less, ty, ws)))
            && (forall e :: e in es.value <==> e in out || e in ws)
    decreases ty, 0, |ws|
  {
    hide GetEntries, Enc, HasType, WireOrder, Above, Below, KeysSorted, ValuesRead;
    if ws == [] {
      NoEntries(less, ty, s, prev, out);
    } else {
      var kb, s2, out' := FirstEntryInverts(less, ty, ws, s, prev, out);
      EntriesInvert(less, ty, ws[1..], s2, Some(kb), out');
    }
  }

  lemma SortedTail(ks: seq<Keyed>)
    requires Sorted(KeyLt, ks) && ks != []
    ensures Sorted(KeyLt, ks[1..])
    ensures forall i :: 0 <= i < |ks[1..]| ==> Lt(ks[0].0, ks[1..][i].0)
  {
    forall i | 0 <= i < |ks[1..]| ensures Lt(ks[0].0, ks[1..][i].0) {
      assert KeyLt(ks[0], ks[i + 1]);
    }
  }

  /** The first entry of a wire order, and the rest. */
  lemma WireTail(less: Order, ty: Ty, ws: seq<(Val, Val)>)
    requires ty.Map? && WireOrder(less, ty, ws) && ws != []
    ensures var kb := Enc(less, ty.key, ws[0].0);
            && WireOrder(less, ty, ws[1..]) && Above(less, ty, Some(kb), ws[1..])
            && KeyAll(less, ty, ws)[0].0 == kb
            && EncKeyed(less, ty, KeyAll(less, ty, ws))
               == kb + Enc(less, ty.val, ws[0].1) + EncKeyed(less, ty, KeyAll(less, ty, ws[1..]))
  {
    hide Enc, HasType, Encodable, KeyAll;
    var ks := KeyAll(less, ty, ws);
    assert ws == [ws[0]] + ws[1..];
    KeyAllCons(less, ty, ws[0], ws[1..]);
    assert ks[1..] == KeyAll(less, ty, ws[1..]);
    SortedTail(ks);
  }

  predicate EntryLt(less: Order, a: (Val, Val), b: (Val, Val)) {
    less(a.0, b.0)
  }

  lemma DictUnique(less: Order, a: seq<(Val, Val)>, b: seq<(Val, Val)>)
    requires KeyOrder(less) && KeysSorted(less, a) && KeysSorted(less, b) && SameElements(a, b)
    ensures a == b
  {
    var lt := (x: (Val, Val), y: (Val, Val)) => EntryLt(less, x, y);
    SortedUnique(lt, a, b);
  }

  lemma SortedWire(less: Order, ty: Ty, v: Val)
    requires KeyOrder(less) && ty.Map? && DistinctIds(ty) && HasType(less, ty, v) && Decodable(less, ty, v)
    requires |Enc(less, ty, v)| <= USIZE_MAX
    ensures WireOrder(less, ty, SortByKey(less, ty, v.entries)) && ValuesRead(less, ty, SortByKey(less, ty, v.entries))
    ensures Enc(less, ty, v)
         == BE(|v.entries|, 4) + EncKeyed(less, ty, KeyAll(less, ty, SortByKey(less, ty, v.entries)))
    ensures |SortByKey(less, ty, v.entries)| == |v.entries|
    decreases ty, 0, 1
  {
    var es, ws := v.entries, SortByKey(less, ty, v.entries);
    MapKeysDistinct(less, ty, v);
    SortKeyedSorted(KeyAll(less, ty, es));
    SortByKeyKeys(less, ty, es);
    forall i | 0 <= i < |ws| ensures Encodable(less, ty.key, ws[i].0) && Decodable(less, ty.val, ws[i].1) {
      assert ws[i] in es;
    }
  }

  lemma MapInverts(less: Order, ty: Ty, v: Val, s: PState)
    requires KeyOrder(less) && ty.Map? && DistinctIds(ty) && HasType(less, ty, v) && Decodable(less, ty, v)
    requires At(s, Enc(less, ty, v))
    ensures Get(less, ty, s) == (Some(v), Skip(s, Enc(less, ty, v)))
    decreases ty, 0, |v.entries| + 2
  {
    hide GetEntries, EncKeyed, KeyAll, SortKeyed, Encodable;
    var es, ws := v.entries, SortByKey(less, ty, v.entries);
    SortedWire(less, ty, v);
    var body := EncKeyed(less, ty, KeyAll(less, ty, ws));
    AtSplit(s, BE(|es|, 4), body);
    Pow256Values();
    TakeIntAt(s, |es|, 4);
    var s1 := Skip(s, BE(|es|, 4));
    EntriesInvert(less, ty, ws, s1, None, []);
    DictUnique(less, GetEntries(less, ty, |ws|, s1, None, []).0.value, es);
  }
}
