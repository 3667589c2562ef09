/** Decoding is canonical: an accepted input is exactly the encoding of the value it yields. */
module Canonical {
  import opened Bytes
  import opened Packing
  import opened Ordered
  import opened Wire
  import opened Marshal
  import opened Unmarshal
  import opened DecodeSafety

  predicate Reading(s: PState) {
    !s.write && s.err.None? && s.off <= |s.buf|
  }

  /** s' is s after reading exactly data. */
  predicate Consumed(s: PState, s': PState, data: bytes) {
    && s.off + |data| <= |s.buf|
    && s' == s.(off := s.off + |data|)
    && s.buf[s.off..s.off + |data|] == data
  }

  /** Little enough was read that no count in it exceeds what the marshaller accepts. */
  predicate Near(s: PState, s': PState) {
    s'.off <= s.off + I32_MAX
  }

  /** That, or the counts inside map keys are known to be small. */
  predicate Modest(s: PState, s': PState, fits: bool) {
    Near(s, s') || (|s.buf| <= USIZE_MAX && fits)
  }

  predicate ElemsRead(less: Order, ty: Ty, vs: seq<Val>)
    requires ty.Vec? && forall i :: 0 <= i < |vs| ==> HasType(less, ty.elem, vs[i])
  {
    forall i :: 0 <= i < |vs| ==> Decodable(less, ty.elem, vs[i]) && Enc(less, ty.elem, vs[i]) != []
  }

  predicate FieldsRead(less: Order, ty: Ty, vs: seq<Val>)
    requires ty.Struct? && FieldsTyped(less, ty, vs)
  {
    forall i :: 0 <= i < |vs| ==> Decodable(less, ty.fields[|ty.fields| - |vs| + i], vs[i])
  }

  predicate ValuesRead(less: Order, ty: Ty, ws: seq<(Val, Val)>)
    requires ty.Map? && EntriesTyped(less, ty, ws)
  {
    forall i :: 0 <= i < |ws| ==> Decodable(less, ty.val, ws[i].1)
  }

  predicate ElemKeysFit(less: Order, ty: Ty, vs: seq<Val>)
    requires ty.Vec? && forall i :: 0 <= i < |vs| ==> HasType(less, ty.elem, vs[i])
  {
    forall i :: 0 <= i < |vs| ==> KeysFit(less, ty.elem, vs[i])
  }

  predicate FieldKeysFit(less: Order, ty: Ty, vs: seq<Val>)
    requires ty.Struct? && FieldsTyped(less, ty, vs)
  {
    forall i :: 0 <= i < |vs| ==> KeysFit(less, ty.fields[|ty.fields| - |vs| + i], vs[i])
  }

  predicate EntryKeysFit(less: Order, ty: Ty, es: seq<(Val, Val)>)
    requires ty.Map? && EntriesTyped(less, ty, es)
  {
    forall i :: 0 <= i < |es| ==> CountsFit(less, ty.key, es[i].0) && KeysFit(less, ty.val, es[i].1)
  }

  predicate ElemsFit(less: Order, ty: Ty, vs: seq<Val>)
    requires ty.Vec? && forall i :: 0 <= i < |vs| ==> HasType(less, ty.elem, vs[i])
  {
    forall i :: 0 <= i < |vs| ==> CountsFit(less, ty.elem, vs[i])
  }

  predicate FieldsFit(less: Order, ty: Ty, vs: seq<Val>)
    requires ty.Struct? && FieldsTyped(less, ty, vs)
  {
    forall i :: 0 <= i < |vs| ==> CountsFit(less, ty.fields[|ty.fields| - |vs| + i], vs[i])
  }

  predicate EntriesFit(less: Order, ty: Ty, es: seq<(Val, Val)>)
    requires ty.Map? && EntriesTyped(less, ty, es)
  {
    forall i :: 0 <= i < |es| ==> CountsFit(less, ty.key, es[i].0) && CountsFit(less, ty.val, es[i].1)
  }

  lemma ConsumedThen(s: PState, s1: PState, s2: PState, a: bytes, b: bytes)
    requires Consumed(s, s1, a) && Consumed(s1, s2, b)
    ensures Consumed(s, s2, a + b)
  {
    var n := s.off;
    assert s.buf[n..n + |a| + |b|] == s.buf[n..n + |a|] + s.buf[n + |a|..n + |a| + |b|];
  }

  lemma TakeConsumes(s: PState, n: nat)
    requires Reading(s) && Take(s, n).1.err.None?
    ensures |Take(s, n).0| == n && Consumed(s, Take(s, n).1, Take(s, n).0)
  {
  }

  lemma TakeIntConsumes(s: PState, n: nat)
    requires Reading(s) && TakeInt(s, n).1.err.None?
    ensures Consumed(s, TakeInt(s, n).1, BE(TakeInt(s, n).0, n))
  {
    TakeConsumes(s, n);
    BECanonical(Take(s, n).0);
  }

  // ----- keys in wire order -----

  /** Entries in wire order: acceptable keys, with strictly increasing bytes. */
  ghost predicate WireOrder(less: Order, ty: Ty, ws: seq<(Val, Val)>)
    requires ty.Map?
  {
    && EntriesTyped(less, ty, ws)
    && (forall i :: 0 <= i < |ws| ==> Encodable(less, ty.key, ws[i].0))
    && Sorted(KeyLt, KeyAll(less, ty, ws))
  }

  /** All key bytes of ws are above the bound, if there is one. */
  ghost predicate Above(less: Order, ty: Ty, prev: Option<bytes>, ws: seq<(Val, Val)>)
    requires ty.Map? && EntriesTyped(less, ty, ws)
  {
    prev.Some? ==> forall i :: 0 <= i < |ws| ==> Lt(prev.value, KeyAll(less, ty, ws)[i].0)
  }

  lemma SortedCons(p: Keyed, ks: seq<Keyed>, prev: Option<bytes>)
    requires Sorted(KeyLt, ks) && forall i :: 0 <= i < |ks| ==> Lt(p.0, ks[i].0)
    requires prev.Some? ==> Lt(prev.value, p.0)
    ensures Sorted(KeyLt, [p] + ks)
    ensures prev.Some? ==> forall i :: 0 <= i < |[p] + ks| ==> Lt(prev.value, ([p] + ks)[i].0)
  {
    if prev.Some? {
      forall i | 0 <= i < |ks| ensures Lt(prev.value, ks[i].0) { LtTransitive(prev.value, p.0, ks[i].0); }
    }
  }

  /** Putting a smaller key in front keeps wire order. */
  lemma WireCons(less: Order, ty: Ty, prev: Option<bytes>, k: Val, v: Val, ws: seq<(Val, Val)>)
    requires ty.Map? && HasType(less, ty.key, k) && HasType(less, ty.val, v) && Encodable(less, ty.key, k)
    requires WireOrder(less, ty, ws) && Above(less, ty, Some(Enc(less, ty.key, k)), ws)
    requires prev.Some? ==> Lt(prev.value, Enc(less, ty.key, k))
    ensures WireOrder(less, ty, [(k, v)] + ws)
    ensures Above(less, ty, prev, [(k, v)] + ws)
  {
    var kb := Enc(less, ty.key, k);
    KeyAllCons(less, ty, (k, v), ws);
    SortedCons((kb, v), KeyAll(less, ty, ws), prev);
  }

  /** Keys that are strictly above something are not empty, so entries consume bytes. */
  lemma {:induction false} AboveConsumes(less: Order, ty: Ty, ks: seq<Keyed>)
    requires ty.Map? && KeyedTyped(less, ty, ks) && forall i :: 0 <= i < |ks| ==> ks[i].0 != []
    ensures |EncKeyed(less, ty, ks)| >= |ks|
  {
    if ks != [] { AboveConsumes(less, ty, ks[1..]); }
  }

  lemma WireLength(less: Order, ty: Ty, ks: seq<Keyed>)
    requires ty.Map? && KeyedTyped(less, ty, ks) && Sorted(KeyLt, ks)
    ensures |EncKeyed(less, ty, ks)| + 1 >= |ks|
  {
    if ks != [] {
      forall i | 0 <= i < |ks[1..]| ensures ks[1..][i].0 != [] {
        assert KeyLt(ks[0], ks[i + 1]);
      }
      AboveConsumes(less, ty, ks[1..]);
    }
  }

  // ----- the sorted map and the wire order hold the same entries -----

  lemma KeysOfWire(less: Order, ty: Ty, ws: seq<(Val, Val)>, i: nat, j: nat)
    requires ty.Map? && WireOrder(less, ty, ws) && i < j < |ws|
    ensures ws[i].0 != ws[j].0 && Enc(less, ty.key, ws[i].0) != Enc(less, ty.key, ws[j].0)
  {
    KeyAllAt(less, ty, ws, i);
    KeyAllAt(less, ty, ws, j);
    LtAsymmetric(Enc(less, ty.key, ws[i].0), Enc(less, ty.key, ws[j].0));
  }

  lemma DistinctInWire(less: Order, ty: Ty, ws: seq<(Val, Val)>, x: (Val, Val), y: (Val, Val))
    requires ty.Map? && WireOrder(less, ty, ws) && x in ws && y in ws && x.0 != y.0
    requires HasType(less, ty.key, x.0) && HasType(less, ty.key, y.0)
    ensures Enc(less, ty.key, x.0) != Enc(less, ty.key, y.0)
  {
    var a :| 0 <= a < |ws| && ws[a] == x;
    var b :| 0 <= b < |ws| && ws[b] == y;
    if a < b { KeysOfWire(less, ty, ws, a, b); } else { KeysOfWire(less, ty, ws, b, a); }
  }

  lemma DictDistinct(less: Order, ty: Ty, es: seq<(Val, Val)>, ws: seq<(Val, Val)>)
    requires KeyOrder(less) && ty.Map? && DictTyped(less, ty, es) && WireOrder(less, ty, ws) && SameElements(es, ws)
    ensures DistinctKeys(KeyAll(less, ty, es))
  {
    forall i, j | 0 <= i < j < |es| ensures KeyAll(less, ty, es)[i].0 != KeyAll(less, ty, es)[j].0 {
      KeyAllAt(less, ty, es, i);
      KeyAllAt(less, ty, es, j);
      assert less(es[i].0, es[j].0);
      assert es[i] in ws && es[j] in ws;
      DistinctInWire(less, ty, ws, es[i], es[j]);
    }
  }

  lemma KeyAllSame(less: Order, ty: Ty, es: seq<(Val, Val)>, ws: seq<(Val, Val)>)
    requires ty.Map? && EntriesTyped(less, ty, es) && EntriesTyped(less, ty, ws)
    requires forall e :: e in es ==> e in ws
    ensures forall x :: x in KeyAll(less, ty, es) ==> x in KeyAll(less, ty, ws)
  {
    forall x | x in KeyAll(less, ty, es) ensures x in KeyAll(less, ty, ws) {
      var i :| 0 <= i < |es| && KeyAll(less, ty, es)[i] == x;
      KeyAllAt(less, ty, es, i);
      assert es[i] in ws;
      var j :| 0 <= j < |ws| && ws[j] == es[i];
      KeyAllAt(less, ty, ws, j);
    }
  }

  /** Sorting a map's entries by key bytes gives the wire order they were read in. */
  lemma SortIsWireOrder(less: Order, ty: Ty, es: seq<(Val, Val)>, ws: seq<(Val, Val)>)
    requires KeyOrder(less) && ty.Map? && DictTyped(less, ty, es) && WireOrder(less, ty, ws) && SameElements(es, ws)
    ensures SortKeyed(KeyAll(less, ty, es)) == KeyAll(less, ty, ws) && |es| == |ws|
  {
    DictDistinct(less, ty, es, ws);
    SortKeyedSorted(KeyAll(less, ty, es));
    KeyAllSame(less, ty, es, ws);
    KeyAllSame(less, ty, ws, es);
    KeyLtStrict();
    SortedUnique(KeyLt, SortKeyed(KeyAll(less, ty, es)), KeyAll(less, ty, ws));
  }

  // ----- canonicality -----

  /** If a value is decoded, the bytes consumed are exactly its encoding, and it is one that can be read back. */
  lemma {:induction false} DecodeIsRead(less: Order, ty: Ty, s: PState)
    requires KeyOrder(less) && Reading(s) && Get(less, ty, s).0.Some?
    requires Modest(s, Get(less, ty, s).1, KeysFit(less, ty, Get(less, ty, s).0.value))
    ensures var (v, s') := Get(less, ty, s);
            && Decodable(less, ty, v.value) && Consumed(s, s', Enc(less, ty, v.value))
            && (Near(s, s') ==> CountsFit(less, ty, v.value))
    decreases ty, 1, 0
  {
    if IsInt(ty) {
      TakeIntConsumes(s, Width(ty));
    } else {
      match ty
      case Bool => BoolIsCanonical(s);
      case Str => StrIsCanonical(s);
      case Fixed(n) => TakeConsumes(s, n);
      case Vec(elem) => VecIsRead(less, ty, s);
      case Map(key, val) => MapIsRead(less, ty, s);
      case Struct(fields) => StructIsRead(less, ty, s);
      case Enum(variants) => EnumIsRead(less, ty, s);
    }
  }

  /** A decoded value whose counts are small is one the marshaller accepts. */
  lemma DecodeIsCanonical(less: Order, ty: Ty, s: PState)
    requires KeyOrder(less) && Reading(s) && Get(less, ty, s).0.Some?
    requires Modest(s, Get(less, ty, s).1, CountsFit(less, ty, Get(less, ty, s).0.value))
    ensures var (v, s') := Get(less, ty, s);
            Encodable(less, ty, v.value) && Consumed(s, s', Enc(less, ty, v.value))
  {
    hide Get, Enc, HasType, Encodable, Decodable, CountsFit, KeysFit;
    var v := Get(less, ty, s).0.value;
    if CountsFit(less, ty, v) { CountsFitKeys(less, ty, v); }
    DecodeIsRead(less, ty, s);
    EncodableIff(less, ty, v);
  }

  lemma VecIsRead(less: Order, ty: Ty, s: PState)
    requires KeyOrder(less) && ty.Vec? && Reading(s) && Get(less, ty, s).0.Some?
    requires Modest(s, Get(less, ty, s).1, KeysFit(less, ty, Get(less, ty, s).0.value))
    ensures var (v, s') := Get(less, ty, s);
            && Decodable(less, ty, v.value) && Consumed(s, s', Enc(less, ty, v.value))
            && (Near(s, s') ==> CountsFit(less, ty, v.value))
    decreases ty, 0, U32_MAX + 1
  {
    hide GetElems, EncElems;
    TakeIntConsumes(s, 4);
    var (n, s1) := TakeInt(s, 4);
    Pow256Values();
    var (vs, s2) := GetElems(less, ty, n, s1);
    ElemsAreRead(less, ty, n, s1, vs.value, s2);
    ConsumedThen(s, s1, s2, BE(n, 4), EncElems(less, ty, vs.value));
  }

  lemma StructIsRead(less: Order, ty: Ty, s: PState)
    requires KeyOrder(less) && ty.Struct? && Reading(s) && Get(less, ty, s).0.Some?
    requires Modest(s, Get(less, ty, s).1, KeysFit(less, ty, Get(less, ty, s).0.value))
    ensures var (v, s') := Get(less, ty, s);
            && Decodable(less, ty, v.value) && Consumed(s, s', Enc(less, ty, v.value))
            && (Near(s, s') ==> CountsFit(less, ty, v.value))
    decreases ty, 0, |ty.fields| + 1
  {
    hide GetFields, EncFields;
    var (vs, s1) := GetFields(less, ty, |ty.fields|, s);
    FieldsAreRead(less, ty, |ty.fields|, s, vs.value, s1);
  }

  lemma EnumIsRead(less: Order, ty: Ty, s: PState)
    requires KeyOrder(less) && ty.Enum? && Reading(s) && Get(less, ty, s).0.Some?
    requires Modest(s, Get(less, ty, s).1, KeysFit(less, ty, Get(less, ty, s).0.value))
    ensures var (v, s') := Get(less, ty, s);
            && Decodable(less, ty, v.value) && Consumed(s, s', Enc(less, ty, v.value))
            && (Near(s, s') ==> CountsFit(less, ty, v.value))
    decreases ty, 0, 0
  {
    TakeIntConsumes(s, 4);
    var (id, s1) := TakeInt(s, 4);
    var i := FindId(ty.variants, id).value;
    var t := ty.variants[i].1;
    DecodeIsRead(less, t, s1);
    var (v, s2) := Get(less, t, s1);
    ConsumedThen(s, s1, s2, BE(id, 4), Enc(less, t, v.value));
  }

  lemma BoolIsCanonical(s: PState)
    requires Reading(s) && BoolTaken(s).1.err.None?
    ensures Consumed(s, BoolTaken(s).1, [if BoolTaken(s).0 then 1 else 0])
  {
    TakeIntConsumes(s, 1);
    var b := TakeInt(s, 1).0;
    assert BE(b, 1) == BE(b / 256, 0) + [b % 256];
  }

  lemma StrIsCanonical(s: PState)
    requires Reading(s) && StrTaken(s).1.err.None?
    ensures var (raw, s') := StrTaken(s);
            |raw| <= MAX_STRING_LEN && Consumed(s, s', BE(|raw|, 2) + raw)
  {
    TakeIntConsumes(s, 2);
    var (n, s1) := TakeInt(s, 2);
    TakeConsumes(s1, n);
    Pow256Values();
    var (raw, s2) := Take(s1, n);
    ConsumedThen(s, s1, s2, BE(n, 2), raw);
  }

  lemma ElemsStep(less: Order, ty: Ty, n: nat, s: PState, vs: seq<Val>, s': PState)
    returns (v: Val, s1: PState, rest: seq<Val>)
    requires KeyOrder(less) && ty.Vec? && n > 0 && s.err.None? && GetElems(less, ty, n, s) == (Some(vs), s')
    ensures Get(less, ty.elem, s) == (Some(v), s1) && s1.err.None? && s1.Cursor() != s.Cursor()
    ensures GetElems(less, ty, n - 1, s1) == (Some(rest), s') && vs == [v] + rest
    ensures ElemKeysFit(less, ty, vs) ==> KeysFit(less, ty.elem, v) && ElemKeysFit(less, ty, rest)
  {
    hide Get, HasType, KeysFit;
    var r := Get(less, ty.elem, s);
    v, s1, rest := r.0.value, r.1, GetElems(less, ty, n - 1, r.1).0.value;
    assert vs == [v] + rest && vs[0] == v;
    assert forall i :: 0 <= i < |rest| ==> rest[i] == vs[i + 1];
  }

  lemma NoElems(less: Order, ty: Ty, s: PState)
    requires KeyOrder(less) && ty.Vec? && s.err.None? && s.off <= |s.buf|
    ensures GetElems(less, ty, 0, s) == (Some([]), s) && ElemsRead(less, ty, []) && ElemsFit(less, ty, [])
    ensures EncElems(less, ty, []) == [] && Consumed(s, s, [])
  {
  }

  lemma {:induction false} ElemsAreRead(less: Order, ty: Ty, n: nat, s: PState, vs: seq<Val>, s': PState)
    requires KeyOrder(less) && ty.Vec? && Reading(s)
    requires GetElems(less, ty, n, s) == (Some(vs), s') && Modest(s, s', ElemKeysFit(less, ty, vs))
    ensures ElemsRead(less, ty, vs) && n <= |EncElems(less, ty, vs)| && Consumed(s, s', EncElems(less, ty, vs))
    ensures Near(s, s') ==> ElemsFit(less, ty, vs)
    decreases ty, 0, n
  {
    hide Get, GetElems, Enc, HasType, Decodable, EncElems, ElemKeysFit, ElemsFit, ElemsRead;
    if n == 0 {
      NoElems(less, ty, s);
    } else {
      var v, s1, rest := ElemsStep(less, ty, n, s, vs, s');
      DecodeIsSafe(less, ty.elem, s);
      ElemsAreSafe(less, ty, n - 1, s1);
      DecodeIsRead(less, ty.elem, s);
      ElemsAreRead(less, ty, n - 1, s1, rest, s');
      ElemsJoin(less, ty, v, rest, s, s1, s', Near(s, s'));
    }
  }

  lemma ElemsJoin(less: Order, ty: Ty, v: Val, rest: seq<Val>, s: PState, s1: PState, s2: PState, near: bool)
    requires ty.Vec? && HasType(less, ty.elem, v) && Decodable(less, ty.elem, v)
    requires (forall i :: 0 <= i < |rest| ==> HasType(less, ty.elem, rest[i])) && ElemsRead(less, ty, rest)
    requires |rest| <= |EncElems(less, ty, rest)| && s1.off != s.off
    requires Consumed(s, s1, Enc(less, ty.elem, v)) && Consumed(s1, s2, EncElems(less, ty, rest))
    requires near ==> CountsFit(less, ty.elem, v) && ElemsFit(less, ty, rest)
    ensures var vs := [v] + rest;
            && (forall i :: 0 <= i < |vs| ==> HasType(less, ty.elem, vs[i])) && ElemsRead(less, ty, vs)
            && |vs| <= |EncElems(less, ty, vs)| && Consumed(s, s2, EncElems(less, ty, vs))
            && (near ==> ElemsFit(less, ty, vs))
  {
    hide HasType, CountsFit, Decodable;
    var vs := [v] + rest;
    assert vs[1..] == rest && vs[0] == v;
    ConsumedThen(s, s1, s2, Enc(less, ty.elem, v), EncElems(less, ty, rest));
  }

  lemma FieldsStep(less: Order, ty: Ty, n: nat, s: PState, vs: seq<Val>, s': PState)
    returns (v: Val, s1: PState, rest: seq<Val>)
    requires KeyOrder(less) && ty.Struct? && 0 < n <= |ty.fields| && GetFields(less, ty, n, s) == (Some(vs), s')
    ensures Get(less, ty.fields[|ty.fields| - n], s) == (Some(v), s1) && s1.err.None?
    ensures GetFields(less, ty, n - 1, s1) == (Some(rest), s') && vs == [v] + rest
  {
    var r := Get(less, ty.fields[|ty.fields| - n], s);
    v, s1, rest := r.0.value, r.1, GetFields(less, ty, n - 1, r.1).0.value;
  }

  lemma {:induction false} FieldsAreRead(less: Order, ty: Ty, n: nat, s: PState, vs: seq<Val>, s': PState)
    requires KeyOrder(less) && ty.Struct? && n <= |ty.fields| && Reading(s)
    requires GetFields(less, ty, n, s) == (Some(vs), s') && Modest(s, s', FieldKeysFit(less, ty, vs))
    ensures FieldsRead(less, ty, vs) && Consumed(s, s', EncFields(less, ty, vs))
    ensures Near(s, s') ==> FieldsFit(less, ty, vs)
    decreases ty, 0, n
  {
    hide Get, GetFields, Enc, HasType, Decodable, EncFields, FieldKeysFit, FieldsRead, FieldsFit;
    if n == 0 {
      NoFields(less, ty, s, vs, s');
    } else {
      var f := ty.fields[|ty.fields| - n];
      var v, s1, rest := FieldsStep(less, ty, n, s, vs, s');
      DecodeIsSafe(less, f, s);
      FieldsAreSafe(less, ty, n - 1, s1);
      FieldKeysFitSplit(less, ty, v, rest);
      DecodeIsRead(less, f, s);
      FieldsAreRead(less, ty, n - 1, s1, rest, s');
      FieldsJoin(less, ty, f, v, rest, s, s1, s', Near(s, s'));
    }
  }

  lemma FieldsSplit(less: Order, ty: Ty, v: Val, rest: seq<Val>)
    requires ty.Struct? && FieldsTyped(less, ty, [v] + rest)
    ensures FieldsTyped(less, ty, rest) && HasType(less, ty.fields[|ty.fields| - |rest| - 1], v)
    ensures EncFields(less, ty, [v] + rest)
         == Enc(less, ty.fields[|ty.fields| - |rest| - 1], v) + EncFields(less, ty, rest)
  {
    hide Encodable;
    var vs := [v] + rest;
    assert vs[1..] == rest && vs[0] == v && HasType(less, ty.fields[|ty.fields| - |vs| + 0], vs[0]);
    FieldsOkSplit(less, ty, vs);
  }

  lemma FieldKeysFitSplit(less: Order, ty: Ty, v: Val, rest: seq<Val>)
    requires ty.Struct? && FieldsTyped(less, ty, [v] + rest)
    ensures FieldsTyped(less, ty, rest) && HasType(less, ty.fields[|ty.fields| - |rest| - 1], v)
    ensures FieldKeysFit(less, ty, [v] + rest) ==>
              KeysFit(less, ty.fields[|ty.fields| - |rest| - 1], v) && FieldKeysFit(less, ty, rest)
  {
    hide HasType, KeysFit;
    FieldsSplit(less, ty, v, rest);
    var vs := [v] + rest;
    var k := |ty.fields| - |vs|;
    assert vs[0] == v;
    if FieldKeysFit(less, ty, vs) {
      assert KeysFit(less, ty.fields[k + 0], vs[0]);
      forall i | 0 <= i < |rest| ensures KeysFit(less, ty.fields[k + 1 + i], rest[i]) {
        assert KeysFit(less, ty.fields[k + (i + 1)], vs[i + 1]);
      }
    }
  }

  lemma NoFields(less: Order, ty: Ty, s: PState, vs: seq<Val>, s': PState)
    requires KeyOrder(less) && ty.Struct? && Reading(s) && GetFields(less, ty, 0, s) == (Some(vs), s')
    ensures FieldsRead(less, ty, vs) && FieldsFit(less, ty, vs) && Consumed(s, s', EncFields(less, ty, vs))
  {
  }

  lemma FieldsReadJoin(less: Order, ty: Ty, f: Ty, v: Val, rest: seq<Val>, near: bool)
    requires ty.Struct? && FieldsTyped(less, ty, [v] + rest)
    requires FieldsTyped(less, ty, rest) && FieldsRead(less, ty, rest)
    requires |rest| < |ty.fields| && f == ty.fields[|ty.fields| - |rest| - 1]
    requires HasType(less, f, v) && Decodable(less, f, v)
    requires near ==> CountsFit(less, f, v) && FieldsFit(less, ty, rest)
    ensures FieldsRead(less, ty, [v] + rest) && (near ==> FieldsFit(less, ty, [v] + rest))
  {
    hide HasType, Decodable, CountsFit;
    var vs := [v] + rest;
    var k := |ty.fields| - |vs|;
    forall i | 0 <= i < |vs| ensures Decodable(less, ty.fields[k + i], vs[i]) {
      if i > 0 { assert Decodable(less, ty.fields[k + 1 + (i - 1)], rest[i - 1]) && vs[i] == rest[i - 1]; }
    }
    if near {
      forall i | 0 <= i < |vs| ensures CountsFit(less, ty.fields[k + i], vs[i]) {
        if i > 0 { assert CountsFit(less, ty.fields[k + 1 + (i - 1)], rest[i - 1]) && vs[i] == rest[i - 1]; }
      }
    }
  }

  lemma FieldsJoin(
    less: Order, ty: Ty, f: Ty, v: Val, rest: seq<Val>, s: PState, s1: PState, s2: PState, near: bool)
    requires ty.Struct? && FieldsTyped(less, ty, [v] + rest)
    requires FieldsTyped(less, ty, rest) && FieldsRead(less, ty, rest)
    requires |rest| < |ty.fields| && f == ty.fields[|ty.fields| - |rest| - 1]
    requires HasType(less, f, v) && Decodable(less, f, v)
    requires near ==> CountsFit(less, f, v) && FieldsFit(less, ty, rest)
    requires Consumed(s, s1, Enc(less, f, v)) && Consumed(s1, s2, EncFields(less, ty, rest))
    ensures FieldsRead(less, ty, [v] + rest) && Consumed(s, s2, EncFields(less, ty, [v] + rest))
    ensures near ==> FieldsFit(less, ty, [v] + rest)
  {
    hide HasType, Decodable, CountsFit, FieldsRead, FieldsFit, Enc, EncFields;
    FieldsReadJoin(less, ty, f, v, rest, near);
    FieldsSplit(less, ty, v, rest);
    ConsumedThen(s, s1, s2, Enc(less, f, v), EncFields(less, ty, rest));
  }

  /** A key read from its bytes is one the marshaller accepts, and its scratch bytes are those bytes. */
  lemma KeyIsRead(less: Order, ty: Ty, s: PState, k: Val, s1: PState)
    requires KeyOrder(less) && Reading(s) && Get(less, ty, s) == (Some(k), s1)
    requires Modest(s, s1, CountsFit(less, ty, k))
    ensures Encodable(less, ty, k) && CountsFit(less, ty, k) && Consumed(s, s1, Enc(less, ty, k))
    ensures KeyState(less, ty, k).buf == Enc(less, ty, k)
    decreases ty, 2, 0
  {
    hide Get, Enc, HasType, Encodable, Decodable, CountsFit, KeysFit, KeyState;
    if CountsFit(less, ty, k) { CountsFitKeys(less, ty, k); }
    DecodeIsRead(less, ty, s);
    EncodableIff(less, ty, k);
    KeyStateWrites(less, ty, k);
  }

  /** One entry: its key's scratch bytes are the bytes it was read from, and above the previous key. */
  lemma EntryIsRead(
    less: Order, ty: Ty, s: PState, prev: Option<bytes>, k: Val, s1: PState, v: Val, s2: PState)
    requires KeyOrder(less) && ty.Map? && Reading(s)
    requires Get(less, ty.key, s) == (Some(k), s1) && Get(less, ty.val, s1) == (Some(v), s2)
    requires Modest(s, s2, CountsFit(less, ty.key, k) && KeysFit(less, ty.val, v))
    requires !(prev.Some? && Le(KeyState(less, ty.key, k).buf, prev.value))
    ensures Encodable(less, ty.key, k) && Decodable(less, ty.val, v) && CountsFit(less, ty.key, k)
    ensures Near(s, s2) ==> CountsFit(less, ty.val, v)
    ensures KeyState(less, ty.key, k).buf == Enc(less, ty.key, k)
    ensures prev.Some? ==> Lt(prev.value, Enc(less, ty.key, k))
    ensures Consumed(s, s2, Enc(less, ty.key, k) + Enc(less, ty.val, v))
    decreases ty, 0, 0
  {
    hide Get, Enc, HasType, Encodable, Decodable, CountsFit, KeysFit, KeyState, Lt;
    var kb := Enc(less, ty.key, k);
    DecodeIsSafe(less, ty.key, s);
    DecodeIsSafe(less, ty.val, s1);
    KeyIsRead(less, ty.key, s, k, s1);
    DecodeIsRead(less, ty.val, s1);
    if prev.Some? { LtTotal(prev.value, kb); }
    ConsumedThen(s, s1, s2, kb, Enc(less, ty.val, v));
  }

  /** The keys read so far, against the bytes of the last one. */
  ghost predicate Below(less: Order, ty: Ty, out: seq<(Val, Val)>, prev: Option<bytes>)
    requires ty.Map? && EntriesTyped(less, ty, out)
  {
    if prev.None? then out == []
    else forall e :: e in out ==> HasType(less, ty.key, e.0) && Le(KeyState(less, ty.key, e.0).buf, prev.value)
  }

  lemma BelowNext(less: Order, ty: Ty, out: seq<(Val, Val)>, prev: Option<bytes>, k: Val, v: Val, kb: bytes)
    requires KeyOrder(less) && ty.Map? && DictTyped(less, ty, out) && Below(less, ty, out, prev)
    requires HasType(less, ty.key, k) && HasType(less, ty.val, v) && kb == KeyState(less, ty.key, k).buf
    requires !(prev.Some? && Le(kb, prev.value))
    ensures var out' := InsertEntry(less, out, k, v);
            && DictTyped(less, ty, out') && Below(less, ty, out', Some(kb))
            && (forall e :: e in out ==> e.0 != k)
            && (forall e :: e in out' <==> e == (k, v) || e in out)
  {
    hide KeyState, HasType, Lt;
    if prev.Some? { LtTotal(prev.value, kb); }
    forall e | e in out ensures e.0 != k && HasType(less, ty.key, e.0) && Lt(KeyState(less, ty.key, e.0).buf, kb) {
      var eb := KeyState(less, ty.key, e.0).buf;
      assert Le(eb, prev.value);
      if Lt(eb, prev.value) { LtTransitive(eb, prev.value, kb); }
      LtIrreflexive(kb);
    }
    InsertEntryTyped(less, ty, out, k, v);
    InsertEntrySorted(less, out, k, v);
  }

  lemma NoEntries(less: Order, ty: Ty, s: PState, prev: Option<bytes>, out: seq<(Val, Val)>)
    requires KeyOrder(less) && ty.Map? && s.err.None? && DictTyped(less, ty, out)
    ensures GetEntries(less, ty, 0, s, prev, out) == (Some(out), s)
  {
  }

  /** Keys are read in strictly increasing order, so no entry replaces another. */
  lemma {:induction false} EntriesKeep(
    less: Order, ty: Ty, n: nat, s: PState, prev: Option<bytes>, out: seq<(Val, Val)>, es: seq<(Val, Val)>, s': PState)
    requires KeyOrder(less) && ty.Map? && s.err.None? && DictTyped(less, ty, out) && Below(less, ty, out, prev)
    requires GetEntries(less, ty, n, s, prev, out) == (Some(es), s')
    ensures forall e :: e in out ==> e in es
    decreases n
  {
    hide Get, GetEntries, KeyState, HasType, InsertEntry, Le, Below, KeysSorted;
    if n == 0 {
      NoEntries(less, ty, s, prev, out);
    } else {
      var k, s1, v, s2 := EntriesStep(less, ty, n, s, prev, out);
      var kb := KeyState(less, ty.key, k).buf;
      BelowNext(less, ty, out, prev, k, v, kb);
      EntriesKeep(less, ty, n - 1, s2, Some(kb), InsertEntry(less, out, k, v), es, s');
    }
  }

  lemma {:induction false} EntriesAreRead(
    less: Order, ty: Ty, n: nat, s: PState, prev: Option<bytes>, out: seq<(Val, Val)>, es: seq<(Val, Val)>, s': PState)
    returns (ws: seq<(Val, Val)>)
    requires KeyOrder(less) && ty.Map? && Reading(s) && DictTyped(less, ty, out) && Below(less, ty, out, prev)
    requires GetEntries(less, ty, n, s, prev, out) == (Some(es), s') && Modest(s, s', EntryKeysFit(less, ty, es))
    ensures |ws| == n && WireOrder(less, ty, ws) && Above(less, ty, prev, ws) && ValuesRead(less, ty, ws)
    ensures Near(s, s') ==> EntriesFit(less, ty, ws)
    ensures forall e :: e in es <==> e in out || e in ws
    ensures Consumed(s, s', EncKeyed(less, ty, KeyAll(less, ty, ws)))
    decreases ty, 0, n, 1
  {
    if n == 0 {
      ws := [];
    } else {
      ws := EntriesFollow(less, ty, n, s, prev, out, es, s');
    }
  }

  lemma EntriesFollow(
    less: Order, ty: Ty, n: nat, s: PState, prev: Option<bytes>, out: seq<(Val, Val)>, es: seq<(Val, Val)>, s': PState)
    returns (ws: seq<(Val, Val)>)
    requires KeyOrder(less) && ty.Map? && Reading(s) && n > 0 && DictTyped(less, ty, out) && Below(less, ty, out, prev)
    requires GetEntries(less, ty, n, s, prev, out) == (Some(es), s') && Modest(s, s', EntryKeysFit(less, ty, es))
    ensures |ws| == n && WireOrder(less, ty, ws) && Above(less, ty, prev, ws) && ValuesRead(less, ty, ws)
    ensures Near(s, s') ==> EntriesFit(less, ty, ws)
    ensures forall e :: e in es <==> e in out || e in ws
    ensures Consumed(s, s', EncKeyed(less, ty, KeyAll(less, ty, ws)))
    decreases ty, 0, n, 0
  {
    hide Get, GetEntries, KeyState, Enc, HasType, Encodable, EncKeyed, KeyAll, InsertEntry, Le, Lt;
    var k, s1, v, s2 := EntriesStep(less, ty, n, s, prev, out);
    EntriesAreAhead(less, ty, n, s, s1, v, s2, prev, out, k, s');
    var out', kb := InsertEntry(less, out, k, v), KeyState(less, ty.key, k).buf;
    BelowNext(less, ty, out, prev, k, v, kb);
    EntriesKeep(less, ty, n - 1, s2, Some(kb), out', es, s');
    FitsInside(less, ty, es, k, v);
    EntryIsRead(less, ty, s, prev, k, s1, v, s2);
    var rest := EntriesAreRead(less, ty, n - 1, s2, Some(Enc(less, ty.key, k)), out', es, s');
    ws := [(k, v)] + rest;
    EntriesJoin(less, ty, prev, k, v, rest, out, es, s, s2, s', Near(s, s'));
  }

  lemma FitsInside(less: Order, ty: Ty, es: seq<(Val, Val)>, k: Val, v: Val)
    requires ty.Map? && EntriesTyped(less, ty, es) && (k, v) in es
    ensures HasType(less, ty.key, k) && HasType(less, ty.val, v)
    ensures EntryKeysFit(less, ty, es) ==> CountsFit(less, ty.key, k) && KeysFit(less, ty.val, v)
  {
    var i :| 0 <= i < |es| && es[i] == (k, v);
  }

  /** The offsets of one entry and of the rest, in order. */
  lemma EntriesAreAhead(
    less: Order, ty: Ty, n: nat, s: PState, s1: PState, v: Val, s2: PState, prev: Option<bytes>, out: seq<(Val, Val)>,
    k: Val, s': PState)
    requires KeyOrder(less) && ty.Map? && Reading(s) && n > 0 && DictTyped(less, ty, out) && HasType(less, ty.key, k)
    requires Get(less, ty.key, s) == (Some(k), s1) && Get(less, ty.val, s1) == (Some(v), s2) && s2.err.None?
    requires DictTyped(less, ty, InsertEntry(less, out, k, v))
    requires GetEntries(less, ty, n - 1, s2, Some(KeyState(less, ty.key, k).buf), InsertEntry(less, out, k, v)).1 == s'
    ensures s.off <= s2.off <= s'.off
  {
    hide Get, GetEntries, KeyState;
    DecodeIsSafe(less, ty.key, s);
    DecodeIsSafe(less, ty.val, s1);
    EntriesAreSafe(less, ty, n - 1, s2, Some(KeyState(less, ty.key, k).buf), InsertEntry(less, out, k, v));
  }

  lemma EntriesJoin(
    less: Order, ty: Ty, prev: Option<bytes>, k: Val, v: Val, rest: seq<(Val, Val)>, out: seq<(Val, Val)>,
    es: seq<(Val, Val)>, s: PState, s1: PState, s2: PState, near: bool)
    requires ty.Map? && HasType(less, ty.key, k) && HasType(less, ty.val, v)
    requires Encodable(less, ty.key, k) && Decodable(less, ty.val, v)
    requires prev.Some? ==> Lt(prev.value, Enc(less, ty.key, k))
    requires WireOrder(less, ty, rest) && Above(less, ty, Some(Enc(less, ty.key, k)), rest)
    requires ValuesRead(less, ty, rest)
    requires near ==> CountsFit(less, ty.key, k) && CountsFit(less, ty.val, v) && EntriesFit(less, ty, rest)
    requires forall e :: e in es <==> e == (k, v) || e in out || e in rest
    requires Consumed(s, s1, Enc(less, ty.key, k) + Enc(less, ty.val, v))
    requires Consumed(s1, s2, EncKeyed(less, ty, KeyAll(less, ty, rest)))
    ensures var ws := [(k, v)] + rest;
            && WireOrder(less, ty, ws) && Above(less, ty, prev, ws) && ValuesRead(less, ty, ws)
            && (near ==> EntriesFit(less, ty, ws))
            && (forall e :: e in es <==> e in out || e in ws)
            && Consumed(s, s2, EncKeyed(less, ty, KeyAll(less, ty, ws)))
  {
    hide Enc, HasType, Encodable, Decodable, CountsFit, EncKeyed, KeyAll, Lt, Above, Consumed, Sorted;
    WireCons(less, ty, prev, k, v, rest);
    assert forall i :: 0 <= i < |rest| ==> ([(k, v)] + rest)[i + 1] == rest[i];
    ConsumedEntry(less, ty, s, s1, s2, (k, v), rest);
  }

  lemma EntriesStep(less: Order, ty: Ty, n: nat, s: PState, prev: Option<bytes>, out: seq<(Val, Val)>)
    returns (k: Val, s1: PState, v: Val, s2: PState)
    requires KeyOrder(less) && ty.Map? && n > 0 && s.err.None? && DictTyped(less, ty, out)
    requires GetEntries(less, ty, n, s, prev, out).0.Some?
    ensures Get(less, ty.key, s) == (Some(k), s1) && Get(less, ty.val, s1) == (Some(v), s2) && s2.err.None?
    ensures HasType(less, ty.key, k) && HasType(less, ty.val, v)
    ensures !(prev.Some? && Le(KeyState(less, ty.key, k).buf, prev.value))
    ensures DictTyped(less, ty, InsertEntry(less, out, k, v))
    ensures GetEntries(less, ty, n, s, prev, out)
         == GetEntries(less, ty, n - 1, s2, Some(KeyState(less, ty.key, k).buf), InsertEntry(less, out, k, v))
  {
    var r, t := Get(less, ty.key, s), Get(less, ty.val, Get(less, ty.key, s).1);
    k, s1, v, s2 := r.0.value, r.1, t.0.value, t.1;
    InsertEntryTyped(less, ty, out, k, v);
  }

  lemma ConsumedEntry(less: Order, ty: Ty, s: PState, s1: PState, s2: PState, e: (Val, Val), rest: seq<(Val, Val)>)
    requires ty.Map? && EntriesTyped(less, ty, rest) && HasType(less, ty.key, e.0) && HasType(less, ty.val, e.1)
    requires Consumed(s, s1, Enc(less, ty.key, e.0) + Enc(less, ty.val, e.1))
    requires Consumed(s1, s2, EncKeyed(less, ty, KeyAll(less, ty, rest)))
    ensures EntriesTyped(less, ty, [e] + rest)
    ensures Consumed(s, s2, EncKeyed(less, ty, KeyAll(less, ty, [e] + rest)))
  {
    KeyAllCons(less, ty, e, rest);
    var ks := KeyAll(less, ty, [e] + rest);
    assert ks[1..] == KeyAll(less, ty, rest);
    ConsumedThen(s, s1, s2, Enc(less, ty.key, e.0) + Enc(less, ty.val, e.1),
                 EncKeyed(less, ty, KeyAll(less, ty, rest)));
  }

  lemma EntriesDecodable(less: Order, ty: Ty, es: seq<(Val, Val)>, ws: seq<(Val, Val)>)
    requires ty.Map? && DictTyped(less, ty, es) && |es| <= U32_MAX
    requires WireOrder(less, ty, ws) && ValuesRead(less, ty, ws) && forall e :: e in es ==> e in ws
    ensures HasType(less, ty, Dict(es)) && Decodable(less, ty, Dict(es))
    ensures EntriesFit(less, ty, ws) && |es| <= I32_MAX ==> CountsFit(less, ty, Dict(es))
  {
    hide Enc, KeyAll;
    forall i | 0 <= i < |es|
      ensures Encodable(less, ty.key, es[i].0) && Decodable(less, ty.val, es[i].1)
      ensures EntriesFit(less, ty, ws) ==> CountsFit(less, ty.key, es[i].0) && CountsFit(less, ty.val, es[i].1)
    {
      assert es[i] in ws;
    }
  }

  /** The map's own encoding, when its entries were read in wire order. */
  lemma MapEncoding(less: Order, ty: Ty, es: seq<(Val, Val)>, ws: seq<(Val, Val)>)
    requires KeyOrder(less) && ty.Map? && DictTyped(less, ty, es) && WireOrder(less, ty, ws) && SameElements(es, ws)
    ensures |es| == |ws| && HasType(less, ty, Dict(es))
    ensures Enc(less, ty, Dict(es)) == BE(|es|, 4) + EncKeyed(less, ty, KeyAll(less, ty, ws))
    ensures |EncKeyed(less, ty, KeyAll(less, ty, ws))| + 1 >= |ws|
  {
    hide SortKeyed, KeyAll, EncKeyed;
    SortIsWireOrder(less, ty, es, ws);
    WireLength(less, ty, KeyAll(less, ty, ws));
  }

  lemma MapKeysFit(less: Order, ty: Ty, es: seq<(Val, Val)>)
    requires ty.Map? && DictTyped(less, ty, es)
    ensures HasType(less, ty, Dict(es)) && (KeysFit(less, ty, Dict(es)) ==> EntryKeysFit(less, ty, es))
  {
  }

  lemma MapIsRead(less: Order, ty: Ty, s: PState)
    requires KeyOrder(less) && ty.Map? && Reading(s) && Get(less, ty, s).0.Some?
    requires Modest(s, Get(less, ty, s).1, KeysFit(less, ty, Get(less, ty, s).0.value))
    ensures var (v, s') := Get(less, ty, s);
            && Decodable(less, ty, v.value) && Consumed(s, s', Enc(less, ty, v.value))
            && (Near(s, s') ==> CountsFit(less, ty, v.value))
    decreases ty, 0, U32_MAX + 1
  {
    hide GetEntries, Enc, Decodable, CountsFit, KeysFit, KeyAll, EncKeyed, SortKeyed, WireOrder, ValuesRead, EntriesFit;
    TakeIntConsumes(s, 4);
    var (n, s1) := TakeInt(s, 4);
    Pow256Values();
    var (es, s2) := GetEntries(less, ty, n, s1, None, []);
    MapKeysFit(less, ty, es.value);
    var ws := EntriesAreRead(less, ty, n, s1, None, [], es.value, s2);
    MapEncoding(less, ty, es.value, ws);
    ConsumedThen(s, s1, s2, BE(n, 4), EncKeyed(less, ty, KeyAll(less, ty, ws)));
    EntriesDecodable(less, ty, es.value, ws);
  }
}
