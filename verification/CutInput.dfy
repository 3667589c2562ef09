/** An encoding that is cut short is refused for its length, wherever the cut is. */
module CutInput {
  import opened Bytes
  import opened Packing
  import opened Ordered
  import opened Wire
  import opened Marshal
  import opened Unmarshal
  import opened DecodeSafety
  import opened Canonical
  import opened RoundTrip
  import opened CodecManager

  /** The input ends inside data, which would be read next. */
  predicate Cut(s: PState, data: bytes) {
    && Reading(s) && |s.buf| < s.off + |data| <= USIZE_MAX
    && s.buf[s.off..] == data[..|s.buf| - s.off]
  }

  predicate Short(s: PState) {
    s.err == Some(InsufficientLength)
  }

  /** The cut is in the first part, or behind it in the second. */
  lemma CutSplit(s: PState, a: bytes, b: bytes)
    requires Cut(s, a + b)
    ensures if |s.buf| < s.off + |a| then Cut(s, a) else At(s, a) && Cut(Skip(s, a), b)
  {
    var n := |s.buf| - s.off;
    var w := s.buf[s.off..];
    if n < |a| {
      assert (a + b)[..n] == a[..n];
    } else {
      assert w[..|a|] == (a + b)[..n][..|a|] == a;
      assert s.buf[s.off..s.off + |a|] == w[..|a|];
      assert s.buf[s.off + |a|..] == w[|a|..] == (a + b)[..n][|a|..] == b[..n - |a|];
    }
  }

  lemma TakeCut(s: PState, data: bytes)
    requires Cut(s, data)
    ensures Short(Take(s, |data|).1) && Short(TakeInt(s, |data|).1)
  {
  }

  lemma {:induction false} CutIsShort(less: Order, ty: Ty, v: Val, s: PState)
    requires KeyOrder(less) && DistinctIds(ty) && HasType(less, ty, v) && Decodable(less, ty, v)
    requires Cut(s, Enc(less, ty, v))
    ensures Short(Get(less, ty, s).1)
    decreases ty, 1, 0
  {
    hide Get, Enc, HasType, Decodable;
    match ty
    case Vec(elem) => ListIsShort(less, ty, v, s);
    case Map(key, val) => MapIsShort(less, ty, v, s);
    case Struct(fields) => RecordIsShort(less, ty, v, s);
    case Enum(variants) => VariantIsShort(less, ty, v, s);
    case _ => PlainIsShort(less, ty, v, s);
  }

  lemma PlainIsShort(less: Order, ty: Ty, v: Val, s: PState)
    requires KeyOrder(less) && HasType(less, ty, v) && Decodable(less, ty, v) && Cut(s, Enc(less, ty, v))
    requires !ty.Vec? && !ty.Map? && !ty.Struct? && !ty.Enum?
    ensures Short(Get(less, ty, s).1)
  {
    if ty.Str? {
      CutSplit(s, BE(|v.utf8|, 2), v.utf8);
      Pow256Values();
      if |s.buf| < s.off + 2 {
        TakeCut(s, BE(|v.utf8|, 2));
      } else {
        TakeIntAt(s, |v.utf8|, 2);
        TakeCut(Skip(s, BE(|v.utf8|, 2)), v.utf8);
      }
    } else {
      TakeCut(s, Enc(less, ty, v));
    }
  }

  lemma VariantIsShort(less: Order, ty: Ty, v: Val, s: PState)
    requires KeyOrder(less) && ty.Enum? && DistinctIds(ty) && HasType(less, ty, v) && Decodable(less, ty, v)
    requires Cut(s, Enc(less, ty, v))
    ensures Short(Get(less, ty, s).1)
    decreases ty, 0, 0
  {
    Pow256Values();
    var (id, t) := ty.variants[v.variant];
    CutSplit(s, BE(id, 4), Enc(less, t, v.payload));
    if |s.buf| < s.off + 4 {
      TakeCut(s, BE(id, 4));
    } else {
      TakeIntAt(s, id, 4);
      CutIsShort(less, t, v.payload, Skip(s, BE(id, 4)));
    }
  }

  lemma ListIsShort(less: Order, ty: Ty, v: Val, s: PState)
    requires KeyOrder(less) && ty.Vec? && DistinctIds(ty) && HasType(less, ty, v) && Decodable(less, ty, v)
    requires Cut(s, Enc(less, ty, v))
    ensures Short(Get(less, ty, s).1)
    decreases ty, 0, 1, 0
  {
    hide GetElems, EncElems;
    Pow256Values();
    CutSplit(s, BE(|v.elems|, 4), EncElems(less, ty, v.elems));
    if |s.buf| < s.off + 4 {
      TakeCut(s, BE(|v.elems|, 4));
    } else {
      TakeIntAt(s, |v.elems|, 4);
      ElemsAreShort(less, ty, v.elems, Skip(s, BE(|v.elems|, 4)));
    }
  }

  lemma {:induction false} ElemsAreShort(less: Order, ty: Ty, vs: seq<Val>, s: PState)
    requires KeyOrder(less) && ty.Vec? && DistinctIds(ty)
    requires (forall i :: 0 <= i < |vs| ==> HasType(less, ty.elem, vs[i])) && ElemsRead(less, ty, vs)
    requires Cut(s, EncElems(less, ty, vs))
    ensures Short(GetElems(less, ty, |vs|, s).1)
    decreases ty, 0, 0, |vs|
  {
    hide Get, Enc, HasType, Decodable;
    var e := Enc(less, ty.elem, vs[0]);
    CutSplit(s, e, EncElems(less, ty, vs[1..]));
    if |s.buf| < s.off + |e| {
      CutIsShort(less, ty.elem, vs[0], s);
    } else {
      DecodeInvertsEncode(less, ty.elem, vs[0], s);
      ElemsAreShort(less, ty, vs[1..], Skip(s, e));
    }
  }

  lemma RecordIsShort(less: Order, ty: Ty, v: Val, s: PState)
    requires KeyOrder(less) && ty.Struct? && DistinctIds(ty) && HasType(less, ty, v) && Decodable(less, ty, v)
    requires Cut(s, Enc(less, ty, v))
    ensures Short(Get(less, ty, s).1)
    decreases ty, 0, 1, 0
  {
    hide GetFields, EncFields, HasType, Decodable, FieldsRead;
    RecordTyped(less, ty, v);
    RecordReads(less, ty, v);
    FieldsAreShort(less, ty, v.values, s);
  }

  lemma {:induction false} FieldsAreShort(less: Order, ty: Ty, vs: seq<Val>, s: PState)
    requires KeyOrder(less) && ty.Struct? && DistinctIds(ty) && FieldsTyped(less, ty, vs)
    requires FieldsRead(less, ty, vs) && Cut(s, EncFields(less, ty, vs))
    ensures Short(GetFields(less, ty, |vs|, s).1)
    decreases ty, 0, 0, |vs|
  {
    hide Get, Enc, HasType, Decodable, FieldsRead;
    var f := ty.fields[|ty.fields| - |vs|];
    FieldsReadSplit(less, ty, vs);
    var e := Enc(less, f, vs[0]);
    CutSplit(s, e, EncFields(less, ty, vs[1..]));
    if |s.buf| < s.off + |e| {
      CutIsShort(less, f, vs[0], s);
      DecodeIsSafe(less, f, s);
      FieldsAreSafe(less, ty, |vs| - 1, Get(less, f, s).1);
    } else {
      DecodeInvertsEncode(less, f, vs[0], s);
      FieldsAreShort(less, ty, vs[1..], Skip(s, e));
    }
  }

  lemma MapIsShort(less: Order, ty: Ty, v: Val, s: PState)
    requires KeyOrder(less) && ty.Map? && DistinctIds(ty) && HasType(less, ty, v) && Decodable(less, ty, v)
    requires Cut(s, Enc(less, ty, v))
    ensures Short(Get(less, ty, s).1)
    decreases ty, 0, 1, 0
  {
    hide GetEntries, EncKeyed, KeyAll, SortKeyed, Encodable;
    var es, ws := v.entries, SortByKey(less, ty, v.entries);
    SortedWire(less, ty, v);
    Pow256Values();
    CutSplit(s, BE(|es|, 4), EncKeyed(less, ty, KeyAll(less, ty, ws)));
    if |s.buf| < s.off + 4 {
      TakeCut(s, BE(|es|, 4));
    } else {
      TakeIntAt(s, |es|, 4);
      EntriesAreShort(less, ty, ws, Skip(s, BE(|es|, 4)), None, []);
    }
  }

  /** A cut inside one entry. */
  lemma EntryIsShort(
    less: Order, ty: Ty, n: nat, k: Val, v: Val, s: PState, prev: Option<bytes>, out: seq<(Val, Val)>)
    requires KeyOrder(less) && ty.Map? && DistinctIds(ty) && DictTyped(less, ty, out) && n > 0
    requires HasType(less, ty.key, k) && HasType(less, ty.val, v)
    requires Encodable(less, ty.key, k) && Decodable(less, ty.val, v)
    requires Cut(s, Enc(less, ty.key, k) + Enc(less, ty.val, v))
    requires prev.Some? ==> Lt(prev.value, Enc(less, ty.key, k))
    ensures Short(GetEntries(less, ty, n, s, prev, out).1)
    decreases ty, 0, 0, 0
  {
    hide Get, Enc, HasType, Encodable, Decodable, KeyState, InsertEntry, Lt;
    var kb, vb := Enc(less, ty.key, k), Enc(less, ty.val, v);
    EncodableIff(less, ty.key, k);
    CutSplit(s, kb, vb);
    if |s.buf| < s.off + |kb| {
      CutIsShort(less, ty.key, k, s);
    } else {
      DecodeInvertsEncode(less, ty.key, k, s);
      KeyStateWrites(less, ty.key, k);
      if prev.Some? { LtAsymmetric(prev.value, kb); }
      CutIsShort(less, ty.val, v, Skip(s, kb));
    }
  }

  lemma {:induction false} EntriesAreShort(
    less: Order, ty: Ty, ws: seq<(Val, Val)>, s: PState, prev: Option<bytes>, out: seq<(Val, Val)>)
    requires KeyOrder(less) && ty.Map? && DistinctIds(ty)
    requires WireOrder(less, ty, ws) && Above(less, ty, prev, ws) && ValuesRead(less, ty, ws)
    requires DictTyped(less, ty, out) && Below(less, ty, out, prev)
    requires Cut(s, EncKeyed(less, ty, KeyAll(less, ty, ws)))
    ensures Short(GetEntries(less, ty, |ws|, s, prev, out).1)
    decreases ty, 0, 0, |ws| + 1
  {
    hide Get, GetEntries, KeyState, Enc, EncKeyed, KeyAll, HasType, Encodable, Decodable, InsertEntry, Le, Lt, Below;
    SomeEntry(less, ty, ws, s);
    var (k, v) := ws[0];
    var kb, vb := Enc(less, ty.key, k), Enc(less, ty.val, v);
    WireTail(less, ty, ws);
    CutSplit(s, kb + vb, EncKeyed(less, ty, KeyAll(less, ty, ws[1..])));
    if |s.buf| < s.off + |kb + vb| {
      EntryIsShort(less, ty, |ws|, k, v, s, prev, out);
    } else {
      EntryInverts(less, ty, k, v, s, prev);
      BelowNext(less, ty, out, prev, k, v, kb);
      var s2, out' := Skip(s, kb + vb), InsertEntry(less, out, k, v);
      EntryLoopTurns(less, ty, |ws|, s, prev, out, k, v, Skip(s, kb), s2, kb);
      EntriesAreShort(less, ty, ws[1..], s2, Some(kb), out');
    }
  }

  lemma SomeEntry(less: Order, ty: Ty, ws: seq<(Val, Val)>, s: PState)
    requires ty.Map? && EntriesTyped(less, ty, ws) && Cut(s, EncKeyed(less, ty, KeyAll(less, ty, ws)))
    ensures ws != []
  {
  }

  /** The manager refuses every proper part of an encoding, from its start on, for its length: within the version as a
      version it cannot read, and behind it with the packer's error. */
  lemma CutIsRefused(less: Order, versions: set<u16>, maxSize: usize, version: u16, ty: Ty, v: Val, n: nat)
    requires KeyOrder(less) && DistinctIds(ty) && HasType(less, ty, v) && Decodable(less, ty, v)
    requires version in versions && n < |Enc(less, ty, v)| + VERSION_SIZE <= maxSize
    ensures UnmarshalWith(less, versions, maxSize, ty, (BE(version, 2) + Enc(less, ty, v))[..n])
         == Err(if n < 2 then CantUnpackVersion else PackerFailed(InsufficientLength))
  {
    hide Get, Enc, HasType, Decodable;
    var whole := BE(version, 2) + Enc(less, ty, v);
    var s := NewRead(whole[..n]);
    assert s.buf[s.off..] == whole[..n];
    CutSplit(s, BE(version, 2), Enc(less, ty, v));
    Pow256Values();
    if n >= 2 {
      TakeIntAt(s, version, 2);
      CutIsShort(less, ty, v, Skip(s, BE(version, 2)));
    }
  }
}
