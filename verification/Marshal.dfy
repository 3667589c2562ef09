/** Marshalling: what each value writes to a packer, its size in advance, and when it is refused. */
module Marshal {
  import opened Bytes
  import opened Packing
  import opened Ordered
  import opened Wire

  // ----- size -----

  function Size(less: Order, ty: Ty, v: Val): nat
    requires HasType(less, ty, v)
    decreases ty, 1, 0
  {
    if IsInt(ty) then Width(ty)
    else
      match ty
      case Bool => 1
      case Str => SatAdd(2, |v.utf8|)
      case Fixed(n) => n
      case Vec(elem) => SizeElems(less, ty, v.elems, 4)
      case Map(key, val) => SizeEntries(less, ty, v.entries, 4)
      case Struct(fields) => SizeFields(less, ty, v.values, 0)
      case Enum(variants) => SatAdd(4, Size(less, variants[v.variant].1, v.payload))
  }

  function SizeElems(less: Order, ty: Ty, vs: seq<Val>, total: nat): nat
    requires ty.Vec? && forall i :: 0 <= i < |vs| ==> HasType(less, ty.elem, vs[i])
    decreases ty, 0, |vs|
  {
    if vs == [] then total else SizeElems(less, ty, vs[1..], SatAdd(total, Size(less, ty.elem, vs[0])))
  }

  function SizeEntries(less: Order, ty: Ty, es: seq<(Val, Val)>, total: nat): nat
    requires ty.Map? && EntriesTyped(less, ty, es)
    decreases ty, 0, |es|
  {
    if es == [] then total
    else
      SizeEntries(less, ty, es[1..], SatAdd(SatAdd(total, Size(less, ty.key, es[0].0)), Size(less, ty.val, es[0].1)))
  }

  function SizeFields(less: Order, ty: Ty, vs: seq<Val>, total: nat): nat
    requires ty.Struct? && FieldsTyped(less, ty, vs)
    decreases ty, 0, |vs|
  {
    if vs == [] then total
    else SizeFields(less, ty, vs[1..], SatAdd(total, Size(less, ty.fields[|ty.fields| - |vs|], vs[0])))
  }

  // ----- marshalling -----

  function PackCount(s: PState, n: nat): PState {
    if n > I32_MAX then AddError(s, Oversized) else Emit(s, BE(n, 4))
  }

  function Put(less: Order, ty: Ty, v: Val, s: PState): PState
    requires HasType(less, ty, v)
    decreases ty, 1, 0
  {
    if IsInt(ty) then Emit(s, BE(v.num, Width(ty)))
    else
      match ty
      case Bool => Emit(s, [if v.flag then 1 else 0])
      case Str => StrPacked(s, v.utf8)
      case Fixed(n) => Emit(s, v.data)
      case Vec(elem) => PutElems(less, ty, v.elems, PackCount(s, |v.elems|))
      case Map(key, val) =>
        var s1 := PackCount(s, |v.entries|);
        if s1.err.Some? then s1
        else
          var (e, ks) := SerializeKeys(less, ty, v.entries);
          if e.Some? then AddError(s1, e.value) else PutKeyed(less, ty, SortKeyed(ks), s1)
      case Struct(fields) => PutFields(less, ty, v.values, s)
      case Enum(variants) => Put(less, variants[v.variant].1, v.payload, Emit(s, BE(variants[v.variant].0, 4)))
  }

  /** The element loop; an element that wrote nothing ends it with an error. */
  function PutElems(less: Order, ty: Ty, vs: seq<Val>, s: PState): PState
    requires ty.Vec? && forall i :: 0 <= i < |vs| ==> HasType(less, ty.elem, vs[i])
    decreases ty, 0, |vs|
  {
    if vs == [] then s
    else
      var s1 := Put(less, ty.elem, vs[0], s);
      if s1.err.None? && s1.Cursor() == s.Cursor() then AddError(s1, InvalidInput)
      else PutElems(less, ty, vs[1..], s1)
  }

  /** A key, into a scratch packer of exactly its size. */
  function KeyState(less: Order, ty: Ty, k: Val): PState
    requires HasType(less, ty, k)
    decreases ty, 2, 0
  {
    var size := Size(less, ty, k);
    Put(less, ty, k, NewWrite(if size > 1 then size else 1))
  }

  function SerializeKeys(less: Order, ty: Ty, es: seq<(Val, Val)>): (r: (Option<PackerError>, seq<Keyed>))
    requires ty.Map? && EntriesTyped(less, ty, es)
    ensures KeyedTyped(less, ty, r.1)
    decreases ty, 0, |es|
  {
    if es == [] then (None, [])
    else
      var n := |es| - 1;
      var (e, ks) := SerializeKeys(less, ty, es[..n]);
      if e.Some? then (e, ks)
      else
        var kp := KeyState(less, ty.key, es[n].0);
        if kp.err.Some? then (kp.err, ks) else (None, ks + [(kp.buf, es[n].1)])
  }

  function PutKeyed(less: Order, ty: Ty, ks: seq<Keyed>, s: PState): PState
    requires ty.Map? && KeyedTyped(less, ty, ks)
    decreases ty, 0, |ks|
  {
    if ks == [] then s
    else
      var s1 := Put(less, ty.val, ks[0].1, Emit(s, ks[0].0));
      if s1.err.Some? then s1 else PutKeyed(less, ty, ks[1..], s1)
  }

  function PutFields(less: Order, ty: Ty, vs: seq<Val>, s: PState): PState
    requires ty.Struct? && FieldsTyped(less, ty, vs)
    decreases ty, 0, |vs|
  {
    if vs == [] then s
    else PutFields(less, ty, vs[1..], Put(less, ty.fields[|ty.fields| - |vs|], vs[0], s))
  }

  // ----- the size is exact -----

  function Clip(n: nat): nat {
    if n > USIZE_MAX then USIZE_MAX else n
  }

  lemma ClipAdd(a: nat, b: nat)
    ensures SatAdd(Clip(a), Clip(b)) == Clip(a + b)
  {
  }

  /** The size computed in advance is the length written, clipped at the largest machine word. */
  lemma {:induction false} SizeExact(less: Order, ty: Ty, v: Val)
    requires HasType(less, ty, v)
    ensures Size(less, ty, v) == Clip(|Enc(less, ty, v)|)
    decreases ty, 1, 0
  {
    match ty
    case Vec(elem) => SizeListExact(less, ty, v);
    case Map(key, val) => SizeMapExact(less, ty, v);
    case Struct(fields) => SizeRecordExact(less, ty, v);
    case Enum(variants) => SizeVariantExact(less, ty, v);
    case _ =>
  }

  lemma SizeListExact(less: Order, ty: Ty, v: Val)
    requires ty.Vec? && HasType(less, ty, v)
    ensures Size(less, ty, v) == Clip(|Enc(less, ty, v)|)
    decreases ty, 0, |v.elems| + 1
  {
    SizeElemsExact(less, ty, v.elems, 4);
  }

  lemma SizeRecordExact(less: Order, ty: Ty, v: Val)
    requires ty.Struct? && HasType(less, ty, v)
    ensures Size(less, ty, v) == Clip(|Enc(less, ty, v)|)
    decreases ty, 0, |v.values| + 1
  {
    hide Size, Enc, EncFields, SizeFields, FieldsTyped, HasType;
    RecordTyped(less, ty, v);
    RecordSize(less, ty, v);
    SizeFieldsExact(less, ty, v.values, 0);
  }

  lemma RecordSize(less: Order, ty: Ty, v: Val)
    requires ty.Struct? && HasType(less, ty, v) && v.Record? && FieldsTyped(less, ty, v.values)
    ensures Size(less, ty, v) == SizeFields(less, ty, v.values, 0)
    ensures Enc(less, ty, v) == EncFields(less, ty, v.values)
  {
  }

  lemma RecordTyped(less: Order, ty: Ty, v: Val)
    requires ty.Struct? && HasType(less, ty, v)
    ensures v.Record? && FieldsTyped(less, ty, v.values)
  {
    var n := |v.values|;
    forall i | 0 <= i < n ensures HasType(less, ty.fields[|ty.fields| - n + i], v.values[i]) {
      assert |ty.fields| - n + i == i;
    }
  }

  lemma SizeMapExact(less: Order, ty: Ty, v: Val)
    requires ty.Map? && HasType(less, ty, v)
    ensures Size(less, ty, v) == Clip(|Enc(less, ty, v)|)
    decreases ty, 0, |v.entries| + 1
  {
    hide SizeEntries, EntriesTotal, EncKeyed, SortKeyed, KeyAll;
    SizeEntriesExact(less, ty, v.entries, 4);
    MapLength(less, ty, v);
  }

  lemma SizeVariantExact(less: Order, ty: Ty, v: Val)
    requires ty.Enum? && HasType(less, ty, v)
    ensures Size(less, ty, v) == Clip(|Enc(less, ty, v)|)
    decreases ty, 0, 0
  {
    SizeExact(less, ty.variants[v.variant].1, v.payload);
  }

  lemma {:induction false} SizeElemsExact(less: Order, ty: Ty, vs: seq<Val>, total: nat)
    requires ty.Vec? && forall i :: 0 <= i < |vs| ==> HasType(less, ty.elem, vs[i])
    ensures SizeElems(less, ty, vs, Clip(total)) == Clip(total + |EncElems(less, ty, vs)|)
    decreases ty, 0, |vs|
  {
    if vs != [] {
      SizeExact(less, ty.elem, vs[0]);
      SizeElemsExact(less, ty, vs[1..], total + |Enc(less, ty.elem, vs[0])|);
    }
  }

  lemma {:induction false} SizeFieldsExact(less: Order, ty: Ty, vs: seq<Val>, total: nat)
    requires ty.Struct? && FieldsTyped(less, ty, vs)
    ensures SizeFields(less, ty, vs, Clip(total)) == Clip(total + |EncFields(less, ty, vs)|)
    decreases ty, 0, |vs|
  {
    hide Size, Enc, HasType, Encodable;
    if vs != [] {
      var f := ty.fields[|ty.fields| - |vs|];
      FieldsOkSplit(less, ty, vs);
      assert HasType(less, ty.fields[|ty.fields| - |vs| + 0], vs[0]);
      SizeExact(less, f, vs[0]);
      SizeFieldsExact(less, ty, vs[1..], total + |Enc(less, f, vs[0])|);
    }
  }

  /** The bytes of keyed entries, in any order. */
  function KeyedLength(less: Order, ty: Ty, ks: seq<Keyed>): nat
    requires ty.Map? && KeyedTyped(less, ty, ks)
  {
    if ks == [] then 0
    else
      var n := |ks| - 1;
      KeyedLength(less, ty, ks[..n]) + |ks[n].0| + |Enc(less, ty.val, ks[n].1)|
  }

  lemma {:induction false} KeyedLengthCons(less: Order, ty: Ty, k: Keyed, ks: seq<Keyed>)
    requires ty.Map? && KeyedTyped(less, ty, ks) && HasType(less, ty.val, k.1)
    ensures KeyedTyped(less, ty, [k] + ks)
    ensures KeyedLength(less, ty, [k] + ks) == |k.0| + |Enc(less, ty.val, k.1)| + KeyedLength(less, ty, ks)
    decreases |ks|
  {
    hide Enc, HasType;
    var all := [k] + ks;
    if ks == [] {
      assert all[..0] == [];
    } else {
      var n := |ks| - 1;
      KeyedLengthCons(less, ty, k, ks[..n]);
      assert all[..n + 1] == [k] + ks[..n];
    }
  }

  lemma EntriesLength(less: Order, ty: Ty, es: seq<(Val, Val)>)
    requires ty.Map? && EntriesTyped(less, ty, es) && es != []
    ensures KeyedLength(less, ty, KeyAll(less, ty, es))
         == |Enc(less, ty.key, es[0].0)| + |Enc(less, ty.val, es[0].1)|
            + KeyedLength(less, ty, KeyAll(less, ty, es[1..]))
  {
    hide Enc, HasType, KeyAll, KeyedLength;
    assert es == [es[0]] + es[1..];
    KeyAllCons(less, ty, es[0], es[1..]);
    KeyedLengthCons(less, ty, (Enc(less, ty.key, es[0].0), es[0].1), KeyAll(less, ty, es[1..]));
  }

  /** The bytes of the entries, in iteration order. */
  function EntriesTotal(less: Order, ty: Ty, es: seq<(Val, Val)>): nat
    requires ty.Map? && EntriesTyped(less, ty, es)
  {
    if es == [] then 0
    else |Enc(less, ty.key, es[0].0)| + |Enc(less, ty.val, es[0].1)| + EntriesTotal(less, ty, es[1..])
  }

  lemma {:induction false} EntriesTotalIsKeyed(less: Order, ty: Ty, es: seq<(Val, Val)>)
    requires ty.Map? && EntriesTyped(less, ty, es)
    ensures EntriesTotal(less, ty, es) == KeyedLength(less, ty, KeyAll(less, ty, es))
  {
    if es != [] {
      EntriesTotalIsKeyed(less, ty, es[1..]);
      EntriesLength(less, ty, es);
    }
  }

  lemma {:induction false} SizeEntriesExact(less: Order, ty: Ty, es: seq<(Val, Val)>, total: nat)
    requires ty.Map? && EntriesTyped(less, ty, es)
    ensures SizeEntries(less, ty, es, Clip(total)) == Clip(total + EntriesTotal(less, ty, es))
    decreases ty, 0, |es|
  {
    if es != [] {
      var a, b := |Enc(less, ty.key, es[0].0)|, |Enc(less, ty.val, es[0].1)|;
      SizeExact(less, ty.key, es[0].0);
      SizeExact(less, ty.val, es[0].1);
      ClipAdd(total, a);
      ClipAdd(total + a, b);
      SizeEntriesExact(less, ty, es[1..], total + a + b);
    }
  }

  lemma {:induction false} InsertLength(less: Order, ty: Ty, p: Keyed, ks: seq<Keyed>)
    requires ty.Map? && KeyedTyped(less, ty, ks) && HasType(less, ty.val, p.1)
    ensures |EncKeyed(less, ty, InsertKeyed(p, ks))| == |p.0| + |Enc(less, ty.val, p.1)| + |EncKeyed(less, ty, ks)|
    decreases |ks|
  {
    if ks != [] && !Lt(p.0, ks[0].0) {
      InsertLength(less, ty, p, ks[1..]);
      assert InsertKeyed(p, ks)[1..] == InsertKeyed(p, ks[1..]);
    } else {
      assert ([p] + ks)[1..] == ks;
    }
  }

  lemma {:induction false} SortKeepsLength(less: Order, ty: Ty, ks: seq<Keyed>)
    requires ty.Map? && KeyedTyped(less, ty, ks)
    ensures |EncKeyed(less, ty, SortKeyed(ks))| == KeyedLength(less, ty, ks)
  {
    if ks != [] {
      var n := |ks| - 1;
      SortKeepsLength(less, ty, ks[..n]);
      InsertLength(less, ty, ks[n], SortKeyed(ks[..n]));
    }
  }

  lemma MapLength(less: Order, ty: Ty, v: Val)
    requires ty.Map? && HasType(less, ty, v)
    ensures |Enc(less, ty, v)| == 4 + EntriesTotal(less, ty, v.entries)
  {
    EntriesTotalIsKeyed(less, ty, v.entries);
    SortKeepsLength(less, ty, KeyAll(less, ty, v.entries));
  }

  // ----- once errored, nothing changes -----

  lemma {:induction false} PutSticky(less: Order, ty: Ty, v: Val, s: PState)
    requires HasType(less, ty, v) && s.err.Some?
    ensures Put(less, ty, v, s) == s
    decreases ty, 1, 0
  {
    hide Put, HasType;
    match ty
    case Vec(elem) => PutListSticky(less, ty, v, s);
    case Struct(fields) => PutRecordSticky(less, ty, v, s);
    case Enum(variants) => PutVariantSticky(less, ty, v, s);
    case _ => PutPlainSticky(less, ty, v, s);
  }

  lemma PutPlainSticky(less: Order, ty: Ty, v: Val, s: PState)
    requires HasType(less, ty, v) && s.err.Some? && !ty.Vec? && !ty.Struct? && !ty.Enum?
    ensures Put(less, ty, v, s) == s
  {
    hide PutKeyed, SerializeKeys, SortKeyed;
  }

  lemma PutListSticky(less: Order, ty: Ty, v: Val, s: PState)
    requires ty.Vec? && HasType(less, ty, v) && s.err.Some?
    ensures Put(less, ty, v, s) == s
    decreases ty, 0, |v.elems| + 1
  {
    hide PutElems;
    PutElemsSticky(less, ty, v.elems, s);
  }

  lemma PutRecordSticky(less: Order, ty: Ty, v: Val, s: PState)
    requires ty.Struct? && HasType(less, ty, v) && s.err.Some?
    ensures Put(less, ty, v, s) == s
    decreases ty, 0, |v.values| + 1
  {
    hide PutFields;
    RecordTyped(less, ty, v);
    PutFieldsSticky(less, ty, v.values, s);
  }

  lemma PutVariantSticky(less: Order, ty: Ty, v: Val, s: PState)
    requires ty.Enum? && HasType(less, ty, v) && s.err.Some?
    ensures Put(less, ty, v, s) == s
    decreases ty, 0, 0
  {
    PutSticky(less, ty.variants[v.variant].1, v.payload, s);
  }

  lemma {:induction false} PutElemsSticky(less: Order, ty: Ty, vs: seq<Val>, s: PState)
    requires ty.Vec? && forall i :: 0 <= i < |vs| ==> HasType(less, ty.elem, vs[i])
    requires s.err.Some?
    ensures PutElems(less, ty, vs, s) == s
    decreases ty, 0, |vs|
  {
    hide Put, HasType;
    if vs != [] {
      PutSticky(less, ty.elem, vs[0], s);
      PutElemsSticky(less, ty, vs[1..], s);
    }
  }

  lemma {:induction false} PutFieldsSticky(less: Order, ty: Ty, vs: seq<Val>, s: PState)
    requires ty.Struct? && FieldsTyped(less, ty, vs) && s.err.Some?
    ensures PutFields(less, ty, vs, s) == s
    decreases ty, 0, |vs|
  {
    hide Put, HasType, Encodable;
    if vs != [] {
      FieldsOkSplit(less, ty, vs);
      assert HasType(less, ty.fields[|ty.fields| - |vs| + 0], vs[0]);
      PutSticky(less, ty.fields[|ty.fields| - |vs|], vs[0], s);
      PutFieldsSticky(less, ty, vs[1..], s);
    }
  }

  // ----- what is written -----

  /** A write packer without an error and with room for n more bytes. */
  predicate Ready(s: PState, n: nat) {
    s.write && s.err.None? && |s.buf| + n <= s.max
  }

  predicate Refused(s: PState) {
    s.err == Some(InvalidInput) || s.err == Some(Oversized)
  }

  function Wrote(s: PState, data: bytes): PState {
    s.(buf := s.buf + data)
  }

  /** With room for its encoding, an acceptable value writes exactly its wire bytes and any other value
      leaves an error that is not about space. */
  ghost predicate Writes(s: PState, s': PState, ok: bool, data: bytes) {
    if ok then s' == Wrote(s, data) else Refused(s')
  }

  lemma WritesThen(s: PState, s1: PState, s2: PState, ok1: bool, ok2: bool, a: bytes, b: bytes)
    requires Writes(s, s1, ok1, a)
    requires ok1 ==> Writes(s1, s2, ok2, b)
    requires !ok1 ==> s2 == s1
    ensures Writes(s, s2, ok1 && ok2, a + b)
  {
    assert s.buf + (a + b) == s.buf + a + b;
  }

  lemma {:induction false} PutWrites(less: Order, ty: Ty, v: Val, s: PState)
    requires HasType(less, ty, v) && Ready(s, |Enc(less, ty, v)|) && s.max <= USIZE_MAX
    ensures Writes(s, Put(less, ty, v, s), Encodable(less, ty, v), Enc(less, ty, v))
    decreases ty, 1, 0
  {
    hide Put, Enc, HasType, Encodable;
    match ty
    case Vec(elem) => PutListWrites(less, ty, v, s);
    case Map(key, val) => PutMapWrites(less, ty, v, s);
    case Struct(fields) => PutRecordWrites(less, ty, v, s);
    case Enum(variants) => PutVariantWrites(less, ty, v, s);
    case _ => PutPlainWrites(less, ty, v, s);
  }

  lemma PutPlainWrites(less: Order, ty: Ty, v: Val, s: PState)
    requires HasType(less, ty, v) && Ready(s, |Enc(less, ty, v)|) && s.max <= USIZE_MAX
    requires !ty.Vec? && !ty.Map? && !ty.Struct? && !ty.Enum?
    ensures Writes(s, Put(less, ty, v, s), Encodable(less, ty, v), Enc(less, ty, v))
  {
    if ty.Str? { assert s.buf + (BE(|v.utf8|, 2) + v.utf8) == s.buf + BE(|v.utf8|, 2) + v.utf8; }
  }

  lemma PutListWrites(less: Order, ty: Ty, v: Val, s: PState)
    requires ty.Vec? && HasType(less, ty, v) && Ready(s, |Enc(less, ty, v)|) && s.max <= USIZE_MAX
    ensures Writes(s, Put(less, ty, v, s), Encodable(less, ty, v), Enc(less, ty, v))
    decreases ty, 0, |v.elems| + 1
  {
    hide PutElems, EncElems;
    var n := |v.elems|;
    var s1 := PackCount(s, n);
    if n <= I32_MAX {
      PutElemsWrites(less, ty, v.elems, s1);
      WritesThen(s, s1, Put(less, ty, v, s), true, ElemsOk(less, ty, v.elems), BE(n, 4), EncElems(less, ty, v.elems));
    } else {
      PutElemsSticky(less, ty, v.elems, s1);
    }
  }

  lemma PutRecordWrites(less: Order, ty: Ty, v: Val, s: PState)
    requires ty.Struct? && HasType(less, ty, v) && Ready(s, |Enc(less, ty, v)|) && s.max <= USIZE_MAX
    ensures Writes(s, Put(less, ty, v, s), Encodable(less, ty, v), Enc(less, ty, v))
    decreases ty, 0, |v.values| + 1
  {
    hide Put, PutFields, Enc, EncFields, HasType, Encodable, FieldsOk;
    RecordTyped(less, ty, v);
    RecordOk(less, ty, v, s);
    PutFieldsWrites(less, ty, v.values, s);
  }

  /** A record is its fields. */
  lemma RecordOk(less: Order, ty: Ty, v: Val, s: PState)
    requires ty.Struct? && HasType(less, ty, v) && v.Record? && FieldsTyped(less, ty, v.values)
    ensures Put(less, ty, v, s) == PutFields(less, ty, v.values, s)
    ensures Enc(less, ty, v) == EncFields(less, ty, v.values)
    ensures Encodable(less, ty, v) <==> FieldsOk(less, ty, v.values)
  {
    hide PutFields, EncFields, Encodable, FieldsOk;
    RecordEncodable(less, ty, v);
  }

  lemma StructEncodable(less: Order, ty: Ty, v: Val)
    requires ty.Struct? && HasType(less, ty, v)
    ensures v.Record? && |v.values| == |ty.fields|
    ensures forall i {:trigger v.values[i]} :: 0 <= i < |ty.fields| ==> HasType(less, ty.fields[i], v.values[i])
    ensures Encodable(less, ty, v)
       <==> forall i {:trigger v.values[i]} :: 0 <= i < |ty.fields| ==> Encodable(less, ty.fields[i], v.values[i])
  {
  }

  lemma RecordEncodable(less: Order, ty: Ty, v: Val)
    requires ty.Struct? && HasType(less, ty, v) && v.Record? && FieldsTyped(less, ty, v.values)
    ensures Encodable(less, ty, v) <==> FieldsOk(less, ty, v.values)
  {
    hide Enc, HasType, Encodable;
    StructEncodable(less, ty, v);
    if !FieldsOk(less, ty, v.values) {
      var i :| 0 <= i < |v.values| && !Encodable(less, ty.fields[|ty.fields| - |v.values| + i], v.values[i]);
      assert !Encodable(less, ty.fields[i], v.values[i]);
    }
    if !Encodable(less, ty, v) {
      var i :| 0 <= i < |ty.fields| && !Encodable(less, ty.fields[i], v.values[i]);
      assert !Encodable(less, ty.fields[|ty.fields| - |v.values| + i], v.values[i]);
    }
  }

  lemma PutVariantWrites(less: Order, ty: Ty, v: Val, s: PState)
    requires ty.Enum? && HasType(less, ty, v) && Ready(s, |Enc(less, ty, v)|) && s.max <= USIZE_MAX
    ensures Writes(s, Put(less, ty, v, s), Encodable(less, ty, v), Enc(less, ty, v))
    decreases ty, 0, 0
  {
    var (id, t) := ty.variants[v.variant];
    PutWrites(less, t, v.payload, Emit(s, BE(id, 4)));
    WritesThen(s, Emit(s, BE(id, 4)), Put(less, ty, v, s), true, Encodable(less, t, v.payload),
               BE(id, 4), Enc(less, t, v.payload));
  }

  predicate ElemsOk(less: Order, ty: Ty, vs: seq<Val>)
    requires ty.Vec? && forall i :: 0 <= i < |vs| ==> HasType(less, ty.elem, vs[i])
  {
    forall i :: 0 <= i < |vs| ==> Encodable(less, ty.elem, vs[i]) && Enc(less, ty.elem, vs[i]) != []
  }

  lemma {:induction false} PutElemsWrites(less: Order, ty: Ty, vs: seq<Val>, s: PState)
    requires ty.Vec? && forall i :: 0 <= i < |vs| ==> HasType(less, ty.elem, vs[i])
    requires Ready(s, |EncElems(less, ty, vs)|) && s.max <= USIZE_MAX
    ensures Writes(s, PutElems(less, ty, vs, s), ElemsOk(less, ty, vs), EncElems(less, ty, vs))
    decreases ty, 0, |vs|
  {
    if vs == [] {
      assert s.buf + [] == s.buf;
    } else {
      var e := Enc(less, ty.elem, vs[0]);
      PutWrites(less, ty.elem, vs[0], s);
      var s1 := Put(less, ty.elem, vs[0], s);
      var ok1 := Encodable(less, ty.elem, vs[0]) && e != [];
      assert ElemsOk(less, ty, vs) == (ok1 && ElemsOk(less, ty, vs[1..])) by {
        assert vs == [vs[0]] + vs[1..];
      }
      if ok1 {
        PutElemsWrites(less, ty, vs[1..], s1);
        WritesThen(s, s1, PutElems(less, ty, vs, s), true, ElemsOk(less, ty, vs[1..]), e, EncElems(less, ty, vs[1..]));
      } else if s1.err.Some? {
        PutElemsSticky(less, ty, vs[1..], s1);
      }
    }
  }

  predicate FieldsOk(less: Order, ty: Ty, vs: seq<Val>)
    requires ty.Struct? && FieldsTyped(less, ty, vs)
  {
    forall i :: 0 <= i < |vs| ==> Encodable(less, ty.fields[|ty.fields| - |vs| + i], vs[i])
  }

  lemma FieldsOkSplit(less: Order, ty: Ty, vs: seq<Val>)
    requires ty.Struct? && FieldsTyped(less, ty, vs) && vs != []
    ensures FieldsTyped(less, ty, vs[1..])
    ensures FieldsOk(less, ty, vs)
         == (Encodable(less, ty.fields[|ty.fields| - |vs|], vs[0]) && FieldsOk(less, ty, vs[1..]))
  {
    hide HasType, Encodable;
    var k := |ty.fields| - |vs|;
    assert vs == [vs[0]] + vs[1..] && HasType(less, ty.fields[k + 0], vs[0]);
    forall i | 0 <= i < |vs[1..]| ensures HasType(less, ty.fields[k + 1 + i], vs[1..][i]) {
      assert HasType(less, ty.fields[k + (i + 1)], vs[i + 1]);
    }
    assert forall i :: 0 <= i < |vs[1..]| ==> k + 1 + i == k + (i + 1) && vs[1..][i] == vs[i + 1];
  }

  lemma {:induction false} PutFieldsWrites(less: Order, ty: Ty, vs: seq<Val>, s: PState)
    requires ty.Struct? && FieldsTyped(less, ty, vs)
    requires Ready(s, |EncFields(less, ty, vs)|) && s.max <= USIZE_MAX
    ensures Writes(s, PutFields(less, ty, vs, s), FieldsOk(less, ty, vs), EncFields(less, ty, vs))
    decreases ty, 0, |vs|
  {
    hide HasType, Encodable, Enc, Put;
    if vs == [] {
      assert s.buf + [] == s.buf;
    } else {
      var f := ty.fields[|ty.fields| - |vs|];
      PutWrites(less, f, vs[0], s);
      var s1 := Put(less, f, vs[0], s);
      FieldsOkSplit(less, ty, vs);
      if Encodable(less, f, vs[0]) {
        PutFieldsWrites(less, ty, vs[1..], s1);
      } else {
        PutFieldsSticky(less, ty, vs[1..], s1);
      }
      WritesThen(s, s1, PutFields(less, ty, vs, s), Encodable(less, f, vs[0]), FieldsOk(less, ty, vs[1..]),
                 Enc(less, f, vs[0]), EncFields(less, ty, vs[1..]));
    }
  }

  /** The scratch packer of a key holds its wire bytes: its size was computed exactly. */
  lemma KeyStateWrites(less: Order, ty: Ty, k: Val)
    requires HasType(less, ty, k) && |Enc(less, ty, k)| <= USIZE_MAX
    ensures Encodable(less, ty, k) ==>
              KeyState(less, ty, k).err == None && KeyState(less, ty, k).buf == Enc(less, ty, k)
    ensures !Encodable(less, ty, k) ==> Refused(KeyState(less, ty, k))
    decreases ty, 2, 0
  {
    hide Size, Enc, Put, HasType, Encodable;
    SizeExact(less, ty, k);
    var size := Size(less, ty, k);
    var s := NewWrite(if size > 1 then size else 1);
    PutWrites(less, ty, k, s);
    assert [] + Enc(less, ty, k) == Enc(less, ty, k);
  }

  predicate KeysOk(less: Order, ty: Ty, es: seq<(Val, Val)>)
    requires ty.Map? && EntriesTyped(less, ty, es)
  {
    forall i :: 0 <= i < |es| ==> Encodable(less, ty.key, es[i].0)
  }

  lemma {:induction false} SerializeKeysWrites(less: Order, ty: Ty, es: seq<(Val, Val)>)
    requires ty.Map? && EntriesTyped(less, ty, es)
    requires forall i :: 0 <= i < |es| ==> |Enc(less, ty.key, es[i].0)| <= USIZE_MAX
    ensures KeysOk(less, ty, es) ==> SerializeKeys(less, ty, es) == (None, KeyAll(less, ty, es))
    ensures !KeysOk(less, ty, es) ==>
              SerializeKeys(less, ty, es).0 == Some(InvalidInput) || SerializeKeys(less, ty, es).0 == Some(Oversized)
    decreases ty, 0, |es|
  {
    hide Enc, HasType, KeyState, Encodable;
    if es != [] {
      var n := |es| - 1;
      SerializeKeysWrites(less, ty, es[..n]);
      KeyStateWrites(less, ty.key, es[n].0);
      assert KeysOk(less, ty, es) <==> KeysOk(less, ty, es[..n]) && Encodable(less, ty.key, es[n].0);
    }
  }

  predicate KeyedOk(less: Order, ty: Ty, ks: seq<Keyed>)
    requires ty.Map? && KeyedTyped(less, ty, ks)
  {
    forall k :: k in ks ==> Encodable(less, ty.val, k.1)
  }

  lemma {:induction false} PutKeyedWrites(less: Order, ty: Ty, ks: seq<Keyed>, s: PState)
    requires ty.Map? && KeyedTyped(less, ty, ks)
    requires Ready(s, |EncKeyed(less, ty, ks)|) && s.max <= USIZE_MAX
    ensures Writes(s, PutKeyed(less, ty, ks, s), KeyedOk(less, ty, ks), EncKeyed(less, ty, ks))
    decreases ty, 0, |ks|
  {
    if ks == [] {
      assert s.buf + [] == s.buf;
    } else {
      var s0 := Emit(s, ks[0].0);
      PutWrites(less, ty.val, ks[0].1, s0);
      var s1 := Put(less, ty.val, ks[0].1, s0);
      var ok1 := Encodable(less, ty.val, ks[0].1);
      WritesThen(s, s0, s1, true, ok1, ks[0].0, Enc(less, ty.val, ks[0].1));
      assert KeyedOk(less, ty, ks) == (ok1 && KeyedOk(less, ty, ks[1..])) by {
        assert ks == [ks[0]] + ks[1..];
      }
      if ok1 { PutKeyedWrites(less, ty, ks[1..], s1); }
      WritesThen(s, s1, PutKeyed(less, ty, ks, s), ok1, KeyedOk(less, ty, ks[1..]),
                 ks[0].0 + Enc(less, ty.val, ks[0].1), EncKeyed(less, ty, ks[1..]));
    }
  }

  lemma {:induction false} KeyFits(less: Order, ty: Ty, ks: seq<Keyed>, i: nat)
    requires ty.Map? && KeyedTyped(less, ty, ks) && i < |ks|
    ensures |ks[i].0| + |Enc(less, ty.val, ks[i].1)| <= KeyedLength(less, ty, ks)
  {
    var n := |ks| - 1;
    if i < n { KeyFits(less, ty, ks[..n], i); }
  }

  lemma PutMapWrites(less: Order, ty: Ty, v: Val, s: PState)
    requires ty.Map? && HasType(less, ty, v) && Ready(s, |Enc(less, ty, v)|) && s.max <= USIZE_MAX
    ensures Writes(s, Put(less, ty, v, s), Encodable(less, ty, v), Enc(less, ty, v))
    decreases ty, 0, |v.entries| + 1
  {
    hide SerializeKeys, SortKeyed, EncKeyed, PutKeyed, KeyAll, Size;
    var es := v.entries;
    var ks := KeyAll(less, ty, es);
    if |es| <= I32_MAX {
      var s1 := PackCount(s, |es|);
      SortKeepsLength(less, ty, ks);
      forall i | 0 <= i < |es| ensures |Enc(less, ty.key, es[i].0)| <= USIZE_MAX {
        KeyAllAt(less, ty, es, i);
        KeyFits(less, ty, ks, i);
      }
      SerializeKeysWrites(less, ty, es);
      EncodableMap(less, ty, v);
      if KeysOk(less, ty, es) {
        PutKeyedWrites(less, ty, SortKeyed(ks), s1);
        WritesThen(s, s1, Put(less, ty, v, s), true, KeyedOk(less, ty, SortKeyed(ks)),
                   BE(|es|, 4), EncKeyed(less, ty, SortKeyed(ks)));
      }
    }
  }

  lemma EncodableMap(less: Order, ty: Ty, v: Val)
    requires ty.Map? && HasType(less, ty, v)
    ensures Encodable(less, ty, v)
       <==> |v.entries| <= I32_MAX && KeysOk(less, ty, v.entries)
            && KeyedOk(less, ty, SortKeyed(KeyAll(less, ty, v.entries)))
  {
    hide Enc, SortKeyed;
    var es, ks := v.entries, KeyAll(less, ty, v.entries);
    KeyedOkSorted(less, ty, ks);
    assert KeyedOk(less, ty, ks) <==> forall i :: 0 <= i < |es| ==> Encodable(less, ty.val, es[i].1) by {
      if KeyedOk(less, ty, ks) {
        forall i | 0 <= i < |es| ensures Encodable(less, ty.val, es[i].1) { assert ks[i] in ks; }
      }
    }
  }

  lemma KeyedOkSorted(less: Order, ty: Ty, ks: seq<Keyed>)
    requires ty.Map? && KeyedTyped(less, ty, ks)
    ensures KeyedOk(less, ty, SortKeyed(ks)) == KeyedOk(less, ty, ks)
  {
  }
}
