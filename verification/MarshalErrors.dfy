/** Why the marshaller refuses a value: counts that are too large and everything else are told apart. */
module MarshalErrors {
  import opened Bytes
  import opened Packing
  import opened Ordered
  import opened Wire
  import opened Marshal
  import opened Canonical
  import opened CodecManager

  /** No over-long string and no list element of zero bytes inside. */
  predicate Tidy(less: Order, ty: Ty, v: Val)
    requires HasType(less, ty, v)
    decreases ty
  {
    match ty
    case Str => |v.utf8| <= MAX_STRING_LEN
    case Vec(elem) =>
      forall i :: 0 <= i < |v.elems| ==> Tidy(less, elem, v.elems[i]) && Enc(less, elem, v.elems[i]) != []
    case Map(key, val) =>
      forall i :: 0 <= i < |v.entries| ==> Tidy(less, key, v.entries[i].0) && Tidy(less, val, v.entries[i].1)
    case Struct(fields) =>
      forall i {:trigger v.values[i]} :: 0 <= i < |fields| ==> Tidy(less, fields[i], v.values[i])
    case Enum(variants) => Tidy(less, variants[v.variant].1, v.payload)
    case _ => true
  }

  /** The marshaller accepts exactly the tidy values with small counts. */
  lemma {:induction false} TidyIff(less: Order, ty: Ty, v: Val)
    requires HasType(less, ty, v)
    ensures Encodable(less, ty, v) <==> Tidy(less, ty, v) && CountsFit(less, ty, v)
    decreases ty
  {
    hide Enc;
    match ty
    case Vec(elem) =>
      forall i | 0 <= i < |v.elems| { TidyIff(less, elem, v.elems[i]); }
    case Map(key, val) =>
      forall i | 0 <= i < |v.entries| { TidyIff(less, key, v.entries[i].0); }
      forall i | 0 <= i < |v.entries| { TidyIff(less, val, v.entries[i].1); }
    case Struct(fields) =>
      forall i | 0 <= i < |fields| { TidyIff(less, fields[i], v.values[i]); }
    case Enum(variants) => TidyIff(less, variants[v.variant].1, v.payload);
    case _ =>
  }

  // ----- small counts are never called oversized -----

  predicate NotOversized(s: PState) {
    s.err != Some(Oversized)
  }

  lemma {:induction false} PutCounts(less: Order, ty: Ty, v: Val, s: PState)
    requires HasType(less, ty, v) && CountsFit(less, ty, v) && NotOversized(s)
    ensures NotOversized(Put(less, ty, v, s))
    decreases ty, 1, 0
  {
    hide PutElems, PutFields, PutKeyed, SerializeKeys, SortKeyed, Enc;
    match ty
    case Vec(elem) => PutElemCounts(less, ty, v.elems, PackCount(s, |v.elems|));
    case Map(key, val) => PutMapCounts(less, ty, v, s);
    case Struct(fields) => PutRecordCounts(less, ty, v, s);
    case Enum(variants) =>
      PutCounts(less, variants[v.variant].1, v.payload, Emit(s, BE(variants[v.variant].0, 4)));
    case _ =>
  }

  lemma {:induction false} PutElemCounts(less: Order, ty: Ty, vs: seq<Val>, s: PState)
    requires ty.Vec? && (forall i :: 0 <= i < |vs| ==> HasType(less, ty.elem, vs[i])) && NotOversized(s)
    requires forall i :: 0 <= i < |vs| ==> CountsFit(less, ty.elem, vs[i])
    ensures NotOversized(PutElems(less, ty, vs, s))
    decreases ty, 0, |vs|
  {
    hide Put, HasType, CountsFit;
    if vs != [] {
      PutCounts(less, ty.elem, vs[0], s);
      PutElemCounts(less, ty, vs[1..], Put(less, ty.elem, vs[0], s));
    }
  }

  lemma PutRecordCounts(less: Order, ty: Ty, v: Val, s: PState)
    requires ty.Struct? && HasType(less, ty, v) && CountsFit(less, ty, v) && NotOversized(s)
    ensures NotOversized(Put(less, ty, v, s))
    decreases ty, 0, |ty.fields| + 1
  {
    hide PutFields, EncFields;
    RecordTyped(less, ty, v);
    RecordFits(less, ty, v);
    PutFieldCounts(less, ty, v.values, s);
  }

  lemma RecordFits(less: Order, ty: Ty, v: Val)
    requires ty.Struct? && HasType(less, ty, v) && CountsFit(less, ty, v)
    requires v.Record? && FieldsTyped(less, ty, v.values)
    ensures FieldsFit(less, ty, v.values)
  {
    var k := |ty.fields| - |v.values|;
    forall i | 0 <= i < |v.values| ensures CountsFit(less, ty.fields[k + i], v.values[i]) {
      assert CountsFit(less, ty.fields[i], v.values[i]);
    }
  }

  lemma FieldCountsSplit(less: Order, ty: Ty, vs: seq<Val>)
    requires ty.Struct? && FieldsTyped(less, ty, vs) && vs != [] && FieldsFit(less, ty, vs)
    ensures FieldsTyped(less, ty, vs[1..]) && FieldsFit(less, ty, vs[1..])
    ensures HasType(less, ty.fields[|ty.fields| - |vs|], vs[0]) && CountsFit(less, ty.fields[|ty.fields| - |vs|], vs[0])
  {
    hide HasType, CountsFit;
    var k, rest := |ty.fields| - |vs|, vs[1..];
    assert HasType(less, ty.fields[k + 0], vs[0]) && CountsFit(less, ty.fields[k + 0], vs[0]);
    forall i | 0 <= i < |rest|
      ensures HasType(less, ty.fields[k + 1 + i], rest[i]) && CountsFit(less, ty.fields[k + 1 + i], rest[i])
    {
      assert HasType(less, ty.fields[k + (i + 1)], vs[i + 1]) && CountsFit(less, ty.fields[k + (i + 1)], vs[i + 1]);
    }
  }

  lemma {:induction false} PutFieldCounts(less: Order, ty: Ty, vs: seq<Val>, s: PState)
    requires ty.Struct? && FieldsTyped(less, ty, vs) && FieldsFit(less, ty, vs) && NotOversized(s)
    ensures NotOversized(PutFields(less, ty, vs, s))
    decreases ty, 0, |vs|
  {
    hide Put, HasType, CountsFit, FieldsFit;
    if vs != [] {
      FieldCountsSplit(less, ty, vs);
      var f := ty.fields[|ty.fields| - |vs|];
      PutCounts(less, f, vs[0], s);
      PutFieldCounts(less, ty, vs[1..], Put(less, f, vs[0], s));
    }
  }

  lemma {:induction false} KeyCounts(less: Order, ty: Ty, es: seq<(Val, Val)>)
    requires ty.Map? && EntriesTyped(less, ty, es)
    requires forall i :: 0 <= i < |es| ==> CountsFit(less, ty.key, es[i].0)
    ensures SerializeKeys(less, ty, es).0 != Some(Oversized)
    decreases ty, 0, 0, |es|
  {
    hide Put, HasType, CountsFit, Size;
    if es != [] {
      var n := |es| - 1;
      KeyCounts(less, ty, es[..n]);
      var size := Size(less, ty.key, es[n].0);
      PutCounts(less, ty.key, es[n].0, NewWrite(if size > 1 then size else 1));
    }
  }

  lemma {:induction false} PutKeyedCounts(less: Order, ty: Ty, ks: seq<Keyed>, s: PState)
    requires ty.Map? && KeyedTyped(less, ty, ks) && NotOversized(s)
    requires forall k :: k in ks ==> CountsFit(less, ty.val, k.1)
    ensures NotOversized(PutKeyed(less, ty, ks, s))
    decreases ty, 0, 0, |ks|
  {
    hide Put, HasType, CountsFit;
    if ks != [] {
      assert ks[0] in ks;
      PutCounts(less, ty.val, ks[0].1, Emit(s, ks[0].0));
      PutKeyedCounts(less, ty, ks[1..], Put(less, ty.val, ks[0].1, Emit(s, ks[0].0)));
    }
  }

  /** The values that the keys are written with are the map's. */
  lemma {:induction false} SerializedValues(less: Order, ty: Ty, es: seq<(Val, Val)>, k: Keyed)
    requires ty.Map? && EntriesTyped(less, ty, es) && k in SerializeKeys(less, ty, es).1
    ensures exists i :: 0 <= i < |es| && es[i].1 == k.1
    decreases |es|
  {
    hide KeyState, HasType;
    var n := |es| - 1;
    if k in SerializeKeys(less, ty, es[..n]).1 {
      SerializedValues(less, ty, es[..n], k);
      var i :| 0 <= i < n && es[..n][i].1 == k.1;
      assert es[i].1 == k.1;
    } else {
      assert es[n].1 == k.1;
    }
  }

  lemma PutMapCounts(less: Order, ty: Ty, v: Val, s: PState)
    requires ty.Map? && HasType(less, ty, v) && CountsFit(less, ty, v) && NotOversized(s)
    ensures NotOversized(Put(less, ty, v, s))
    decreases ty, 0, 1, 0
  {
    hide SerializeKeys, SortKeyed, PutKeyed;
    var es, s1 := v.entries, PackCount(s, |v.entries|);
    KeyCounts(less, ty, es);
    var (e, ks) := SerializeKeys(less, ty, es);
    if s1.err.None? && e.None? {
      forall k | k in SortKeyed(ks) ensures CountsFit(less, ty.val, k.1) {
        SerializedValues(less, ty, es, k);
        var i :| 0 <= i < |es| && es[i].1 == k.1;
      }
      PutKeyedCounts(less, ty, SortKeyed(ks), s1);
    }
  }

  // ----- tidy values are never called invalid -----

  predicate NotInvalid(s: PState) {
    s.err != Some(InvalidInput)
  }

  /** Room for so many bytes in a packer of machine size. */
  predicate Roomy(s: PState, n: nat) {
    Ready(s, n) && s.max <= USIZE_MAX
  }

  lemma {:induction false} PutTidy(less: Order, ty: Ty, v: Val, s: PState)
    requires HasType(less, ty, v) && Tidy(less, ty, v) && Roomy(s, |Enc(less, ty, v)|)
    ensures NotInvalid(Put(less, ty, v, s))
    decreases ty, 1, 0
  {
    match ty
    case Vec(elem) => PutListTidy(less, ty, v, s);
    case Map(key, val) => PutMapTidy(less, ty, v, s);
    case Struct(fields) => PutRecordTidy(less, ty, v, s);
    case Enum(variants) =>
      PutTidy(less, variants[v.variant].1, v.payload, Emit(s, BE(variants[v.variant].0, 4)));
    case _ =>
  }

  lemma PutListTidy(less: Order, ty: Ty, v: Val, s: PState)
    requires ty.Vec? && HasType(less, ty, v) && Tidy(less, ty, v) && Roomy(s, |Enc(less, ty, v)|)
    ensures NotInvalid(Put(less, ty, v, s))
    decreases ty, 0, 1, 0
  {
    hide PutElems, EncElems;
    var s1 := PackCount(s, |v.elems|);
    if |v.elems| <= I32_MAX {
      PutElemsTidy(less, ty, v.elems, s1);
    } else {
      PutElemsSticky(less, ty, v.elems, s1);
    }
  }

  lemma {:induction false} PutElemsTidy(less: Order, ty: Ty, vs: seq<Val>, s: PState)
    requires ty.Vec? && (forall i :: 0 <= i < |vs| ==> HasType(less, ty.elem, vs[i]))
    requires forall i :: 0 <= i < |vs| ==> Tidy(less, ty.elem, vs[i]) && Enc(less, ty.elem, vs[i]) != []
    requires Roomy(s, |EncElems(less, ty, vs)|)
    ensures NotInvalid(PutElems(less, ty, vs, s))
    decreases ty, 0, 0, |vs|
  {
    hide Put, HasType, Tidy, Encodable, Enc;
    if vs != [] {
      PutTidy(less, ty.elem, vs[0], s);
      PutWrites(less, ty.elem, vs[0], s);
      var s1 := Put(less, ty.elem, vs[0], s);
      if s1.err.None? {
        PutElemsTidy(less, ty, vs[1..], s1);
      } else {
        PutElemsSticky(less, ty, vs[1..], s1);
      }
    }
  }

  lemma PutRecordTidy(less: Order, ty: Ty, v: Val, s: PState)
    requires ty.Struct? && HasType(less, ty, v) && Tidy(less, ty, v) && Roomy(s, |Enc(less, ty, v)|)
    ensures NotInvalid(Put(less, ty, v, s))
    decreases ty, 0, 1, 0
  {
    hide PutFields, EncFields;
    RecordTyped(less, ty, v);
    RecordSize(less, ty, v);
    RecordTidy(less, ty, v);
    PutFieldsTidy(less, ty, v.values, s);
  }

  predicate FieldsTidy(less: Order, ty: Ty, vs: seq<Val>)
    requires ty.Struct? && FieldsTyped(less, ty, vs)
  {
    forall i :: 0 <= i < |vs| ==> Tidy(less, ty.fields[|ty.fields| - |vs| + i], vs[i])
  }

  lemma RecordTidy(less: Order, ty: Ty, v: Val)
    requires ty.Struct? && HasType(less, ty, v) && Tidy(less, ty, v) && v.Record? && FieldsTyped(less, ty, v.values)
    ensures FieldsTidy(less, ty, v.values)
  {
    var k := |ty.fields| - |v.values|;
    forall i | 0 <= i < |v.values| ensures Tidy(less, ty.fields[k + i], v.values[i]) {
      assert Tidy(less, ty.fields[i], v.values[i]);
    }
  }

  lemma FieldsTidySplit(less: Order, ty: Ty, vs: seq<Val>)
    requires ty.Struct? && FieldsTyped(less, ty, vs) && vs != [] && FieldsTidy(less, ty, vs)
    ensures FieldsTyped(less, ty, vs[1..]) && FieldsTidy(less, ty, vs[1..])
    ensures HasType(less, ty.fields[|ty.fields| - |vs|], vs[0]) && Tidy(less, ty.fields[|ty.fields| - |vs|], vs[0])
  {
    hide HasType, Tidy;
    var k, rest := |ty.fields| - |vs|, vs[1..];
    assert HasType(less, ty.fields[k + 0], vs[0]) && Tidy(less, ty.fields[k + 0], vs[0]);
    forall i | 0 <= i < |rest|
      ensures HasType(less, ty.fields[k + 1 + i], rest[i]) && Tidy(less, ty.fields[k + 1 + i], rest[i])
    {
      assert HasType(less, ty.fields[k + (i + 1)], vs[i + 1]) && Tidy(less, ty.fields[k + (i + 1)], vs[i + 1]);
    }
  }

  lemma {:induction false} PutFieldsTidy(less: Order, ty: Ty, vs: seq<Val>, s: PState)
    requires ty.Struct? && FieldsTyped(less, ty, vs) && FieldsTidy(less, ty, vs)
    requires Roomy(s, |EncFields(less, ty, vs)|)
    ensures NotInvalid(PutFields(less, ty, vs, s))
    decreases ty, 0, 0, |vs|
  {
    hide Put, HasType, Tidy, Encodable, Enc, FieldsTidy;
    if vs != [] {
      FieldsTidySplit(less, ty, vs);
      var f := ty.fields[|ty.fields| - |vs|];
      PutTidy(less, f, vs[0], s);
      PutWrites(less, f, vs[0], s);
      var s1 := Put(less, f, vs[0], s);
      if s1.err.None? {
        PutFieldsTidy(less, ty, vs[1..], s1);
      } else {
        PutFieldsSticky(less, ty, vs[1..], s1);
      }
    }
  }

  lemma {:induction false} KeysTidy(less: Order, ty: Ty, es: seq<(Val, Val)>)
    requires ty.Map? && EntriesTyped(less, ty, es)
    requires forall i :: 0 <= i < |es| ==> Tidy(less, ty.key, es[i].0) && |Enc(less, ty.key, es[i].0)| <= USIZE_MAX
    ensures SerializeKeys(less, ty, es).0 != Some(InvalidInput)
    decreases ty, 0, 0, |es|
  {
    hide Put, HasType, Tidy, Size, Enc;
    if es != [] {
      var n := |es| - 1;
      KeysTidy(less, ty, es[..n]);
      SizeExact(less, ty.key, es[n].0);
      var size := Size(less, ty.key, es[n].0);
      PutTidy(less, ty.key, es[n].0, NewWrite(if size > 1 then size else 1));
    }
  }

  lemma {:induction false} PutKeyedTidy(less: Order, ty: Ty, ks: seq<Keyed>, s: PState)
    requires ty.Map? && KeyedTyped(less, ty, ks) && Roomy(s, |EncKeyed(less, ty, ks)|)
    requires forall k :: k in ks ==> Tidy(less, ty.val, k.1)
    ensures NotInvalid(PutKeyed(less, ty, ks, s))
    decreases ty, 0, 0, |ks|
  {
    hide Put, HasType, Tidy, Encodable, Enc;
    if ks != [] {
      assert ks[0] in ks;
      var s0 := Emit(s, ks[0].0);
      PutTidy(less, ty.val, ks[0].1, s0);
      PutWrites(less, ty.val, ks[0].1, s0);
      var s1 := Put(less, ty.val, ks[0].1, s0);
      if s1.err.None? { PutKeyedTidy(less, ty, ks[1..], s1); }
    }
  }

  lemma KeyLengths(less: Order, ty: Ty, es: seq<(Val, Val)>)
    requires ty.Map? && EntriesTyped(less, ty, es)
    requires |EncKeyed(less, ty, SortKeyed(KeyAll(less, ty, es)))| <= USIZE_MAX
    ensures forall i :: 0 <= i < |es| ==> |Enc(less, ty.key, es[i].0)| <= USIZE_MAX
  {
    hide SortKeyed, EncKeyed, KeyAll, Enc;
    var ks := KeyAll(less, ty, es);
    SortKeepsLength(less, ty, ks);
    forall i | 0 <= i < |es| ensures |Enc(less, ty.key, es[i].0)| <= USIZE_MAX {
      KeyAllAt(less, ty, es, i);
      KeyFits(less, ty, ks, i);
    }
  }

  lemma PutMapTidy(less: Order, ty: Ty, v: Val, s: PState)
    requires ty.Map? && HasType(less, ty, v) && Tidy(less, ty, v) && Roomy(s, |Enc(less, ty, v)|)
    ensures NotInvalid(Put(less, ty, v, s))
    decreases ty, 0, 1, 0
  {
    hide SerializeKeys, SortKeyed, PutKeyed, EncKeyed, KeyAll, Encodable;
    var es := v.entries;
    if |es| <= I32_MAX {
      var s1 := PackCount(s, |es|);
      KeyLengths(less, ty, es);
      KeysTidy(less, ty, es);
      SerializeKeysWrites(less, ty, es);
      var (e, ks) := SerializeKeys(less, ty, es);
      if e.None? {
        forall k | k in SortKeyed(ks) ensures Tidy(less, ty.val, k.1) {
          SerializedValues(less, ty, es, k);
          var i :| 0 <= i < |es| && es[i].1 == k.1;
        }
        PutKeyedTidy(less, ty, SortKeyed(ks), s1);
      }
    }
  }

  // ----- the manager's error -----

  /** A value that is refused is refused for its counts if nothing else is wrong with it, and as invalid input if its
      counts are small. */
  lemma RefusedFor(less: Order, versions: set<u16>, maxSize: usize, version: u16, ty: Ty, v: Val)
    requires HasType(less, ty, v) && version in versions && |Enc(less, ty, v)| + VERSION_SIZE <= USIZE_MAX
    ensures var r := MarshalWith(less, versions, maxSize, version, ty, v);
            && (Tidy(less, ty, v) && !CountsFit(less, ty, v) ==> r == Err(MaxSliceLenExceeded))
            && (!Tidy(less, ty, v) && CountsFit(less, ty, v) ==> r == Err(PackerFailed(InvalidInput)))
  {
    hide Put, Enc, HasType, Tidy, CountsFit, Encodable;
    TidyIff(less, ty, v);
    SizeExact(less, ty, v);
    var n := |Enc(less, ty, v)|;
    VersionFits(maxSize, n, version);
    var s := VersionPacked(maxSize, n + VERSION_SIZE, version);
    PutWrites(less, ty, v, s);
    var s' := Put(less, ty, v, s);
    MarshalGives(less, versions, maxSize, version, ty, v, n, s');
    if Tidy(less, ty, v) { PutTidy(less, ty, v, s); }
    if CountsFit(less, ty, v) { PutCounts(less, ty, v, s); }
  }
}
