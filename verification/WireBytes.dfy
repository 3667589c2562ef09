/** The bytes of a value at each offset. */
module WireBytes {
  import opened Bytes
  import opened Packing
  import opened Ordered
  import opened Wire

  /** An integer is its bytes, most significant first. */
  lemma IntAt(less: Order, ty: Ty, v: Val, i: nat)
    requires IsInt(ty) && HasType(less, ty, v) && i < Width(ty)
    ensures |Enc(less, ty, v)| == Width(ty) && Enc(less, ty, v)[i] == Digit(v.num, Width(ty) - 1 - i)
  {
    BEAt(v.num, Width(ty), i);
  }

  /** The number in front of a value, and its width: the length of a string in two bytes, the count of a list or a map
      and the type id of a variant in four. */
  function Front(ty: Ty, v: Val): (nat, nat) {
    match (ty, v)
    case (Str, Text(utf8)) => (|utf8|, 2)
    case (Vec(_), List(elems)) => (|elems|, 4)
    case (Map(_, _), Dict(entries)) => (|entries|, 4)
    case (Enum(variants), Tagged(k, _)) => (if k < |variants| then variants[k].0 else 0, 4)
    case _ => (0, 0)
  }

  lemma FrontAt(less: Order, ty: Ty, v: Val, i: nat)
    requires HasType(less, ty, v) && i < Front(ty, v).1
    ensures var (n, w) := Front(ty, v);
            |Enc(less, ty, v)| >= w && Enc(less, ty, v)[i] == Digit(n, w - 1 - i)
  {
    var (n, w) := Front(ty, v);
    hide EncElems, EncKeyed, EncFields, KeyAll, SortKeyed;
    BEAt(n, w, i);
  }

  /** What stands behind it. */
  lemma Behind(less: Order, ty: Ty, v: Val)
    requires HasType(less, ty, v)
    ensures |Enc(less, ty, v)| >= Front(ty, v).1
    ensures var rest := Enc(less, ty, v)[Front(ty, v).1..];
            match ty
            case Bool => rest == if v.flag then [1] else [0]
            case Str => rest == v.utf8
            case Fixed(_) => rest == v.data
            case Vec(_) => rest == EncElems(less, ty, v.elems)
            case Struct(_) => rest == EncFields(less, ty, v.values)
            case Enum(variants) => rest == Enc(less, variants[v.variant].1, v.payload)
            case _ => true
  {
    hide EncElems, EncKeyed, EncFields, KeyAll, SortKeyed;
  }

  /** Element i of a list stands behind the elements before it. */
  lemma {:induction false} ElemAt(less: Order, ty: Ty, vs: seq<Val>, i: nat)
    requires ty.Vec? && (forall k :: 0 <= k < |vs| ==> HasType(less, ty.elem, vs[k])) && i < |vs|
    ensures EncElems(less, ty, vs)
         == EncElems(less, ty, vs[..i]) + Enc(less, ty.elem, vs[i]) + EncElems(less, ty, vs[i + 1..])
  {
    hide Enc, HasType;
    if i == 0 {
      assert vs[..0] == [];
    } else {
      ElemAt(less, ty, vs[1..], i - 1);
      assert vs[1..][..i - 1] == vs[..i][1..] && vs[1..][i - 1] == vs[i] && vs[1..][i..] == vs[i + 1..];
      assert vs[..i][0] == vs[0];
    }
  }

  lemma FieldsFrom(less: Order, ty: Ty, v: Val, i: nat)
    requires ty.Struct? && HasType(less, ty, v) && i <= |ty.fields|
    ensures i <= |v.values| && FieldsTyped(less, ty, v.values[i..])
    ensures i < |v.values| ==> HasType(less, ty.fields[i], v.values[i])
  {
    var vs := v.values[i..];
    forall k | 0 <= k < |vs| ensures HasType(less, ty.fields[|ty.fields| - |vs| + k], vs[k]) {
      assert vs[k] == v.values[i + k];
    }
  }

  /** Field i of a struct stands in its place in the order of the fields. */
  lemma FieldAt(less: Order, ty: Ty, v: Val, i: nat)
    requires ty.Struct? && HasType(less, ty, v) && i < |ty.fields|
    ensures FieldsTyped(less, ty, v.values[i..]) && FieldsTyped(less, ty, v.values[i + 1..])
    ensures EncFields(less, ty, v.values[i..])
         == Enc(less, ty.fields[i], v.values[i]) + EncFields(less, ty, v.values[i + 1..])
  {
    FieldsFrom(less, ty, v, i);
    FieldsFrom(less, ty, v, i + 1);
    hide HasType;
    assert v.values[i..][1..] == v.values[i + 1..];
  }

  /** The entries of a map stand in the order of their key bytes, each key before its value. */
  lemma EntriesAt(less: Order, ty: Ty, v: Val) returns (ks: seq<Keyed>)
    requires ty.Map? && HasType(less, ty, v) && DistinctKeys(KeyAll(less, ty, v.entries))
    ensures KeyedTyped(less, ty, ks) && |ks| == |v.entries| && Sorted(KeyLt, ks)
    ensures forall i :: 0 <= i < |v.entries| ==> (Enc(less, ty.key, v.entries[i].0), v.entries[i].1) in ks
    ensures Enc(less, ty, v)[4..] == EncKeyed(less, ty, ks)
  {
    hide EncKeyed, SortKeyed, KeyAll;
    var all := KeyAll(less, ty, v.entries);
    ks := SortKeyed(all);
    SortKeyedSorted(all);
    forall i | 0 <= i < |v.entries| ensures (Enc(less, ty.key, v.entries[i].0), v.entries[i].1) in ks {
      KeyAllAt(less, ty, v.entries, i);
      assert all[i] in all;
    }
  }
}
