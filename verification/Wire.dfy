/** The wire format: the types the codec handles, their values, and the bytes of a value. */
module Wire {
  import opened Bytes
  import opened Packing
  import opened Ordered

  datatype Ty =
    | U8 | U16 | U32 | U64
    | Bool
    | Str
    | Fixed(n: usize)
    | Vec(elem: Ty)
    | Map(key: Ty, val: Ty)
    | Struct(fields: seq<Ty>)
    | Enum(variants: seq<(u32, Ty)>)

  /** A map value lists its entries in the iteration order of a sorted map. */
  datatype Val =
    | Num(num: nat)
    | Flag(flag: bool)
    | Text(utf8: bytes)
    | Raw(data: bytes)
    | List(elems: seq<Val>)
    | Dict(entries: seq<(Val, Val)>)
    | Record(values: seq<Val>)
    | Tagged(variant: nat, payload: Val)

  /** The order of the key type, which sorted maps iterate by. */
  type Order = (Val, Val) -> bool

  function Width(ty: Ty): nat {
    match ty
    case U8 => 1
    case U16 => 2
    case U32 => 4
    case _ => 8
  }

  predicate IsInt(ty: Ty) {
    ty.U8? || ty.U16? || ty.U32? || ty.U64?
  }

  predicate KeysSorted(less: Order, es: seq<(Val, Val)>) {
    forall i, j :: 0 <= i < j < |es| ==> less(es[i].0, es[j].0)
  }

  predicate HasType(less: Order, ty: Ty, v: Val)
    decreases ty
  {
    if IsInt(ty) then v.Num? && v.num < Pow256(Width(ty))
    else
      match ty
      case Bool => v.Flag?
      case Str => v.Text? && ValidUtf8(v.utf8)
      case Fixed(n) => v.Raw? && |v.data| == n
      case Vec(elem) => v.List? && forall i :: 0 <= i < |v.elems| ==> HasType(less, elem, v.elems[i])
      case Map(key, val) =>
        && v.Dict? && KeysSorted(less, v.entries)
        && forall i :: 0 <= i < |v.entries| ==> HasType(less, key, v.entries[i].0) && HasType(less, val, v.entries[i].1)
      case Struct(fields) =>
        && v.Record? && |v.values| == |fields|
        && forall i {:trigger v.values[i]} :: 0 <= i < |fields| ==> HasType(less, fields[i], v.values[i])
      case Enum(variants) =>
        v.Tagged? && v.variant < |variants| && HasType(less, variants[v.variant].1, v.payload)
  }

  /** Different variants have different type ids, at every level. */
  predicate DistinctIds(ty: Ty) {
    match ty
    case Vec(elem) => DistinctIds(elem)
    case Map(key, val) => DistinctIds(key) && DistinctIds(val)
    case Struct(fields) => forall i :: 0 <= i < |fields| ==> DistinctIds(fields[i])
    case Enum(variants) =>
      && (forall i, j :: 0 <= i < j < |variants| ==> variants[i].0 != variants[j].0)
      && (forall i :: 0 <= i < |variants| ==> DistinctIds(variants[i].1))
    case _ => true
  }

  // ----- the bytes of a value -----

  /** A map entry with its key already serialized. */
  type Keyed = (bytes, Val)

  predicate KeyLt(a: Keyed, b: Keyed) {
    Lt(a.0, b.0)
  }

  function InsertKeyed(p: Keyed, s: seq<Keyed>): (r: seq<Keyed>)
    ensures |r| == |s| + 1
    ensures forall x :: x in r <==> x == p || x in s
  {
    if s == [] then [p]
    else if Lt(p.0, s[0].0) then [p] + s
    else [s[0]] + InsertKeyed(p, s[1..])
  }

  /** Stable sort by key bytes. */
  function SortKeyed(s: seq<Keyed>): (r: seq<Keyed>)
    ensures |r| == |s|
    ensures forall x :: x in r <==> x in s
  {
    if s == [] then []
    else
      var n := |s| - 1;
      assert s == s[..n] + [s[n]];
      InsertKeyed(s[n], SortKeyed(s[..n]))
  }

  /** The wire bytes, whether or not the marshaller accepts the value. */
  function Enc(less: Order, ty: Ty, v: Val): bytes
    requires HasType(less, ty, v)
    decreases ty, 1, 0
  {
    if IsInt(ty) then BE(v.num, Width(ty))
    else
      match ty
      case Bool => [if v.flag then 1 else 0]
      case Str => BE(|v.utf8|, 2) + v.utf8
      case Fixed(n) => v.data
      case Vec(elem) => BE(|v.elems|, 4) + EncElems(less, ty, v.elems)
      case Map(key, val) => BE(|v.entries|, 4) + EncKeyed(less, ty, SortKeyed(KeyAll(less, ty, v.entries)))
      case Struct(fields) => EncFields(less, ty, v.values)
      case Enum(variants) => BE(variants[v.variant].0, 4) + Enc(less, variants[v.variant].1, v.payload)
  }

  function EncElems(less: Order, ty: Ty, vs: seq<Val>): bytes
    requires ty.Vec? && forall i :: 0 <= i < |vs| ==> HasType(less, ty.elem, vs[i])
    decreases ty, 0, |vs|
  {
    if vs == [] then [] else Enc(less, ty.elem, vs[0]) + EncElems(less, ty, vs[1..])
  }

  predicate EntriesTyped(less: Order, ty: Ty, es: seq<(Val, Val)>)
    requires ty.Map?
  {
    forall i :: 0 <= i < |es| ==> HasType(less, ty.key, es[i].0) && HasType(less, ty.val, es[i].1)
  }

  /** The entries with their keys serialized. */
  function KeyAll(less: Order, ty: Ty, es: seq<(Val, Val)>): (ks: seq<Keyed>)
    requires ty.Map? && EntriesTyped(less, ty, es)
    ensures |ks| == |es| && KeyedTyped(less, ty, ks)
    ensures forall i :: 0 <= i < |es| ==> ks[i].1 == es[i].1
    decreases ty, 0, |es|
  {
    if es == [] then []
    else
      var n := |es| - 1;
      KeyAll(less, ty, es[..n]) + [(Enc(less, ty.key, es[n].0), es[n].1)]
  }

  predicate KeyedTyped(less: Order, ty: Ty, ks: seq<Keyed>)
    requires ty.Map?
  {
    forall k :: k in ks ==> HasType(less, ty.val, k.1)
  }

  function EncKeyed(less: Order, ty: Ty, ks: seq<Keyed>): bytes
    requires ty.Map? && KeyedTyped(less, ty, ks)
    decreases ty, 0, |ks|
  {
    if ks == [] then [] else ks[0].0 + Enc(less, ty.val, ks[0].1) + EncKeyed(less, ty, ks[1..])
  }

  /** The last |vs| fields of a struct. */
  function EncFields(less: Order, ty: Ty, vs: seq<Val>): bytes
    requires ty.Struct? && FieldsTyped(less, ty, vs)
    decreases ty, 0, |vs|
  {
    if vs == [] then []
    else Enc(less, ty.fields[|ty.fields| - |vs|], vs[0]) + EncFields(less, ty, vs[1..])
  }

  predicate FieldsTyped(less: Order, ty: Ty, vs: seq<Val>)
    requires ty.Struct?
  {
    && |vs| <= |ty.fields|
    && forall i :: 0 <= i < |vs| ==> HasType(less, ty.fields[|ty.fields| - |vs| + i], vs[i])
  }

  /** What the marshaller accepts: no over-long string or count, no list element of zero bytes. */
  predicate Encodable(less: Order, ty: Ty, v: Val)
    requires HasType(less, ty, v)
    decreases ty
  {
    match ty
    case Str => |v.utf8| <= MAX_STRING_LEN
    case Vec(elem) =>
      && |v.elems| <= I32_MAX
      && forall i :: 0 <= i < |v.elems| ==> Encodable(less, elem, v.elems[i]) && Enc(less, elem, v.elems[i]) != []
    case Map(key, val) =>
      && |v.entries| <= I32_MAX
      && forall i :: 0 <= i < |v.entries| ==>
           Encodable(less, key, v.entries[i].0) && Encodable(less, val, v.entries[i].1)
    case Struct(fields) =>
      forall i {:trigger v.values[i]} :: 0 <= i < |fields| ==> Encodable(less, fields[i], v.values[i])
    case Enum(variants) => Encodable(less, variants[v.variant].1, v.payload)
    case _ => true
  }

  /** No list or map inside has more entries than the marshaller writes. */
  predicate CountsFit(less: Order, ty: Ty, v: Val)
    requires HasType(less, ty, v)
    decreases ty
  {
    match ty
    case Vec(elem) => |v.elems| <= I32_MAX && forall i :: 0 <= i < |v.elems| ==> CountsFit(less, elem, v.elems[i])
    case Map(key, val) =>
      && |v.entries| <= I32_MAX
      && forall i :: 0 <= i < |v.entries| ==>
           CountsFit(less, key, v.entries[i].0) && CountsFit(less, val, v.entries[i].1)
    case Struct(fields) =>
      forall i {:trigger v.values[i]} :: 0 <= i < |fields| ==> CountsFit(less, fields[i], v.values[i])
    case Enum(variants) => CountsFit(less, variants[v.variant].1, v.payload)
    case _ => true
  }

  /** No list or map inside a map key has more entries than the marshaller writes. */
  predicate KeysFit(less: Order, ty: Ty, v: Val)
    requires HasType(less, ty, v)
    decreases ty
  {
    match ty
    case Vec(elem) => forall i :: 0 <= i < |v.elems| ==> KeysFit(less, elem, v.elems[i])
    case Map(key, val) =>
      forall i :: 0 <= i < |v.entries| ==> CountsFit(less, key, v.entries[i].0) && KeysFit(less, val, v.entries[i].1)
    case Struct(fields) =>
      forall i {:trigger v.values[i]} :: 0 <= i < |fields| ==> KeysFit(less, fields[i], v.values[i])
    case Enum(variants) => KeysFit(less, variants[v.variant].1, v.payload)
    case _ => true
  }

  /** What the unmarshaller reads back: counts only have to fit their four bytes, outside of map keys. */
  predicate Decodable(less: Order, ty: Ty, v: Val)
    requires HasType(less, ty, v)
    decreases ty
  {
    match ty
    case Str => |v.utf8| <= MAX_STRING_LEN
    case Vec(elem) =>
      && |v.elems| <= U32_MAX
      && forall i :: 0 <= i < |v.elems| ==> Decodable(less, elem, v.elems[i]) && Enc(less, elem, v.elems[i]) != []
    case Map(key, val) =>
      && |v.entries| <= U32_MAX
      && forall i :: 0 <= i < |v.entries| ==>
           Encodable(less, key, v.entries[i].0) && Decodable(less, val, v.entries[i].1)
    case Struct(fields) =>
      forall i {:trigger v.values[i]} :: 0 <= i < |fields| ==> Decodable(less, fields[i], v.values[i])
    case Enum(variants) => Decodable(less, variants[v.variant].1, v.payload)
    case _ => true
  }

  /** The marshaller accepts what can be read back and has no count too large. */
  lemma {:induction false} EncodableIff(less: Order, ty: Ty, v: Val)
    requires HasType(less, ty, v)
    ensures Encodable(less, ty, v) <==> Decodable(less, ty, v) && CountsFit(less, ty, v)
    decreases ty
  {
    hide Enc;
    match ty
    case Vec(elem) =>
      forall i | 0 <= i < |v.elems| { EncodableIff(less, elem, v.elems[i]); }
    case Map(key, val) =>
      forall i | 0 <= i < |v.entries| { EncodableIff(less, key, v.entries[i].0); }
      forall i | 0 <= i < |v.entries| { EncodableIff(less, val, v.entries[i].1); }
    case Struct(fields) =>
      forall i | 0 <= i < |fields| { EncodableIff(less, fields[i], v.values[i]); }
    case Enum(variants) => EncodableIff(less, variants[v.variant].1, v.payload);
    case _ =>
  }

  lemma {:induction false} CountsFitKeys(less: Order, ty: Ty, v: Val)
    requires HasType(less, ty, v) && CountsFit(less, ty, v)
    ensures KeysFit(less, ty, v)
    decreases ty
  {
    match ty
    case Vec(elem) =>
      forall i | 0 <= i < |v.elems| ensures KeysFit(less, elem, v.elems[i]) { CountsFitKeys(less, elem, v.elems[i]); }
    case Map(key, val) =>
      forall i | 0 <= i < |v.entries| ensures KeysFit(less, val, v.entries[i].1) {
        CountsFitKeys(less, val, v.entries[i].1);
      }
    case Struct(fields) =>
      forall i | 0 <= i < |fields| ensures KeysFit(less, fields[i], v.values[i]) {
        CountsFitKeys(less, fields[i], v.values[i]);
      }
    case Enum(variants) => CountsFitKeys(less, variants[v.variant].1, v.payload);
    case _ =>
  }

  /** What can be read back has small counts in its map keys. */
  lemma {:induction false} DecodableKeysFit(less: Order, ty: Ty, v: Val)
    requires HasType(less, ty, v) && Decodable(less, ty, v)
    ensures KeysFit(less, ty, v)
    decreases ty
  {
    hide Enc;
    match ty
    case Vec(elem) =>
      forall i | 0 <= i < |v.elems| ensures KeysFit(less, elem, v.elems[i]) {
        DecodableKeysFit(less, elem, v.elems[i]);
      }
    case Map(key, val) =>
      forall i | 0 <= i < |v.entries|
        ensures CountsFit(less, key, v.entries[i].0) && KeysFit(less, val, v.entries[i].1)
      {
        EncodableIff(less, key, v.entries[i].0);
        DecodableKeysFit(less, val, v.entries[i].1);
      }
    case Struct(fields) =>
      forall i | 0 <= i < |fields| ensures KeysFit(less, fields[i], v.values[i]) {
        DecodableKeysFit(less, fields[i], v.values[i]);
      }
    case Enum(variants) => DecodableKeysFit(less, variants[v.variant].1, v.payload);
    case _ =>
  }

  // ----- sorting by key bytes -----

  lemma KeyLtStrict()
    ensures Strict(KeyLt)
  {
    forall x: Keyed ensures !KeyLt(x, x) { LtIrreflexive(x.0); }
    forall x: Keyed, y: Keyed, z: Keyed | KeyLt(x, y) && KeyLt(y, z) ensures KeyLt(x, z) {
      LtTransitive(x.0, y.0, z.0);
    }
  }

  predicate DistinctKeys(s: seq<Keyed>) {
    forall i, j :: 0 <= i < j < |s| ==> s[i].0 != s[j].0
  }

  lemma {:induction false} InsertKeyedSorted(p: Keyed, s: seq<Keyed>)
    requires Sorted(KeyLt, s) && forall x :: x in s ==> x.0 != p.0
    ensures Sorted(KeyLt, InsertKeyed(p, s))
  {
    if s != [] {
      if Lt(p.0, s[0].0) {
        forall i | 0 <= i < |s| ensures KeyLt(p, s[i]) {
          if i > 0 { LtTransitive(p.0, s[0].0, s[i].0); }
        }
      } else {
        LtTotal(p.0, s[0].0);
        assert s[0] in s;
        InsertKeyedSorted(p, s[1..]);
        var rest := InsertKeyed(p, s[1..]);
        forall i | 0 <= i < |rest| ensures KeyLt(s[0], rest[i]) {
          assert rest[i] in rest;
          assert rest[i] == p || rest[i] in s[1..];
        }
      }
    }
  }

  /** With distinct keys the sorted entries are strictly increasing by key bytes. */
  lemma {:induction false} SortKeyedSorted(s: seq<Keyed>)
    requires DistinctKeys(s)
    ensures Sorted(KeyLt, SortKeyed(s))
  {
    if s != [] {
      var n := |s| - 1;
      SortKeyedSorted(s[..n]);
      forall x | x in SortKeyed(s[..n]) ensures x.0 != s[n].0 {
        assert x in s[..n];
      }
      InsertKeyedSorted(s[n], SortKeyed(s[..n]));
    }
  }

  /** The element-wise view of KeyAll. */
  lemma {:induction false} KeyAllAt(less: Order, ty: Ty, es: seq<(Val, Val)>, i: nat)
    requires ty.Map? && EntriesTyped(less, ty, es) && i < |es|
    ensures KeyAll(less, ty, es)[i] == (Enc(less, ty.key, es[i].0), es[i].1)
    decreases |es|
  {
    var n := |es| - 1;
    if i < n { KeyAllAt(less, ty, es[..n], i); }
  }

  lemma KeyAllCons(less: Order, ty: Ty, e: (Val, Val), es: seq<(Val, Val)>)
    requires ty.Map? && EntriesTyped(less, ty, es) && HasType(less, ty.key, e.0) && HasType(less, ty.val, e.1)
    ensures EntriesTyped(less, ty, [e] + es)
    ensures KeyAll(less, ty, [e] + es) == [(Enc(less, ty.key, e.0), e.1)] + KeyAll(less, ty, es)
  {
    hide Enc, HasType, KeyAll;
    var all, ks := [e] + es, [(Enc(less, ty.key, e.0), e.1)] + KeyAll(less, ty, es);
    forall i | 0 <= i < |all| ensures KeyAll(less, ty, all)[i] == ks[i] {
      KeyAllAt(less, ty, all, i);
      if i > 0 { KeyAllAt(less, ty, es, i - 1); }
    }
  }
}
