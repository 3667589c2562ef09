/** Decoding never reads outside its input, and keeps its first error. */
module DecodeSafety {
  import opened Bytes
  import opened Packing
  import opened Ordered
  import opened Wire
  import opened Marshal
  import opened Unmarshal

  /** s' is a later state of the same reader: further on, still inside, and frozen once errored. */
  predicate Later(s: PState, s': PState) {
    && s'.write == s.write && s'.buf == s.buf && s'.max == s.max
    && s.off <= s'.off <= |s.buf|
    && (s.err.Some? ==> s' == s)
  }

  predicate Reader(s: PState) {
    !s.write && s.off <= |s.buf|
  }

  lemma {:induction false} DecodeIsSafe(less: Order, ty: Ty, s: PState)
    requires KeyOrder(less) && Reader(s)
    ensures Later(s, Get(less, ty, s).1)
    decreases ty, 1, 0
  {
    hide Get;
    match ty
    case Vec(elem) => VecIsSafe(less, ty, s);
    case Map(key, val) => MapIsSafe(less, ty, s);
    case Struct(fields) => StructIsSafe(less, ty, s);
    case Enum(variants) => EnumIsSafe(less, ty, s);
    case _ => PlainIsSafe(less, ty, s);
  }

  lemma PlainIsSafe(less: Order, ty: Ty, s: PState)
    requires KeyOrder(less) && Reader(s) && !ty.Vec? && !ty.Map? && !ty.Struct? && !ty.Enum?
    ensures Later(s, Get(less, ty, s).1)
  {
  }

  lemma VecIsSafe(less: Order, ty: Ty, s: PState)
    requires KeyOrder(less) && Reader(s) && ty.Vec?
    ensures Later(s, Get(less, ty, s).1)
    decreases ty, 0, U32_MAX + 1
  {
    hide GetElems;
    Pow256Values();
    var (n, s1) := TakeInt(s, 4);
    if s1.err.None? { ElemsAreSafe(less, ty, n, s1); }
  }

  lemma MapIsSafe(less: Order, ty: Ty, s: PState)
    requires KeyOrder(less) && Reader(s) && ty.Map?
    ensures Later(s, Get(less, ty, s).1)
    decreases ty, 0, U32_MAX + 1
  {
    hide GetEntries;
    Pow256Values();
    var (n, s1) := TakeInt(s, 4);
    if s1.err.None? { EntriesAreSafe(less, ty, n, s1, None, []); }
  }

  lemma StructIsSafe(less: Order, ty: Ty, s: PState)
    requires KeyOrder(less) && Reader(s) && ty.Struct?
    ensures Later(s, Get(less, ty, s).1)
    decreases ty, 0, |ty.fields| + 1
  {
    hide GetFields;
    FieldsAreSafe(less, ty, |ty.fields|, s);
  }

  lemma EnumIsSafe(less: Order, ty: Ty, s: PState)
    requires KeyOrder(less) && Reader(s) && ty.Enum?
    ensures Later(s, Get(less, ty, s).1)
    decreases ty, 0, 0
  {
    var (id, s1) := TakeInt(s, 4);
    if s1.err.None? && FindId(ty.variants, id).Some? {
      DecodeIsSafe(less, ty.variants[FindId(ty.variants, id).value].1, s1);
    }
  }

  lemma {:induction false} ElemsAreSafe(less: Order, ty: Ty, n: nat, s: PState)
    requires KeyOrder(less) && ty.Vec? && Reader(s) && s.err.None?
    ensures Later(s, GetElems(less, ty, n, s).1)
    decreases ty, 0, n
  {
    if n > 0 {
      DecodeIsSafe(less, ty.elem, s);
      var (v, s1) := Get(less, ty.elem, s);
      if v.Some? { ElemsAreSafe(less, ty, n - 1, s1); }
    }
  }

  lemma {:induction false} EntriesAreSafe(
    less: Order, ty: Ty, n: nat, s: PState, prev: Option<bytes>, out: seq<(Val, Val)>)
    requires KeyOrder(less) && ty.Map? && Reader(s) && s.err.None? && DictTyped(less, ty, out)
    ensures Later(s, GetEntries(less, ty, n, s, prev, out).1)
    decreases ty, 0, n
  {
    hide Get, KeyState, HasType, InsertEntry, Le;
    if n > 0 {
      DecodeIsSafe(less, ty.key, s);
      var (k, s1) := Get(less, ty.key, s);
      if k.Some? && !(prev.Some? && Le(KeyState(less, ty.key, k.value).buf, prev.value)) {
        DecodeIsSafe(less, ty.val, s1);
        var (v, s2) := Get(less, ty.val, s1);
        if v.Some? {
          InsertEntryTyped(less, ty, out, k.value, v.value);
          EntriesAreSafe(less, ty, n - 1, s2, Some(KeyState(less, ty.key, k.value).buf),
                         InsertEntry(less, out, k.value, v.value));
        }
      }
    }
  }

  lemma {:induction false} FieldsAreSafe(less: Order, ty: Ty, n: nat, s: PState)
    requires KeyOrder(less) && ty.Struct? && n <= |ty.fields| && Reader(s)
    ensures Later(s, GetFields(less, ty, n, s).1)
    decreases ty, 0, n
  {
    if n > 0 {
      var f := ty.fields[|ty.fields| - n];
      DecodeIsSafe(less, f, s);
      FieldsAreSafe(less, ty, n - 1, Get(less, f, s).1);
    }
  }
}
