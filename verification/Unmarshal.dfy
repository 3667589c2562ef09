/** Unmarshalling: what is read from a packer for each type, and when reading is refused. */
module Unmarshal {
  import opened Bytes
  import opened Packing
  import opened Ordered
  import opened Wire
  import opened Marshal

  ghost predicate KeyOrder(less: Order) {
    Strict(less) && Total(less)
  }

  // ----- the sorted map being built -----

  predicate DictTyped(less: Order, ty: Ty, es: seq<(Val, Val)>)
    requires ty.Map?
  {
    KeysSorted(less, es) && EntriesTyped(less, ty, es)
  }

  lemma EmptyDict(less: Order, ty: Ty)
    requires ty.Map?
    ensures DictTyped(less, ty, [])
  {
  }

  /** Inserting into a sorted map replaces the value of an equal key. */
  function InsertEntry(less: Order, es: seq<(Val, Val)>, k: Val, v: Val): (r: seq<(Val, Val)>)
    ensures forall e :: e in r ==> e == (k, v) || e in es
    ensures (k, v) in r
  {
    if es == [] then [(k, v)]
    else if k == es[0].0 then [(k, v)] + es[1..]
    else if less(k, es[0].0) then [(k, v)] + es
    else [es[0]] + InsertEntry(less, es[1..], k, v)
  }

  lemma {:induction false} InsertEntrySorted(less: Order, es: seq<(Val, Val)>, k: Val, v: Val)
    requires KeyOrder(less) && KeysSorted(less, es)
    ensures KeysSorted(less, InsertEntry(less, es, k, v))
    ensures (forall e :: e in es ==> e.0 != k) ==>
              forall e :: e in InsertEntry(less, es, k, v) <==> e == (k, v) || e in es
  {
    if es != [] && k != es[0].0 {
      if less(k, es[0].0) {
        assert forall i :: 0 < i < |es| ==> less(es[0].0, es[i].0);
      } else {
        assert less(es[0].0, k);
        InsertEntrySorted(less, es[1..], k, v);
        var rest := InsertEntry(less, es[1..], k, v);
        forall i | 0 <= i < |rest| ensures less(es[0].0, rest[i].0) {
          assert rest[i] in rest;
        }
      }
    }
  }

  lemma InsertEntryTyped(less: Order, ty: Ty, es: seq<(Val, Val)>, k: Val, v: Val)
    requires KeyOrder(less) && ty.Map? && DictTyped(less, ty, es)
    requires HasType(less, ty.key, k) && HasType(less, ty.val, v)
    ensures DictTyped(less, ty, InsertEntry(less, es, k, v))
  {
    InsertEntrySorted(less, es, k, v);
    var r := InsertEntry(less, es, k, v);
    forall i | 0 <= i < |r| ensures HasType(less, ty.key, r[i].0) && HasType(less, ty.val, r[i].1) {
      assert r[i] in r;
    }
  }

  // ----- decoding -----

  /** A value is produced exactly when the packer has no error. */
  function Done<T>(s: PState, v: T): (Option<T>, PState) {
    if s.err.Some? then (None, s) else (Some(v), s)
  }

  function FindId(variants: seq<(u32, Ty)>, id: nat): (r: Option<nat>)
    ensures r.Some? ==> r.value < |variants| && variants[r.value].0 == id
                        && forall j :: 0 <= j < r.value ==> variants[j].0 != id
    ensures r.None? ==> forall j :: 0 <= j < |variants| ==> variants[j].0 != id
  {
    if variants == [] then None
    else if variants[0].0 == id then Some(0)
    else
      var r := FindId(variants[1..], id);
      if r.None? then None else Some(r.value + 1)
  }

  function Get(less: Order, ty: Ty, s: PState): (r: (Option<Val>, PState))
    requires KeyOrder(less)
    ensures r.0.Some? <==> r.1.err.None?
    ensures r.0.Some? ==> HasType(less, ty, r.0.value)
    decreases ty, 1, 0
  {
    if IsInt(ty) then
      var (n, s1) := TakeInt(s, Width(ty));
      Done(s1, Num(n))
    else
      match ty
      case Bool =>
        var (b, s1) := BoolTaken(s);
        Done(s1, Flag(b))
      case Str =>
        var (raw, s1) := StrTaken(s);
        Done(s1, Text(raw))
      case Fixed(n) =>
        var (raw, s1) := Take(s, n);
        Done(s1, Raw(raw))
      case Vec(elem) =>
        var (count, s1) := TakeInt(s, 4);
        if s1.err.Some? then (None, s1)
        else
          var (vs, s2) := GetElems(less, ty, count, s1);
          (if vs.Some? then Some(List(vs.value)) else None, s2)
      case Map(key, val) =>
        var (count, s1) := TakeInt(s, 4);
        if s1.err.Some? then (None, s1)
        else
          var (es, s2) := GetEntries(less, ty, count, s1, None, []);
          (if es.Some? then Some(Dict(es.value)) else None, s2)
      case Struct(fields) =>
        var (vs, s1) := GetFields(less, ty, |fields|, s);
        (if vs.Some? then Some(Record(vs.value)) else None, s1)
      case Enum(variants) =>
        var (id, s1) := TakeInt(s, 4);
        if s1.err.Some? then (None, s1)
        else
          match FindId(variants, id)
          case None => (None, AddError(s1, InvalidInput))
          case Some(i) =>
            var (v, s2) := Get(less, variants[i].1, s1);
            (if v.Some? then Some(Tagged(i, v.value)) else None, s2)
  }

  /** The element loop: n more elements, each of which must consume something. */
  function GetElems(less: Order, ty: Ty, n: nat, s: PState): (r: (Option<seq<Val>>, PState))
    requires KeyOrder(less) && ty.Vec? && s.err.None?
    ensures r.0.Some? <==> r.1.err.None?
    ensures r.0.Some? ==> |r.0.value| == n && forall i :: 0 <= i < n ==> HasType(less, ty.elem, r.0.value[i])
    decreases ty, 0, n
  {
    if n == 0 then (Some([]), s)
    else
      var (v, s1) := Get(less, ty.elem, s);
      if v.None? then (None, s1)
      else if s1.Cursor() == s.Cursor() then (None, AddError(s1, InvalidInput))
      else
        var (rest, s2) := GetElems(less, ty, n - 1, s1);
        if rest.None? then (None, s2) else (Some([v.value] + rest.value), s2)
  }

  /** The entry loop: n more entries, with the previous key's bytes and the map built so far. */
  function GetEntries(less: Order, ty: Ty, n: nat, s: PState, prev: Option<bytes>, out: seq<(Val, Val)>):
    (r: (Option<seq<(Val, Val)>>, PState))
    requires KeyOrder(less) && ty.Map? && s.err.None? && DictTyped(less, ty, out)
    ensures r.0.Some? <==> r.1.err.None?
    ensures r.0.Some? ==> DictTyped(less, ty, r.0.value)
    decreases ty, 0, n
  {
    if n == 0 then (Some(out), s)
    else
      var (k, s1) := Get(less, ty.key, s);
      if k.None? then (None, s1)
      else
        var kb := KeyState(less, ty.key, k.value).buf;
        if prev.Some? && Le(kb, prev.value) then (None, AddError(s1, InvalidInput))
        else
          var (v, s2) := Get(less, ty.val, s1);
          if v.None? then (None, s2)
          else
            InsertEntryTyped(less, ty, out, k.value, v.value);
            GetEntries(less, ty, n - 1, s2, Some(kb), InsertEntry(less, out, k.value, v.value))
  }

  /** The last n fields; after an error the remaining reads change nothing. */
  function GetFields(less: Order, ty: Ty, n: nat, s: PState): (r: (Option<seq<Val>>, PState))
    requires KeyOrder(less) && ty.Struct? && n <= |ty.fields|
    ensures r.0.Some? <==> r.1.err.None?
    ensures s.err.Some? ==> r.0.None?
    ensures r.0.Some? ==> |r.0.value| == n && FieldsTyped(less, ty, r.0.value)
    decreases ty, 0, n
  {
    if n == 0 then Done(s, [])
    else
      var (v, s1) := Get(less, ty.fields[|ty.fields| - n], s);
      var (rest, s2) := GetFields(less, ty, n - 1, s1);
      if v.None? || rest.None? then (None, s2) else (Some([v.value] + rest.value), s2)
  }
}
