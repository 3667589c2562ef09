/** The codec as it runs: values written to and read from a packer in place, under a manager of versions. */
module Codec {
  import opened Bytes
  import opened Packing
  import opened Ordered
  import opened Wire
  import opened Marshal
  import opened Unmarshal
  import opened CodecManager

  method PackCountInto(p: Packer, n: nat)
    modifies p`buf, p`err
    ensures p.State() == PackCount(old(p.State()), n)
  {
    if n > I32_MAX {
      p.AddExternalError(Oversized);
      return;
    }
    p.PackInt(n, 4);
  }

  method MarshalInto(less: Order, ty: Ty, v: Val, p: Packer)
    requires HasType(less, ty, v)
    modifies p`buf, p`err
    ensures p.State() == Put(less, ty, v, old(p.State()))
    decreases ty, 1
  {
    hide PutElems, PutFields, PutKeyed, SerializeKeys, SortKeyed;
    match ty
    case Vec(elem) => MarshalElems(less, ty, v.elems, p);
    case Map(key, val) => MarshalMap(less, ty, v.entries, p);
    case Struct(fields) =>
      RecordTyped(less, ty, v);
      MarshalFields(less, ty, v.values, p);
    case Enum(variants) => MarshalVariant(less, ty, v, p);
    case _ => MarshalPlain(less, ty, v, p);
  }

  method MarshalPlain(less: Order, ty: Ty, v: Val, p: Packer)
    requires HasType(less, ty, v) && !ty.Vec? && !ty.Map? && !ty.Struct? && !ty.Enum?
    modifies p`buf, p`err
    ensures p.State() == Put(less, ty, v, old(p.State()))
  {
    match ty
    case U8 => p.PackInt(v.num, 1);
    case U16 => p.PackInt(v.num, 2);
    case U32 => p.PackInt(v.num, 4);
    case U64 => p.PackInt(v.num, 8);
    case Bool => p.PackFixedBytes([if v.flag then 1 else 0]);
    case Str => p.PackStr(v.utf8);
    case Fixed(n) => p.PackFixedBytes(v.data);
  }

  method MarshalVariant(less: Order, ty: Ty, v: Val, p: Packer)
    requires ty.Enum? && HasType(less, ty, v)
    modifies p`buf, p`err
    ensures p.State() == Put(less, ty, v, old(p.State()))
    decreases ty, 0
  {
    p.PackInt(ty.variants[v.variant].0, 4);
    MarshalInto(less, ty.variants[v.variant].1, v.payload, p);
  }

  method MarshalElems(less: Order, ty: Ty, vs: seq<Val>, p: Packer)
    requires ty.Vec? && forall i :: 0 <= i < |vs| ==> HasType(less, ty.elem, vs[i])
    modifies p`buf, p`err
    ensures p.State() == PutElems(less, ty, vs, PackCount(old(p.State()), |vs|))
    decreases ty, 0
  {
    PackCountInto(p, |vs|);
    ghost var s := p.State();
    var i := 0;
    while i < |vs|
      invariant i <= |vs|
      invariant PutElems(less, ty, vs, s) == PutElems(less, ty, vs[i..], p.State())
    {
      var before := p.State().Cursor();
      assert vs[i..][1..] == vs[i + 1..];
      MarshalInto(less, ty.elem, vs[i], p);
      if p.err.None? && p.State().Cursor() == before {
        p.AddExternalError(InvalidInput);
        return;
      }
      i := i + 1;
    }
  }

  method MarshalFields(less: Order, ty: Ty, vs: seq<Val>, p: Packer)
    requires ty.Struct? && |vs| == |ty.fields| && FieldsTyped(less, ty, vs)
    modifies p`buf, p`err
    ensures p.State() == PutFields(less, ty, vs, old(p.State()))
    decreases ty, 0
  {
    hide Put, HasType, Encodable;
    ghost var s := p.State();
    var i := 0;
    while i < |vs|
      invariant i <= |vs| && FieldsTyped(less, ty, vs[i..])
      invariant PutFields(less, ty, vs, s) == PutFields(less, ty, vs[i..], p.State())
    {
      FieldsOkSplit(less, ty, vs[i..]);
      assert vs[i..][1..] == vs[i + 1..] && HasType(less, ty.fields[|ty.fields| - |vs| + i], vs[i]);
      MarshalInto(less, ty.fields[i], vs[i], p);
      i := i + 1;
    }
  }

  /** Serializes every key to its own scratch packer; stops at the first error. */
  method KeysToBytes(less: Order, ty: Ty, es: seq<(Val, Val)>) returns (e: Option<PackerError>, ks: seq<Keyed>)
    requires ty.Map? && EntriesTyped(less, ty, es)
    ensures (e, ks) == SerializeKeys(less, ty, es)
    decreases ty, 0, 0
  {
    hide SerializeKeys, Put, Size, HasType;
    e, ks := None, [];
    NoKeys(less, ty, es);
    var i := 0;
    while i < |es|
      invariant i <= |es| && e.None? && (e, ks) == SerializeKeys(less, ty, es[..i])
    {
      var k := es[i].0;
      var size := Size(less, ty.key, k);
      var kp := new Packer.Write(if size > 1 then size else 1);
      MarshalInto(less, ty.key, k, kp);
      assert kp.State() == KeyState(less, ty.key, k);
      NextKey(less, ty, es, i, ks);
      if kp.err.Some? {
        KeysStop(less, ty, es, i + 1);
        return kp.err, ks;
      }
      ks := ks + [(kp.buf, es[i].1)];
      i := i + 1;
    }
    assert es[..i] == es;
  }

  lemma NoKeys(less: Order, ty: Ty, es: seq<(Val, Val)>)
    requires ty.Map? && EntriesTyped(less, ty, es)
    ensures SerializeKeys(less, ty, es[..0]) == (None, [])
  {
  }

  /** What one more key adds. */
  lemma NextKey(less: Order, ty: Ty, es: seq<(Val, Val)>, i: nat, ks: seq<Keyed>)
    requires ty.Map? && EntriesTyped(less, ty, es) && i < |es| && SerializeKeys(less, ty, es[..i]) == (None, ks)
    ensures var kp := KeyState(less, ty.key, es[i].0);
            SerializeKeys(less, ty, es[..i + 1])
            == if kp.err.Some? then (kp.err, ks) else (None, ks + [(kp.buf, es[i].1)])
  {
    hide KeyState, HasType;
    var next := es[..i + 1];
    assert next[..i] == es[..i] && next[i] == es[i] && |next| - 1 == i;
  }

  lemma {:induction false} KeysStop(less: Order, ty: Ty, es: seq<(Val, Val)>, i: nat)
    requires ty.Map? && EntriesTyped(less, ty, es) && i <= |es|
    ensures SerializeKeys(less, ty, es[..i]).0.Some? ==> SerializeKeys(less, ty, es) == SerializeKeys(less, ty, es[..i])
    decreases |es|
  {
    if i < |es| {
      var n := |es| - 1;
      KeysStop(less, ty, es[..n], i);
      assert es[..n][..i] == es[..i];
    } else {
      assert es[..i] == es;
    }
  }

  method MarshalMap(less: Order, ty: Ty, es: seq<(Val, Val)>, p: Packer)
    requires ty.Map? && DictTyped(less, ty, es)
    modifies p`buf, p`err
    ensures p.State() == Put(less, ty, Dict(es), old(p.State()))
    decreases ty, 0, 1
  {
    PackCountInto(p, |es|);
    if p.err.Some? { return; }
    var e, ks := KeysToBytes(less, ty, es);
    if e.Some? {
      p.AddExternalError(e.value);
      return;
    }
    var sorted := SortKeyed(ks);
    ghost var s := p.State();
    var i := 0;
    while i < |sorted|
      invariant i <= |sorted| && KeyedTyped(less, ty, sorted[i..])
      invariant PutKeyed(less, ty, sorted, s) == PutKeyed(less, ty, sorted[i..], p.State())
    {
      assert sorted[i..][1..] == sorted[i + 1..] && sorted[i] in sorted[i..];
      p.PackFixedBytes(sorted[i].0);
      MarshalInto(less, ty.val, sorted[i].1, p);
      if p.err.Some? { return; }
      i := i + 1;
    }
  }

  method UnmarshalFrom(less: Order, ty: Ty, p: Packer) returns (v: Option<Val>)
    requires KeyOrder(less)
    modifies p`off, p`err
    ensures (v, p.State()) == Get(less, ty, old(p.State()))
    decreases ty, 1
  {
    match ty
    case U8 => v := UnmarshalInt(p, 1);
    case U16 => v := UnmarshalInt(p, 2);
    case U32 => v := UnmarshalInt(p, 4);
    case U64 => v := UnmarshalInt(p, 8);
    case Bool =>
      var b := p.UnpackBool();
      v := if p.err.Some? then None else Some(Flag(b));
    case Str =>
      var raw := p.UnpackStr();
      v := if p.err.Some? then None else Some(Text(raw));
    case Fixed(n) =>
      var raw := p.UnpackFixedBytes(n);
      v := if p.err.Some? then None else Some(Raw(raw));
    case Vec(elem) => v := UnmarshalElems(less, ty, p);
    case Map(key, val) => v := UnmarshalEntries(less, ty, p);
    case Struct(fields) => v := UnmarshalFields(less, ty, p);
    case Enum(variants) => v := UnmarshalVariant(less, ty, p);
  }

  method UnmarshalInt(p: Packer, n: nat) returns (v: Option<Val>)
    modifies p`off, p`err
    ensures var (k, s) := TakeInt(old(p.State()), n);
            (v, p.State()) == Done(s, Num(k))
  {
    var k := p.UnpackInt(n);
    v := if p.err.Some? then None else Some(Num(k));
  }

  method UnmarshalVariant(less: Order, ty: Ty, p: Packer) returns (v: Option<Val>)
    requires KeyOrder(less) && ty.Enum?
    modifies p`off, p`err
    ensures (v, p.State()) == Get(less, ty, old(p.State()))
    decreases ty, 0
  {
    var id := p.UnpackInt(4);
    if p.err.Some? { return None; }
    match FindId(ty.variants, id)
    case None =>
      p.AddExternalError(InvalidInput);
      v := None;
    case Some(i) =>
      var payload := UnmarshalFrom(less, ty.variants[i].1, p);
      v := if payload.Some? then Some(Tagged(i, payload.value)) else None;
  }

  method UnmarshalElems(less: Order, ty: Ty, p: Packer) returns (v: Option<Val>)
    requires KeyOrder(less) && ty.Vec?
    modifies p`off, p`err
    ensures (v, p.State()) == Get(less, ty, old(p.State()))
    decreases ty, 0
  {
    var count := p.UnpackInt(4);
    if p.err.Some? { return None; }
    var out := UnmarshalList(less, ty, p, count);
    v := if out.Some? then Some(List(out.value)) else None;
  }

  method UnmarshalList(less: Order, ty: Ty, p: Packer, count: nat) returns (r: Option<seq<Val>>)
    requires KeyOrder(less) && ty.Vec? && p.err.None?
    modifies p`off, p`err
    ensures (r, p.State()) == GetElems(less, ty, count, old(p.State()))
    decreases ty, 0, 0
  {
    hide Get;
    ghost var whole := GetElems(less, ty, count, p.State());
    var out: seq<Val> := [];
    var i := 0;
    AfterNothing(whole);
    while i < count
      invariant i <= count && p.err.None?
      invariant After(out, GetElems(less, ty, count - i, p.State())) == whole
    {
      var before := p.State().Cursor();
      var e := UnmarshalFrom(less, ty.elem, p);
      if p.err.Some? { return None; }
      if p.State().Cursor() == before {
        p.AddExternalError(InvalidInput);
        return None;
      }
      AfterMore(out, e.value, GetElems(less, ty, count - i - 1, p.State()));
      out := out + [e.value];
      i := i + 1;
    }
    assert out + [] == out;
    r := Some(out);
  }

  /** What was read already, before the outcome of reading the rest. */
  ghost function After<T>(out: seq<T>, r: (Option<seq<T>>, PState)): (Option<seq<T>>, PState) {
    (if r.0.Some? then Some(out + r.0.value) else None, r.1)
  }

  lemma AfterNothing<T>(r: (Option<seq<T>>, PState))
    ensures After([], r) == r
  {
    if r.0.Some? { assert [] + r.0.value == r.0.value; }
  }

  lemma AfterMore<T>(out: seq<T>, x: T, r: (Option<seq<T>>, PState))
    ensures After(out, After([x], r)) == After(out + [x], r)
  {
    if r.0.Some? { assert out + ([x] + r.0.value) == out + [x] + r.0.value; }
  }

  method UnmarshalEntries(less: Order, ty: Ty, p: Packer) returns (v: Option<Val>)
    requires KeyOrder(less) && ty.Map?
    modifies p`off, p`err
    ensures (v, p.State()) == Get(less, ty, old(p.State()))
    decreases ty, 0
  {
    var count := p.UnpackInt(4);
    if p.err.Some? { return None; }
    var out := UnmarshalAll(less, ty, p, count);
    v := if out.Some? then Some(Dict(out.value)) else None;
  }

  method UnmarshalAll(less: Order, ty: Ty, p: Packer, count: nat) returns (r: Option<seq<(Val, Val)>>)
    requires KeyOrder(less) && ty.Map? && p.err.None?
    modifies p`off, p`err
    ensures (r, p.State()) == GetEntries(less, ty, count, old(p.State()), None, [])
    decreases ty, 0, 1
  {
    hide Get, HasType, KeyState, InsertEntry;
    ghost var whole := GetEntries(less, ty, count, p.State(), None, []);
    var out: seq<(Val, Val)> := [];
    var prev: Option<bytes> := None;
    var i := 0;
    while i < count
      invariant i <= count && p.err.None? && DictTyped(less, ty, out)
      invariant GetEntries(less, ty, count - i, p.State(), prev, out) == whole
    {
      var e := UnmarshalEntry(less, ty, p, prev, out, count - i - 1, whole);
      if e.None? { return None; }
      prev, out := Some(e.value.0), e.value.1;
      i := i + 1;
    }
    r := Some(out);
  }

  /** One turn of the entry loop: the key's bytes and the extended map, with n entries still to come. */
  method UnmarshalEntry(less: Order, ty: Ty, p: Packer, prev: Option<bytes>, out: seq<(Val, Val)>, ghost n: nat,
                        ghost whole: (Option<seq<(Val, Val)>>, PState))
    returns (r: Option<(bytes, seq<(Val, Val)>)>)
    requires KeyOrder(less) && ty.Map? && DictTyped(less, ty, out) && p.err.None?
    requires GetEntries(less, ty, n + 1, p.State(), prev, out) == whole
    modifies p`off, p`err
    ensures r.Some? <==> p.err.None?
    ensures r.None? ==> whole == (None, p.State())
    ensures r.Some? ==> DictTyped(less, ty, r.value.1)
    ensures r.Some? ==> GetEntries(less, ty, n, p.State(), Some(r.value.0), r.value.1) == whole
    decreases ty, 0, 0
  {
    var k := UnmarshalFrom(less, ty.key, p);
    if p.err.Some? { return None; }
    var kb := KeyBytes(less, ty.key, k.value);
    if prev.Some? && Le(kb, prev.value) {
      p.AddExternalError(InvalidInput);
      return None;
    }
    var e := UnmarshalFrom(less, ty.val, p);
    if p.err.Some? { return None; }
    InsertEntryTyped(less, ty, out, k.value, e.value);
    r := Some((kb, InsertEntry(less, out, k.value, e.value)));
  }

  /** A decoded key, serialized again to compare it with the previous one. */
  method KeyBytes(less: Order, ty: Ty, k: Val) returns (kb: bytes)
    requires HasType(less, ty, k)
    ensures kb == KeyState(less, ty, k).buf
  {
    var size := Size(less, ty, k);
    var kp := new Packer.Write(if size > 1 then size else 1);
    MarshalInto(less, ty, k, kp);
    kb := kp.buf;
  }

  method UnmarshalFields(less: Order, ty: Ty, p: Packer) returns (v: Option<Val>)
    requires KeyOrder(less) && ty.Struct?
    modifies p`off, p`err
    ensures (v, p.State()) == Get(less, ty, old(p.State()))
    decreases ty, 0
  {
    var out := UnmarshalEach(less, ty, p);
    v := if out.Some? then Some(Record(out.value)) else None;
  }

  method UnmarshalEach(less: Order, ty: Ty, p: Packer) returns (out: Option<seq<Val>>)
    requires KeyOrder(less) && ty.Struct?
    modifies p`off, p`err
    ensures (out, p.State()) == GetFields(less, ty, |ty.fields|, old(p.State()))
    decreases ty, 0, 0
  {
    hide Get;
    ghost var whole := GetFields(less, ty, |ty.fields|, p.State());
    var n := |ty.fields|;
    out := if p.err.Some? then None else Some([]);
    var i := 0;
    AfterNothing(whole);
    while i < n
      invariant i <= n && (out.Some? ==> p.err.None?)
      invariant FieldsAfter(out, GetFields(less, ty, n - i, p.State())) == whole
    {
      var e := UnmarshalFrom(less, ty.fields[i], p);
      FieldsAfterMore(out, e, GetFields(less, ty, n - i - 1, p.State()));
      out := if out.Some? && e.Some? then Some(out.value + [e.value]) else None;
      i := i + 1;
    }
    if out.Some? { assert out.value + [] == out.value; }
  }

  ghost function FieldsAfter(out: Option<seq<Val>>, r: (Option<seq<Val>>, PState)): (Option<seq<Val>>, PState) {
    (if out.Some? && r.0.Some? then Some(out.value + r.0.value) else None, r.1)
  }

  lemma FieldsAfterMore(out: Option<seq<Val>>, e: Option<Val>, r: (Option<seq<Val>>, PState))
    ensures FieldsAfter(out, (if e.Some? && r.0.Some? then Some([e.value] + r.0.value) else None, r.1))
         == FieldsAfter(if out.Some? && e.Some? then Some(out.value + [e.value]) else None, r)
  {
    if out.Some? && e.Some? && r.0.Some? {
      assert out.value + ([e.value] + r.0.value) == out.value + [e.value] + r.0.value;
    }
  }

  /** The registry of codec versions. */
  class Manager {
    const maxSize: usize
    var versions: set<u16>

    constructor (maxSize: usize)
      ensures this.maxSize == maxSize && versions == {}
    {
      this.maxSize, versions := maxSize, {};
    }

    /** A version is registered once. */
    method Register(version: u16) returns (r: Result<()>)
      modifies this`versions
      ensures r == if version in old(versions) then Err(DuplicatedVersion) else Ok(())
      ensures versions == old(versions) + {version}
    {
      if version in versions { return Err(DuplicatedVersion); }
      versions := versions + {version};
      r := Ok(());
    }

    method MarshalValue(less: Order, version: u16, ty: Ty, v: Val) returns (r: Result<bytes>)
      requires HasType(less, ty, v)
      ensures r == MarshalWith(less, versions, maxSize, version, ty, v)
    {
      if version !in versions { return Err(UnknownVersion); }
      var size := Size(less, ty, v) + VERSION_SIZE;
      if size > USIZE_MAX { return Err(MaxSliceLenExceeded); }
      var p := new Packer.Write(if maxSize > size then maxSize else size);
      r := PackVersioned(less, version, ty, v, p);
    }

    static method PackVersioned(less: Order, version: u16, ty: Ty, v: Val, p: Packer) returns (r: Result<bytes>)
      requires HasType(less, ty, v)
      modifies p`buf, p`err
      ensures var s := Emit(old(p.State()), BE(version, 2));
              r == if s.err.Some? then Err(CantPackVersion) else Finished(Put(less, ty, v, s))
    {
      p.PackInt(version, 2);
      if p.err.Some? { return Err(CantPackVersion); }
      MarshalInto(less, ty, v, p);
      if p.err.Some? { return Err(MapPackerError(p.err.value)); }
      r := Ok(p.buf);
    }

    method UnmarshalValue(less: Order, ty: Ty, src: bytes) returns (r: Result<(u16, Val)>)
      requires KeyOrder(less)
      ensures r == UnmarshalWith(less, versions, maxSize, ty, src)
    {
      if |src| > maxSize { return Err(UnmarshalTooBig); }
      var p := new Packer.Read(src);
      Pow256Values();
      var version := p.UnpackInt(2);
      if p.err.Some? { return Err(CantUnpackVersion); }
      if version !in versions { return Err(UnknownVersion); }
      var v := UnmarshalFrom(less, ty, p);
      if p.err.Some? { return Err(MapPackerError(p.err.value)); }
      if p.off != |src| { return Err(ExtraSpace); }
      r := Ok((version, v.value));
    }

    method ValueSize(less: Order, version: u16, ty: Ty, v: Val) returns (r: Result<nat>)
      requires HasType(less, ty, v)
      ensures version !in versions ==> r == Err(UnknownVersion)
      ensures version in versions ==>
                r == if |Enc(less, ty, v)| + VERSION_SIZE <= USIZE_MAX then Ok(|Enc(less, ty, v)| + VERSION_SIZE)
                     else Err(MaxSliceLenExceeded)
    {
      if version !in versions { return Err(UnknownVersion); }
      SizeExact(less, ty, v);
      var size := Size(less, ty, v) + VERSION_SIZE;
      r := if size > USIZE_MAX then Err(MaxSliceLenExceeded) else Ok(size);
    }
  }
}
