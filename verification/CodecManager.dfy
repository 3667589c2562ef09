/** The versioned manager, over the codec's in-place marshalling and unmarshalling. */
module CodecManager {
  import opened Bytes
  import opened Packing
  import opened Ordered
  import opened Wire
  import opened Marshal
  import opened Unmarshal
  import opened Canonical
  import opened RoundTrip
  import opened KeyOrders

  datatype CodecError =
    | MaxSliceLenExceeded
    | UnknownVersion
    | DuplicatedVersion
    | CantPackVersion
    | CantUnpackVersion
    | UnmarshalTooBig
    | ExtraSpace
    | PackerFailed(e: PackerError)

  datatype Result<+T> = Ok(value: T) | Err(error: CodecError)

  const VERSION_SIZE: nat := 2

  function MapPackerError(e: PackerError): CodecError {
    if e == Oversized then MaxSliceLenExceeded else PackerFailed(e)
  }

  function MarshalWith(less: Order, versions: set<u16>, maxSize: usize, version: u16, ty: Ty, v: Val): Result<bytes>
    requires HasType(less, ty, v)
  {
    if version !in versions then Err(UnknownVersion)
    else if Size(less, ty, v) + VERSION_SIZE > USIZE_MAX then Err(MaxSliceLenExceeded)
    else
      var s := VersionPacked(maxSize, Size(less, ty, v) + VERSION_SIZE, version);
      if s.err.Some? then Err(CantPackVersion) else Finished(Put(less, ty, v, s))
  }

  /** The packer after the version prefix, with room for the declared size. */
  function VersionPacked(maxSize: usize, size: nat, version: u16): PState {
    Emit(NewWrite(if maxSize > size then maxSize else size), BE(version, 2))
  }

  function Finished(s: PState): Result<bytes> {
    if s.err.Some? then Err(MapPackerError(s.err.value)) else Ok(s.buf)
  }

  function UnmarshalWith(less: Order, versions: set<u16>, maxSize: usize, ty: Ty, src: bytes): Result<(u16, Val)>
    requires KeyOrder(less)
  {
    if |src| > maxSize then Err(UnmarshalTooBig)
    else
      Pow256Values();
      var (version, s) := TakeInt(NewRead(src), 2);
      if s.err.Some? then Err(CantUnpackVersion)
      else if version !in versions then Err(UnknownVersion)
      else
        var (v, s1) := Get(less, ty, s);
        if s1.err.Some? then Err(MapPackerError(s1.err.value))
        else if s1.off != |src| then Err(ExtraSpace)
        else Ok((version, v.value))
  }

  // ----- the theorems -----

  /** A registered version marshals every acceptable value, to the version and its wire bytes; the packer
      never runs out of space, and the only refusals are those of unacceptable values. */
  lemma MarshalOutcome(less: Order, versions: set<u16>, maxSize: usize, version: u16, ty: Ty, v: Val)
    requires HasType(less, ty, v) && version in versions && |Enc(less, ty, v)| + VERSION_SIZE <= USIZE_MAX
    ensures var r := MarshalWith(less, versions, maxSize, version, ty, v);
            if Encodable(less, ty, v) then r == Ok(BE(version, 2) + Enc(less, ty, v))
            else r == Err(MaxSliceLenExceeded) || r == Err(PackerFailed(InvalidInput))
  {
    SizeExact(less, ty, v);
    var n := |Enc(less, ty, v)|;
    VersionFits(maxSize, n, version);
    var s := VersionPacked(maxSize, n + VERSION_SIZE, version);
    PutWrites(less, ty, v, s);
    var s' := Put(less, ty, v, s);
    MarshalGives(less, versions, maxSize, version, ty, v, n, s');
    FinishedWrites(s, s', Encodable(less, ty, v), Enc(less, ty, v));
  }

  lemma MarshalGives(less: Order, versions: set<u16>, maxSize: usize, version: u16, ty: Ty, v: Val, n: nat, s': PState)
    requires HasType(less, ty, v) && version in versions && Size(less, ty, v) == n && n + VERSION_SIZE <= USIZE_MAX
    requires VersionPacked(maxSize, n + VERSION_SIZE, version).err.None?
    requires s' == Put(less, ty, v, VersionPacked(maxSize, n + VERSION_SIZE, version))
    ensures MarshalWith(less, versions, maxSize, version, ty, v) == Finished(s')
  {
  }

  lemma VersionFits(maxSize: usize, n: nat, version: u16)
    requires n + VERSION_SIZE <= USIZE_MAX
    ensures var s := VersionPacked(maxSize, n + VERSION_SIZE, version);
            s.buf == BE(version, 2) && Ready(s, n) && s.max <= USIZE_MAX
  {
  }

  lemma FinishedWrites(s: PState, s': PState, ok: bool, data: bytes)
    requires s.err.None? && Writes(s, s', ok, data)
    ensures if ok then Finished(s') == Ok(s.buf + data)
            else Finished(s') == Err(MaxSliceLenExceeded) || Finished(s') == Err(PackerFailed(InvalidInput))
  {
  }

  /** What was marshalled and is not too long unmarshals to the same version and value. */
  lemma UnmarshalInvertsMarshal(less: Order, versions: set<u16>, maxSize: usize, version: u16, ty: Ty, v: Val)
    requires KeyOrder(less) && DistinctIds(ty) && HasType(less, ty, v) && |Enc(less, ty, v)| + VERSION_SIZE <= USIZE_MAX
    requires MarshalWith(less, versions, maxSize, version, ty, v).Ok?
    requires |MarshalWith(less, versions, maxSize, version, ty, v).value| <= maxSize
    ensures UnmarshalWith(less, versions, maxSize, ty, MarshalWith(less, versions, maxSize, version, ty, v).value)
         == Ok((version, v))
  {
    MarshalOutcome(less, versions, maxSize, version, ty, v);
    EncodableIff(less, ty, v);
    UnmarshalEncoded(less, versions, maxSize, version, ty, v);
  }

  lemma UnmarshalEncoded(less: Order, versions: set<u16>, maxSize: usize, version: u16, ty: Ty, v: Val)
    requires KeyOrder(less) && DistinctIds(ty) && HasType(less, ty, v) && Decodable(less, ty, v)
    requires version in versions && |Enc(less, ty, v)| + VERSION_SIZE <= maxSize
    ensures UnmarshalWith(less, versions, maxSize, ty, BE(version, 2) + Enc(less, ty, v)) == Ok((version, v))
  {
    var src := BE(version, 2) + Enc(less, ty, v);
    var s := NewRead(src);
    assert src[0..0 + |src|] == src;
    AtSplit(s, BE(version, 2), Enc(less, ty, v));
    Pow256Values();
    TakeIntAt(s, version, 2);
    DecodeInvertsEncode(less, ty, v, Skip(s, BE(version, 2)));
  }

  /** What a successful unmarshal went through. */
  lemma UnmarshalSteps(less: Order, versions: set<u16>, maxSize: usize, ty: Ty, src: bytes)
    returns (version: u16, v: Val, s: PState, s': PState)
    requires KeyOrder(less) && UnmarshalWith(less, versions, maxSize, ty, src).Ok?
    ensures UnmarshalWith(less, versions, maxSize, ty, src) == Ok((version, v))
    ensures version in versions && HasType(less, ty, v)
    ensures Reading(s) && Consumed(NewRead(src), s, BE(version, 2)) && s.buf == src && |src| <= USIZE_MAX
    ensures Get(less, ty, s) == (Some(v), s') && s'.off == |src|
  {
    Pow256Values();
    TakeIntConsumes(NewRead(src), 2);
    var r := TakeInt(NewRead(src), 2);
    version, s := r.0, r.1;
    v, s' := Get(less, ty, s).0.value, Get(less, ty, s).1;
  }

  /** A value read from exactly the bytes of its encoding marshals back to them. */
  lemma MarshalsBack(less: Order, versions: set<u16>, maxSize: usize, version: u16, ty: Ty, v: Val,
                     src: bytes, s: PState, s': PState)
    requires HasType(less, ty, v) && Encodable(less, ty, v) && version in versions && |src| <= USIZE_MAX
    requires Consumed(NewRead(src), s, BE(version, 2)) && Consumed(s, s', Enc(less, ty, v)) && s'.off == |src|
    ensures MarshalWith(less, versions, maxSize, version, ty, v) == Ok(src)
  {
    ConsumedThen(NewRead(src), s, s', BE(version, 2), Enc(less, ty, v));
    assert src[0..0 + |src|] == src;
    MarshalOutcome(less, versions, maxSize, version, ty, v);
  }

  /** Bytes that unmarshal are the only bytes that do so to that version and value: marshalling gives
      them back. */
  lemma MarshalInvertsUnmarshal(less: Order, versions: set<u16>, maxSize: usize, ty: Ty, src: bytes)
    requires KeyOrder(less) && |src| <= I32_MAX && UnmarshalWith(less, versions, maxSize, ty, src).Ok?
    ensures var (version, v) := UnmarshalWith(less, versions, maxSize, ty, src).value;
            HasType(less, ty, v) && MarshalWith(less, versions, maxSize, version, ty, v) == Ok(src)
  {
    hide UnmarshalWith, MarshalWith, Get, Enc, HasType, Encodable, CountsFit;
    var version, v, s, s' := UnmarshalSteps(less, versions, maxSize, ty, src);
    DecodeIsCanonical(less, ty, s);
    MarshalsBack(less, versions, maxSize, version, ty, v, src, s, s');
  }

  /** Only acceptable values marshal, however long. */
  lemma OnlyEncodableMarshals(less: Order, versions: set<u16>, maxSize: usize, version: u16, ty: Ty, v: Val)
    requires HasType(less, ty, v) && MarshalWith(less, versions, maxSize, version, ty, v).Ok?
    ensures Encodable(less, ty, v)
  {
    hide Enc, Encodable;
    SizeExact(less, ty, v);
    MarshalOutcome(less, versions, maxSize, version, ty, v);
  }

  /** Without the bound on the input: whatever unmarshals, marshalling gives the bytes back if and only if the
      value is acceptable, that is, if and only if no list or map inside it has more than i32::MAX entries. */
  lemma MarshalInvertsUnmarshalIff(less: Order, versions: set<u16>, maxSize: usize, ty: Ty, src: bytes)
    requires KeyOrder(less) && UnmarshalWith(less, versions, maxSize, ty, src).Ok?
    ensures var (version, v) := UnmarshalWith(less, versions, maxSize, ty, src).value;
            && HasType(less, ty, v)
            && (MarshalWith(less, versions, maxSize, version, ty, v) == Ok(src) <==> Encodable(less, ty, v))
            && (Encodable(less, ty, v) <==> CountsFit(less, ty, v))
  {
    hide UnmarshalWith, MarshalWith, Get, Enc, HasType, Encodable, CountsFit, Decodable;
    var version, v, s, s' := UnmarshalSteps(less, versions, maxSize, ty, src);
    EncodableIff(less, ty, v);
    if CountsFit(less, ty, v) {
      DecodeIsCanonical(less, ty, s);
      MarshalsBack(less, versions, maxSize, version, ty, v, src, s, s');
    } else if MarshalWith(less, versions, maxSize, version, ty, v) == Ok(src) {
      OnlyEncodableMarshals(less, versions, maxSize, version, ty, v);
    }
  }

  /** The values that are read back and not written: of any type, those with a list or map of more entries than
      i32::MAX and no more than u32::MAX inside. */
  lemma ReadBackWrittenIff(less: Order, versions: set<u16>, maxSize: usize, version: u16, ty: Ty, v: Val)
    requires KeyOrder(less) && DistinctIds(ty) && HasType(less, ty, v) && Decodable(less, ty, v)
    requires version in versions && |Enc(less, ty, v)| + VERSION_SIZE <= maxSize
    ensures var src := BE(version, 2) + Enc(less, ty, v);
            && UnmarshalWith(less, versions, maxSize, ty, src) == Ok((version, v))
            && (MarshalWith(less, versions, maxSize, version, ty, v) == Ok(src) <==> CountsFit(less, ty, v))
  {
    hide Get, Enc, HasType, Encodable, CountsFit, Decodable;
    UnmarshalEncoded(less, versions, maxSize, version, ty, v);
    EncodableIff(less, ty, v);
    MarshalOutcome(less, versions, maxSize, version, ty, v);
  }

  // ----- two such values -----

  function Zeros(n: nat): Val {
    List(seq(n, i => Num(0)))
  }

  lemma {:induction false} ByteElems(less: Order, vs: seq<Val>)
    requires forall i :: 0 <= i < |vs| ==> vs[i] == Num(0)
    ensures (forall i :: 0 <= i < |vs| ==> HasType(less, U8, vs[i])) && |EncElems(less, Vec(U8), vs)| == |vs|
  {
    Pow256Values();
    if vs != [] { ByteElems(less, vs[1..]); }
  }

  /** A list of 2^31 bytes: it unmarshals, and does not marshal. */
  lemma LongListIsNotWritten(less: Order, version: u16)
    requires KeyOrder(less)
    ensures var ty, v := Vec(U8), Zeros(I32_MAX + 1);
            && HasType(less, ty, v)
            && UnmarshalWith(less, {version}, USIZE_MAX, ty, BE(version, 2) + Enc(less, ty, v)) == Ok((version, v))
            && !MarshalWith(less, {version}, USIZE_MAX, version, ty, v).Ok?
  {
    hide UnmarshalWith, MarshalWith, Get;
    var ty, v := Vec(U8), Zeros(I32_MAX + 1);
    ByteElems(less, v.elems);
    ReadBackWrittenIff(less, {version}, USIZE_MAX, version, ty, v);
    if MarshalWith(less, {version}, USIZE_MAX, version, ty, v).Ok? {
      OnlyEncodableMarshals(less, {version}, USIZE_MAX, version, ty, v);
    }
  }

  function Counted(n: nat): Val {
    Dict(seq(n, i requires i >= 0 => (Num(i), Num(0))))
  }

  lemma {:induction false} CountedBytes(less: Order, es: seq<(Val, Val)>)
    requires EntriesTyped(less, Map(U32, U8), es)
    ensures EntriesTotal(less, Map(U32, U8), es) == 5 * |es|
  {
    if es != [] { CountedBytes(less, es[1..]); }
  }

  lemma CountedTyped(n: nat)
    requires n <= U32_MAX
    ensures HasType(CodeLess, Map(U32, U8), Counted(n)) && |Enc(CodeLess, Map(U32, U8), Counted(n))| == 4 + 5 * n
  {
    Pow256Values();
    CodeLessIsKeyOrder();
    CountedBytes(CodeLess, Counted(n).entries);
    MapLength(CodeLess, Map(U32, U8), Counted(n));
  }

  /** A map of 2^31 entries: the same. */
  lemma LongMapIsNotWritten(version: u16)
    ensures var ty, v := Map(U32, U8), Counted(I32_MAX + 1);
            && KeyOrder(CodeLess) && HasType(CodeLess, ty, v)
            && UnmarshalWith(CodeLess, {version}, USIZE_MAX, ty, BE(version, 2) + Enc(CodeLess, ty, v))
               == Ok((version, v))
            && !MarshalWith(CodeLess, {version}, USIZE_MAX, version, ty, v).Ok?
  {
    hide UnmarshalWith, MarshalWith, Get, Enc;
    var ty, v := Map(U32, U8), Counted(I32_MAX + 1);
    CodeLessIsKeyOrder();
    CountedTyped(I32_MAX + 1);
    ReadBackWrittenIff(CodeLess, {version}, USIZE_MAX, version, ty, v);
    if MarshalWith(CodeLess, {version}, USIZE_MAX, version, ty, v).Ok? {
      OnlyEncodableMarshals(CodeLess, {version}, USIZE_MAX, version, ty, v);
    }
  }
}
