/** The big-endian packer with a sticky first error: its state as a value, the primitive operations on
    it, and the class that carries them out in place. */
module Packing {
  import opened Bytes

  const MAX_STRING_LEN: nat := U16_MAX

  datatype PackerError = InsufficientLength | InvalidInput | BadBool | Oversized

  /** One struct for both directions: bytes are appended, or consumed at the offset. */
  datatype PState = PState(write: bool, buf: bytes, off: nat, max: nat, err: Option<PackerError>) {
    function Cursor(): nat {
      if write then |buf| else off
    }
  }

  function NewWrite(cap: nat): PState {
    PState(true, [], 0, cap, None)
  }

  function NewRead(src: bytes): PState {
    PState(false, src, 0, |src|, None)
  }

  /** The first error wins. */
  function AddError(s: PState, e: PackerError): PState {
    if s.err.None? then s.(err := Some(e)) else s
  }

  /** Appends raw bytes if they fit; every pack operation goes through here. */
  function Emit(s: PState, data: bytes): PState {
    if s.err.Some? then s
    else if !s.write || |s.buf| + |data| > s.max then AddError(s, InsufficientLength)
    else s.(buf := s.buf + data)
  }

  /** Consumes n bytes if they are there; every unpack operation goes through here. */
  function Take(s: PState, n: nat): (bytes, PState) {
    if s.err.Some? then ([], s)
    else if s.off + n > |s.buf| then ([], AddError(s, InsufficientLength))
    else (s.buf[s.off..s.off + n], s.(off := s.off + n))
  }

  /** A fixed-width big-endian read; zero on error. */
  function TakeInt(s: PState, n: nat): (nat, PState) {
    var (b, s') := Take(s, n);
    (if |b| == n then FromBE(b) else 0, s')
  }

  function StrPacked(s: PState, utf8: bytes): PState {
    if |utf8| > MAX_STRING_LEN then AddError(s, InvalidInput)
    else Emit(Emit(s, BE(|utf8|, 2)), utf8)
  }

  function BoolTaken(s: PState): (bool, PState) {
    var (b, s') := TakeInt(s, 1);
    if b == 0 then (false, s') else if b == 1 then (true, s') else (false, AddError(s', BadBool))
  }

  /** A length-prefixed string: the empty string on any error. */
  function StrTaken(s: PState): (bytes, PState) {
    var (n, s1) := TakeInt(s, 2);
    var (raw, s2) := Take(s1, n);
    if s2.err.Some? then ([], s2)
    else if !ValidUtf8(raw) then ([], AddError(s2, InvalidInput))
    else (raw, s2)
  }

  // ----- UTF-8 well-formedness, table 3-7 of the Unicode Standard -----

  predicate Cont(b: byte) {
    0x80 <= b <= 0xBF
  }

  predicate ValidUtf8(s: bytes) {
    if s == [] then true
    else if s[0] <= 0x7F then ValidUtf8(s[1..])
    else if 0xC2 <= s[0] <= 0xDF then |s| >= 2 && Cont(s[1]) && ValidUtf8(s[2..])
    else if 0xE0 <= s[0] <= 0xEF then
      && |s| >= 3 && Cont(s[1]) && Cont(s[2])
      && (s[0] == 0xE0 ==> s[1] >= 0xA0) && (s[0] == 0xED ==> s[1] <= 0x9F)
      && ValidUtf8(s[3..])
    else if 0xF0 <= s[0] <= 0xF4 then
      && |s| >= 4 && Cont(s[1]) && Cont(s[2]) && Cont(s[3])
      && (s[0] == 0xF0 ==> s[1] >= 0x90) && (s[0] == 0xF4 ==> s[1] <= 0x8F)
      && ValidUtf8(s[4..])
    else false
  }

  // ----- the class -----

  class Packer {
    const write: bool
    const max: nat
    var buf: bytes
    var off: nat
    var err: Option<PackerError>

    function State(): PState
      reads this
    {
      PState(write, buf, off, max, err)
    }

    constructor Write(cap: nat)
      ensures State() == NewWrite(cap)
    {
      write, max, buf, off, err := true, cap, [], 0, None;
    }

    constructor Read(src: bytes)
      ensures State() == NewRead(src)
    {
      write, max, buf, off, err := false, |src|, src, 0, None;
    }

    method AddExternalError(e: PackerError)
      modifies this`err
      ensures State() == AddError(old(State()), e)
    {
      if err.None? { err := Some(e); }
    }

    method ExpandWrite(n: nat) returns (ok: bool)
      modifies this`err
      ensures ok <==> old(err).None? && write && |buf| + n <= max
      ensures State() == if ok || old(err).Some? then old(State()) else AddError(old(State()), InsufficientLength)
    {
      if err.Some? { return false; }
      if write && |buf| + n <= max { return true; }
      AddExternalError(InsufficientLength);
      ok := false;
    }

    method PackFixedBytes(data: bytes)
      modifies this`buf, this`err
      ensures State() == Emit(old(State()), data)
    {
      var ok := ExpandWrite(|data|);
      if ok { buf := buf + data; }
    }

    method PackInt(v: nat, n: nat)
      modifies this`buf, this`err
      ensures State() == Emit(old(State()), BE(v, n))
    {
      PackFixedBytes(BE(v, n));
    }

    method PackStr(utf8: bytes)
      modifies this`buf, this`err
      ensures State() == StrPacked(old(State()), utf8)
    {
      if |utf8| > MAX_STRING_LEN {
        AddExternalError(InvalidInput);
        return;
      }
      PackInt(|utf8|, 2);
      PackFixedBytes(utf8);
    }

    method CheckSpace(n: nat) returns (ok: bool)
      modifies this`err
      ensures ok <==> old(err).None? && off + n <= |buf|
      ensures State() == if ok || old(err).Some? then old(State()) else AddError(old(State()), InsufficientLength)
    {
      if err.Some? { return false; }
      if off + n <= |buf| { return true; }
      AddExternalError(InsufficientLength);
      ok := false;
    }

    method UnpackFixedBytes(n: nat) returns (b: bytes)
      modifies this`off, this`err
      ensures (b, State()) == Take(old(State()), n)
    {
      var ok := CheckSpace(n);
      if !ok { return []; }
      b := buf[off..off + n];
      off := off + n;
    }

    method UnpackInt(n: nat) returns (v: nat)
      modifies this`off, this`err
      ensures (v, State()) == TakeInt(old(State()), n)
    {
      var b := UnpackFixedBytes(n);
      v := if |b| == n then FromBE(b) else 0;
    }

    method UnpackBool() returns (b: bool)
      modifies this`off, this`err
      ensures (b, State()) == BoolTaken(old(State()))
    {
      var v := UnpackInt(1);
      if v > 1 { AddExternalError(BadBool); }
      b := v == 1;
    }

    method UnpackStr() returns (s: bytes)
      modifies this`off, this`err
      ensures (s, State()) == StrTaken(old(State()))
    {
      var n := UnpackInt(2);
      s := UnpackFixedBytes(n);
      if err.Some? { return []; }
      if !ValidUtf8(s) {
        AddExternalError(InvalidInput);
        s := [];
      }
    }
  }
}
