/** Decoding loops no more often than the input has bytes, whatever counts the input claims. */
module DecodeWork {
  import opened Bytes
  import opened Packing
  import opened Ordered
  import opened Wire
  import opened Marshal
  import opened Unmarshal
  import opened DecodeSafety
  import opened Canonical

  /** How often the element loop runs when the input claims n elements. */
  function ElemTurns(less: Order, ty: Ty, n: nat, s: PState): nat
    requires KeyOrder(less) && ty.Vec? && s.err.None?
    decreases n
  {
    if n == 0 then 0
    else
      var (v, s1) := Get(less, ty.elem, s);
      if v.None? || s1.Cursor() == s.Cursor() then 1 else 1 + ElemTurns(less, ty, n - 1, s1)
  }

  lemma {:induction false} ElemLoopIsBounded(less: Order, ty: Ty, n: nat, s: PState)
    requires KeyOrder(less) && ty.Vec? && Reader(s) && s.err.None?
    ensures ElemTurns(less, ty, n, s) <= |s.buf| - s.off + 1
    decreases n
  {
    if n > 0 {
      DecodeIsSafe(less, ty.elem, s);
      var (v, s1) := Get(less, ty.elem, s);
      if v.Some? && s1.Cursor() != s.Cursor() { ElemLoopIsBounded(less, ty, n - 1, s1); }
    }
  }

  /** How often the entry loop runs when the input claims n entries. */
  function EntryTurns(less: Order, ty: Ty, n: nat, s: PState, prev: Option<bytes>): nat
    requires KeyOrder(less) && ty.Map? && s.err.None?
    decreases n
  {
    if n == 0 then 0
    else
      var (k, s1) := Get(less, ty.key, s);
      if k.None? then 1
      else
        var kb := KeyState(less, ty.key, k.value).buf;
        if prev.Some? && Le(kb, prev.value) then 1
        else
          var (v, s2) := Get(less, ty.val, s1);
          if v.None? then 1 else 1 + EntryTurns(less, ty, n - 1, s2, Some(kb))
  }

  /** A key whose bytes exceed the previous key's is not empty, so every turn but the first consumes. */
  lemma {:induction false} EntryLoopIsBounded(less: Order, ty: Ty, n: nat, s: PState, prev: Option<bytes>)
    requires KeyOrder(less) && ty.Map? && Reading(s)
    ensures EntryTurns(less, ty, n, s, prev) <= |s.buf| - s.off + (if prev.Some? then 1 else 2)
    decreases n
  {
    hide Get, Enc, HasType;
    if n > 0 {
      DecodeIsSafe(less, ty.key, s);
      var (k, s1) := Get(less, ty.key, s);
      if k.Some? {
        DecodeIsSafe(less, ty.val, s1);
        var kb := KeyState(less, ty.key, k.value).buf;
        if !(prev.Some? && Le(kb, prev.value)) && Get(less, ty.val, s1).0.Some? {
          var (v, s2) := Get(less, ty.val, s1);
          if s2.off == s.off { EntryIsRead(less, ty, s, prev, k.value, s1, v.value, s2); }
          EntryLoopIsBounded(less, ty, n - 1, s2, Some(kb));
        }
      }
    }
  }
}
