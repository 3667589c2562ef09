/** The data space: one logical byte offset split over files of bounded size, and the space
    allocator that never lets a block straddle two files. */
module DataFiles {
  import opened Bytes
  import opened BlockFormat
  import BlockIndex

  type Files = map<nat, bytes>

  function SplitOffset(off: u64, max: u64): Result<(u64, u64)> {
    if max == 0 then Err(Overflow) else Ok((off / max, off % max))
  }

  function CheckedAdd(a: u64, b: u64): Result<u64> {
    if a as nat + b as nat > U64_MAX then Err(Overflow) else Ok(a + b)
  }

  function CheckedMul(a: u64, b: u64): Result<u64> {
    var p: nat := a as nat * b as nat;
    if p > U64_MAX then Err(Overflow) else Ok(p)
  }

  /** The write offset and the next write offset for a block of total bytes. */
  function AllocateBlockSpace(next: u64, total: u32, max: u64): Result<(u64, u64)> {
    if total > max then Err(BlockTooLarge)
    else
      var blockEnd := CheckedAdd(next, total);
      if blockEnd.Err? then Err(Overflow)
      else if max == 0 then Ok((next, blockEnd.value))
      else
        var endWithin := CheckedAdd(next % max, total);
        if endWithin.Err? then Err(Overflow)
        else if endWithin.value <= max then Ok((next, blockEnd.value))
        else
          var nextFile := CheckedAdd(next / max, 1);
          if nextFile.Err? then Err(Overflow)
          else
            var off := CheckedMul(nextFile.value, max);
            if off.Err? then Err(Overflow)
            else
              var end := CheckedAdd(off.value, total);
              if end.Err? then Err(Overflow) else Ok((off.value, end.value))
  }

  /** Quotient, remainder and product by repeated subtraction and addition. They keep the layout
      proofs linear; DivModLaws identifies them with the operators the store computes with. */
  function FileOf(off: nat, max: nat): nat
    requires max > 0
    decreases off
  {
    if off < max then 0 else 1 + FileOf(off - max, max)
  }

  function LocalOf(off: nat, max: nat): (l: nat)
    requires max > 0
    ensures l < max
    decreases off
  {
    if off < max then off else LocalOf(off - max, max)
  }

  function FileStart(i: nat, max: nat): nat {
    if i == 0 then 0 else FileStart(i - 1, max) + max
  }

  lemma {:induction false} SplitJoin(off: nat, max: nat)
    requires max > 0
    ensures off == FileStart(FileOf(off, max), max) + LocalOf(off, max)
    decreases off
  {
    if off >= max { SplitJoin(off - max, max); }
  }

  lemma {:induction false} JoinSplit(i: nat, l: nat, max: nat)
    requires l < max
    ensures FileOf(FileStart(i, max) + l, max) == i && LocalOf(FileStart(i, max) + l, max) == l
  {
    if i > 0 { JoinSplit(i - 1, l, max); }
  }

  lemma {:induction false} FileStartMonotone(i: nat, j: nat, max: nat)
    requires i <= j
    ensures FileStart(i, max) <= FileStart(j, max)
  {
    if i < j { FileStartMonotone(i, j - 1, max); }
  }

  lemma FileOfMonotone(x: nat, y: nat, max: nat)
    requires max > 0 && x <= y
    ensures FileOf(x, max) <= FileOf(y, max)
  {
    SplitJoin(x, max);
    SplitJoin(y, max);
    if FileOf(y, max) < FileOf(x, max) {
      FileStartMonotone(FileOf(y, max) + 1, FileOf(x, max), max);
    }
  }

  lemma {:induction false} FileStartIsProduct(i: nat, max: nat)
    ensures FileStart(i, max) == i * max
  {
    if i > 0 {
      FileStartIsProduct(i - 1, max);
      assert (i - 1) * max + max == i * max;
    }
  }

  lemma MulBound(k: int, max: nat)
    ensures k >= 1 ==> k * max >= max
    ensures k <= -1 ==> k * max <= 0 - max
  {
  }

  lemma DivModUnique(x: nat, q: nat, r: nat, max: nat)
    requires r < max && x == q * max + r
    ensures x / max == q && x % max == r
  {
    var d := x / max;
    assert x == d * max + x % max;
    assert (d - q) * max == r - x % max;
    MulBound(d - q, max);
  }

  lemma DivModLaws(off: nat, max: nat)
    requires max > 0
    ensures off / max == FileOf(off, max)
    ensures off % max == LocalOf(off, max)
    ensures (off / max + 1) * max == FileStart(FileOf(off, max) + 1, max)
  {
    SplitJoin(off, max);
    FileStartIsProduct(FileOf(off, max), max);
    FileStartIsProduct(FileOf(off, max) + 1, max);
    DivModUnique(off, FileOf(off, max), LocalOf(off, max), max);
  }

  /** Splitting a global offset gives the file and the offset in it. */
  lemma SplitOffsetIs(off: u64, max: u64)
    ensures max == 0 ==> SplitOffset(off, max) == Err(Overflow)
    ensures max > 0 ==> SplitOffset(off, max).Ok?
                        && SplitOffset(off, max).value.0 == FileOf(off, max)
                        && SplitOffset(off, max).value.1 == LocalOf(off, max)
  {
    if max > 0 { DivModLaws(off, max); }
  }

  function Contents(files: Files, i: nat): bytes {
    if i in files then files[i] else []
  }

  function WriteData(files: Files, off: nat, data: bytes, max: nat): Files
    requires max > 0
  {
    var i := FileOf(off, max);
    files[i := BlockIndex.WriteAt(Contents(files, i), LocalOf(off, max), data)]
  }

  /** Opening a data file creates it when it is missing, for reads too. */
  function Touch(files: Files, off: nat, max: nat): Files
    requires max > 0
  {
    if FileOf(off, max) in files then files else files[FileOf(off, max) := []]
  }

  /** An exact positioned read of n bytes. */
  function ReadData(files: Files, off: nat, n: nat, max: nat): Result<bytes>
    requires max > 0
  {
    var f := Contents(files, FileOf(off, max));
    var l := LocalOf(off, max);
    if n == 0 then Ok([])
    else if l + n <= |f| then Ok(f[l..l + n])
    else Err(UnexpectedEof)
  }

  // ----- where a block goes -----

  predicate Fits(off: nat, total: nat, max: nat)
    requires max > 0
  {
    LocalOf(off, max) + total <= max
  }

  function Place(next: nat, total: nat, max: nat): nat
    requires max > 0
  {
    if Fits(next, total, max) then next else FileStart(FileOf(next, max) + 1, max)
  }

  /** Where the placed block sits: in which file, at which local offset, and that it ends in it. */
  lemma PlaceSplit(next: nat, total: nat, max: nat)
    requires 0 < total <= max
    ensures var w := Place(next, total, max);
            && w >= next
            && (Fits(next, total, max) ==> w == next)
            && (!Fits(next, total, max) ==>
                  w > next && FileOf(w, max) == FileOf(next, max) + 1 && LocalOf(w, max) == 0)
            && Fits(w, total, max)
            && w == FileStart(FileOf(w, max), max) + LocalOf(w, max)
            && FileOf(w + total - 1, max) == FileOf(w, max)
  {
    var w := Place(next, total, max);
    SplitJoin(next, max);
    if !Fits(next, total, max) { JoinSplit(FileOf(next, max) + 1, 0, max); }
    SplitJoin(w, max);
    JoinSplit(FileOf(w, max), LocalOf(w, max) + total - 1, max);
  }

  /** No offset between next and the start of the following file fits once next does not. */
  lemma NothingFitsBetween(next: nat, o: nat, total: nat, max: nat)
    requires 0 < total <= max
    requires next <= o < Place(next, total, max)
    ensures !Fits(o, total, max)
  {
    SplitJoin(next, max);
    JoinSplit(FileOf(next, max), o - FileStart(FileOf(next, max), max), max);
  }

  /** The allocator returns the least offset at or after the observed one at which the block fits
      in one file, and fails exactly when the block is larger than a file or would end past u64. */
  lemma AllocateIsLeastFit(next: u64, total: u32, max: u64)
    requires total > 0
    ensures total > max ==> AllocateBlockSpace(next, total, max) == Err(BlockTooLarge)
    ensures total <= max ==>
              var w := Place(next, total, max);
              && AllocateBlockSpace(next, total, max)
                 == (if w + total <= U64_MAX then Ok((w, w + total)) else Err(Overflow))
              && next <= w && Fits(w, total, max)
              && (forall o: nat :: next <= o < w ==> !Fits(o, total, max))
  {
    if total <= max {
      var w := Place(next, total, max);
      PlaceSplit(next, total, max);
      DivModLaws(next, max);
      forall o: nat | next <= o < w ensures !Fits(o, total, max) {
        NothingFitsBetween(next, o, total, max);
      }
      SplitJoin(next, max);
    }
  }

  // ----- the layout of a sequence of framed blocks -----

  predicate Framed(fs: seq<bytes>, max: nat) {
    max > 0 && forall i :: 0 <= i < |fs| ==> 0 < |fs[i]| <= max
  }

  /** The offset after the last block when fs is written one block after the other. */
  function End(fs: seq<bytes>, max: nat): nat
    requires max > 0
  {
    if fs == [] then 0
    else
      var n := |fs| - 1;
      Place(End(fs[..n], max), |fs[n]|, max) + |fs[n]|
  }

  /** The offset at which block i of fs starts. */
  function Start(fs: seq<bytes>, i: nat, max: nat): nat
    requires max > 0 && i < |fs|
  {
    Place(End(fs[..i], max), |fs[i]|, max)
  }

  /** The files that writing fs one block after the other leaves. */
  function Written(fs: seq<bytes>, max: nat): Files
    requires max > 0
  {
    if fs == [] then map[]
    else
      var n := |fs| - 1;
      WriteData(Written(fs[..n], max), Start(fs, n, max), fs[n], max)
  }

  /** The files number 0..last without gaps, the last one ends at End, none is longer than max. */
  ghost predicate Shape(files: Files, end: nat, max: nat)
    requires max > 0
  {
    if end == 0 then files == map[]
    else
      var last := FileOf(end - 1, max);
      && (forall i: nat :: i in files <==> i <= last)
      && |files[last]| == end - FileStart(last, max)
      && (forall i: nat :: i in files ==> |files[i]| <= max)
  }

  lemma LastFile(n: nat, max: nat)
    requires n > 0 && max > 0
    ensures LocalOf(n, max) > 0 ==> FileOf(n - 1, max) == FileOf(n, max)
    ensures LocalOf(n, max) == 0 ==> FileOf(n, max) > 0 && FileOf(n - 1, max) == FileOf(n, max) - 1
    ensures n == FileStart(FileOf(n, max), max) + LocalOf(n, max)
  {
    SplitJoin(n, max);
    if LocalOf(n, max) == 0 {
      JoinSplit(FileOf(n, max) - 1, max - 1, max);
    } else {
      JoinSplit(FileOf(n, max), LocalOf(n, max) - 1, max);
    }
  }

  /** The next block goes to the end of the last file or to the start of the next one. */
  lemma PlaceIsFileEnd(files: Files, n: nat, total: nat, max: nat)
    requires 0 < total <= max && Shape(files, n, max)
    ensures var w := Place(n, total, max);
            var i := FileOf(w, max);
            && LocalOf(w, max) == |Contents(files, i)|
            && (forall j: nat :: j < i ==> j in files)
            && (forall j: nat :: j in files ==> j <= i)
  {
    PlaceSplit(n, total, max);
    if n > 0 { LastFile(n, max); }
  }

  /** Writing the next block appends it to the last file or starts the next file with it. */
  lemma WriteShape(files: Files, n: nat, f: bytes, max: nat)
    requires 0 < |f| <= max && Shape(files, n, max)
    ensures var w := Place(n, |f|, max);
            var i := FileOf(w, max);
            && LocalOf(w, max) == |Contents(files, i)|
            && WriteData(files, w, f, max) == files[i := Contents(files, i) + f]
            && Shape(WriteData(files, w, f, max), w + |f|, max)
  {
    var w := Place(n, |f|, max);
    PlaceSplit(n, |f|, max);
    PlaceIsFileEnd(files, n, |f|, max);
    var i := FileOf(w, max);
    assert BlockIndex.WriteAt(Contents(files, i), LocalOf(w, max), f) == Contents(files, i) + f;
  }

  lemma {:induction false} WrittenShape(fs: seq<bytes>, max: nat)
    requires Framed(fs, max)
    ensures Shape(Written(fs, max), End(fs, max), max)
    ensures fs != [] ==> End(fs, max) > 0
  {
    if fs != [] {
      var n := |fs| - 1;
      WrittenShape(fs[..n], max);
      WriteShape(Written(fs[..n], max), End(fs[..n], max), fs[n], max);
    }
  }

  /** Offsets only grow. */
  lemma {:induction false} EndMonotone(fs: seq<bytes>, i: nat, max: nat)
    requires Framed(fs, max) && i <= |fs|
    ensures End(fs[..i], max) <= End(fs, max)
    ensures i < |fs| ==> End(fs[..i], max) <= Start(fs, i, max) < Start(fs, i, max) + |fs[i]| <= End(fs, max)
    decreases |fs|
  {
    if i == |fs| {
      assert fs[..i] == fs;
    } else {
      var n := |fs| - 1;
      PlaceSplit(End(fs[..n], max), |fs[n]|, max);
      if i < n {
        EndMonotone(fs[..n], i, max);
        assert fs[..n][..i] == fs[..i];
      }
    }
  }

  /** Files are append-only: what a prefix of the blocks wrote is still there. */
  lemma {:induction false} WrittenExtends(fs: seq<bytes>, k: nat, max: nat)
    requires Framed(fs, max) && k <= |fs|
    ensures forall i: nat :: i in Written(fs[..k], max) ==>
              i in Written(fs, max) && Written(fs[..k], max)[i] <= Written(fs, max)[i]
    decreases |fs|
  {
    if k == |fs| {
      assert fs[..k] == fs;
    } else {
      var n := |fs| - 1;
      WrittenExtends(fs[..n], k, max);
      assert fs[..n][..k] == fs[..k];
      WrittenShape(fs[..n], max);
      WriteShape(Written(fs[..n], max), End(fs[..n], max), fs[n], max);
    }
  }

  /** Block i can be read back where it was placed. */
  lemma ReadBack(fs: seq<bytes>, i: nat, max: nat)
    requires Framed(fs, max) && i < |fs|
    ensures var w := Start(fs, i, max);
            && FileOf(w, max) in Written(fs, max)
            && LocalOf(w, max) + |fs[i]| <= |Written(fs, max)[FileOf(w, max)]|
            && Written(fs, max)[FileOf(w, max)][LocalOf(w, max)..LocalOf(w, max) + |fs[i]|] == fs[i]
            && Fits(w, |fs[i]|, max)
  {
    hide FileOf, LocalOf, FileStart, Written;
    var gs := fs[..i + 1];
    WrittenLast(fs, i, max);
    WrittenExtends(fs, i + 1, max);
    PlaceSplit(End(fs[..i], max), |fs[i]|, max);
    var w := Start(fs, i, max);
    var c, l := FileOf(w, max), LocalOf(w, max);
    var before, after := Written(gs, max)[c], Written(fs, max)[c];
    assert after[..|before|] == before;
    assert after[l..l + |fs[i]|] == before[l..];
  }

  /** Right after block i is written, its file ends with it. */
  lemma WrittenLast(fs: seq<bytes>, i: nat, max: nat)
    requires Framed(fs, max) && i < |fs|
    ensures var w, gs := Start(fs, i, max), fs[..i + 1];
            && FileOf(w, max) in Written(gs, max)
            && LocalOf(w, max) + |fs[i]| == |Written(gs, max)[FileOf(w, max)]|
            && Written(gs, max)[FileOf(w, max)][LocalOf(w, max)..] == fs[i]
  {
    hide FileOf, LocalOf, FileStart;
    assert fs[..i + 1][..i] == fs[..i];
    WrittenShape(fs[..i], max);
    WriteShape(Written(fs[..i], max), End(fs[..i], max), fs[i], max);
    PlaceSplit(End(fs[..i], max), |fs[i]|, max);
  }

  lemma SubSlice(f: bytes, l: nat, m: nat, from: nat, n: nat)
    requires l + m <= |f| && from + n <= m
    ensures f[l + from..l + from + n] == f[l..l + m][from..from + n]
  {
    var a, b := f[l + from..l + from + n], f[l..l + m][from..from + n];
    assert |a| == |b| && forall k :: 0 <= k < n ==> a[k] == b[k];
  }

  /** A file that later blocks have moved past keeps its contents. */
  lemma {:induction false} Sealed(fs: seq<bytes>, i: nat, c: nat, max: nat)
    requires Framed(fs, max) && i < |fs| && c < FileOf(Start(fs, i, max), max)
    requires c in Written(fs[..i], max)
    ensures c in Written(fs, max) && Written(fs, max)[c] == Written(fs[..i], max)[c]
    decreases |fs|
  {
    hide FileOf;
    var n := |fs| - 1;
    if i < n {
      assert fs[..n][..i] == fs[..i];
      assert Start(fs[..n], i, max) == Start(fs, i, max);
      Sealed(fs[..n], i, c, max);
      StartsInOrder(fs, i, max);
    } else {
      assert fs[..n] == fs[..i];
    }
  }

  lemma StartsInOrder(fs: seq<bytes>, i: nat, max: nat)
    requires Framed(fs, max) && i < |fs|
    ensures FileOf(Start(fs, i, max), max) <= FileOf(Start(fs, |fs| - 1, max), max)
  {
    var n := |fs| - 1;
    if i < n {
      assert fs[..n][..i] == fs[..i];
      EndMonotone(fs[..n], i, max);
      PlaceSplit(End(fs[..n], max), |fs[n]|, max);
      FileOfMonotone(Start(fs, i, max), Start(fs, n, max), max);
    }
  }

  /** When block i moved to a fresh file, reading at the previous end hits end of file, and the next
      file boundary is where block i starts. */
  lemma GapIsEof(fs: seq<bytes>, i: nat, n: nat, max: nat)
    requires Framed(fs, max) && i < |fs| && n > 0
    requires Start(fs, i, max) != End(fs[..i], max)
    ensures var e := End(fs[..i], max);
            && ReadData(Written(fs, max), e, n, max) == Err(UnexpectedEof)
            && Touch(Written(fs, max), e, max) == Written(fs, max)
            && FileStart(FileOf(e, max) + 1, max) == Start(fs, i, max)
  {
    var e := End(fs[..i], max);
    PlaceSplit(e, |fs[i]|, max);
    WrittenShape(fs[..i], max);
    SplitJoin(e, max);
    assert LocalOf(e, max) > 0;
    LastFile(e, max);
    Sealed(fs, i, FileOf(e, max), max);
  }
}
