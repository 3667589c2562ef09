/** Concurrent puts: the two compare-and-swap loops, under every interleaving of their loads and swaps. */
module ConcurrentPuts {
  import opened Bytes
  import opened BlockFormat
  import opened DataFiles

  /** Where a put is: in the space loop, done with it, in the maximum loop, or finished. */
  datatype Thread =
    | WantSpace(total: u32, height: u64)
    | SawNext(total: u32, height: u64, cur: u64)
    | HasSpace(region: nat, height: u64)
    | SawMax(region: nat, height: u64, cur: u64)
    | Finished
    | Failed(e: Error)

  /** A reservation, with the counter value its swap replaced. */
  datatype Region = Region(thread: nat, off: nat, total: nat, seen: nat)

  /** regions and raised are history variables, in the order the loops ended. */
  datatype State = State(next: u64, maxHeight: u64, threads: map<nat, Thread>, regions: seq<Region>, raised: seq<u64>)

  datatype Step =
    | Spawn(t: nat, total: u32, height: u64)
    | LoadNext(t: nat)
    | SwapNext(t: nat)
    | LoadMax(t: nat)
    | SwapMax(t: nat)

  function With(s: State, t: nat, th: Thread): State {
    s.(threads := s.threads[t := th])
  }

  function DoSpawn(s: State, t: nat, total: u32, height: u64): Option<State> {
    if t in s.threads || total == 0 || height == UNSET_HEIGHT then None
    else Some(With(s, t, WantSpace(total, height)))
  }

  function DoLoadNext(s: State, t: nat): Option<State> {
    if t in s.threads && s.threads[t].WantSpace? then
      Some(With(s, t, SawNext(s.threads[t].total, s.threads[t].height, s.next)))
    else None
  }

  function DoSwapNext(max: u64, s: State, t: nat): Option<State> {
    if t in s.threads && s.threads[t].SawNext? then
      var SawNext(total, height, cur) := s.threads[t];
      match AllocateBlockSpace(cur, total, max)
      case Err(e) => Some(With(s, t, Failed(e)))
      case Ok((off, newNext)) =>
        if s.next != cur then Some(With(s, t, WantSpace(total, height)))
        else
          Some(With(s, t, HasSpace(|s.regions|, height))
               .(next := newNext, regions := s.regions + [Region(t, off, total, cur)]))
    else None
  }

  function DoLoadMax(s: State, t: nat): Option<State> {
    if t in s.threads && s.threads[t].HasSpace? then
      var height := s.threads[t].height;
      if s.maxHeight != UNSET_HEIGHT && height <= s.maxHeight then
        Some(With(s, t, Finished).(raised := s.raised + [height]))
      else Some(With(s, t, SawMax(s.threads[t].region, height, s.maxHeight)))
    else None
  }

  function DoSwapMax(s: State, t: nat): Option<State> {
    if t in s.threads && s.threads[t].SawMax? then
      var SawMax(region, height, cur) := s.threads[t];
      if s.maxHeight == cur then Some(With(s, t, Finished).(maxHeight := height, raised := s.raised + [height]))
      else Some(With(s, t, HasSpace(region, height)))
    else None
  }

  function Apply(max: u64, s: State, step: Step): Option<State> {
    match step
    case Spawn(t, total, height) => DoSpawn(s, t, total, height)
    case LoadNext(t) => DoLoadNext(s, t)
    case SwapNext(t) => DoSwapNext(max, s, t)
    case LoadMax(t) => DoLoadMax(s, t)
    case SwapMax(t) => DoSwapMax(s, t)
  }

  function Run(max: u64, s: State, steps: seq<Step>): Option<State> {
    if steps == [] then Some(s)
    else
      match Run(max, s, steps[..|steps| - 1])
      case None => None
      case Some(s') => Apply(max, s', steps[|steps| - 1])
  }

  // ----- the invariant -----

  predicate RegionOk(max: nat, r: Region) {
    && 0 < r.total <= max && r.seen <= r.off
    && Fits(r.off, r.total, max)
    && forall o: nat {:trigger Fits(o, r.total, max)} :: r.seen <= o < r.off ==> !Fits(o, r.total, max)
  }

  /** The thread still has to reserve, from a counter value it may have seen. */
  predicate Waiting(th: Thread, next: nat) {
    || (th.WantSpace? && th.total > 0)
    || (th.SawNext? && th.total > 0 && th.cur <= next)
  }

  ghost predicate ThreadInv(t: nat, th: Thread, next: nat, regions: seq<Region>) {
    match th
    case WantSpace(_, _) => Waiting(th, next) && forall i :: 0 <= i < |regions| ==> regions[i].thread != t
    case SawNext(_, _, _) => Waiting(th, next) && forall i :: 0 <= i < |regions| ==> regions[i].thread != t
    case HasSpace(k, _) => k < |regions| && regions[k].thread == t
    case SawMax(k, _, _) => k < |regions| && regions[k].thread == t
    case _ => true
  }

  ghost predicate RegionsInv(max: nat, next: nat, regions: seq<Region>, start: nat) {
    && start <= next
    && (forall i :: 0 <= i < |regions| ==> RegionOk(max, regions[i]) && start <= regions[i].seen)
    && (forall i :: 0 <= i < |regions| ==> regions[i].off + regions[i].total <= next)
    && (forall i, j :: 0 <= i < j < |regions| ==> regions[i].off + regions[i].total <= regions[j].off)
    && (forall i, j :: 0 <= i < j < |regions| ==> regions[i].thread != regions[j].thread)
  }

  ghost predicate SpaceInv(max: nat, s: State, start: nat) {
    && RegionsInv(max, s.next, s.regions, start)
    && (forall t :: t in s.threads ==> ThreadInv(t, s.threads[t], s.next, s.regions))
    && (forall i :: 0 <= i < |s.regions| ==> s.regions[i].thread in s.threads)
  }

  /** The tracked maximum is the initial one or exactly the largest of the heights raised since. */
  ghost predicate MaxInv(s: State, start: u64) {
    && (forall t :: t in s.threads ==>
          match s.threads[t]
          case WantSpace(_, h) => h != UNSET_HEIGHT
          case SawNext(_, h, _) => h != UNSET_HEIGHT
          case HasSpace(_, h) => h != UNSET_HEIGHT
          case SawMax(_, h, cur) => h != UNSET_HEIGHT && (cur == UNSET_HEIGHT || cur < h)
          case _ => true)
    && IsMax(s.maxHeight, start, s.raised)
  }

  ghost predicate IsMax(m: u64, start: u64, hs: seq<u64>) {
    if hs == [] then m == start
    else
      && m != UNSET_HEIGHT && (m in hs || m == start)
      && (start != UNSET_HEIGHT ==> start <= m)
      && forall h :: h in hs ==> h <= m
  }

  lemma NewRegion(max: u64, next: u64, regions: seq<Region>, start: nat, t: nat, total: u32) returns (r: Region)
    requires max > 0 && RegionsInv(max, next, regions, start) && total > 0
    requires forall i :: 0 <= i < |regions| ==> regions[i].thread != t
    requires AllocateBlockSpace(next, total, max).Ok?
    ensures r == Region(t, AllocateBlockSpace(next, total, max).value.0, total, next)
    ensures RegionsInv(max, AllocateBlockSpace(next, total, max).value.1, regions + [r], start)
    ensures AllocateBlockSpace(next, total, max).value.1 > next
  {
    AllocateIsLeastFit(next, total, max);
    r := Region(t, AllocateBlockSpace(next, total, max).value.0, total, next);
    assert RegionOk(max, r);
  }

  lemma ThreadKept(t: nat, th: Thread, next: nat, next': nat, regions: seq<Region>, r: Region)
    requires ThreadInv(t, th, next, regions) && next <= next' && r.thread != t
    ensures ThreadInv(t, th, next', regions + [r])
  {
  }

  lemma SwapReserves(max: u64, s: State, start: nat, t: nat)
    requires max > 0 && SpaceInv(max, s, start) && t in s.threads && s.threads[t].SawNext? && s.threads[t].cur == s.next
    requires AllocateBlockSpace(s.next, s.threads[t].total, max).Ok?
    ensures SpaceInv(max, DoSwapNext(max, s, t).value, start)
    ensures DoSwapNext(max, s, t).value.next > s.next
  {
    var s' := DoSwapNext(max, s, t).value;
    assert ThreadInv(t, s.threads[t], s.next, s.regions);
    var r := NewRegion(max, s.next, s.regions, start, t, s.threads[t].total);
    forall u | u in s'.threads ensures ThreadInv(u, s'.threads[u], s'.next, s'.regions) {
      if u != t { ThreadKept(u, s.threads[u], s.next, s'.next, s.regions, r); }
    }
  }

  /** A step that reserves nothing changes one thread. */
  lemma OneThread(max: u64, s: State, start: nat, t: nat, th: Thread)
    requires SpaceInv(max, s, start) && ThreadInv(t, th, s.next, s.regions)
    ensures SpaceInv(max, With(s, t, th), start)
  {
  }

  lemma SpaceStep(max: u64, s: State, start: nat, step: Step)
    requires max > 0 && SpaceInv(max, s, start) && Apply(max, s, step).Some?
    ensures SpaceInv(max, Apply(max, s, step).value, start)
    ensures s.next <= Apply(max, s, step).value.next
  {
    var s', t := Apply(max, s, step).value, step.t;
    if s'.regions != s.regions {
      SwapReserves(max, s, start, t);
    } else {
      assert t in s.threads ==> ThreadInv(t, s.threads[t], s.next, s.regions);
      OneThread(max, s, start, t, s'.threads[t]);
    }
  }

  lemma MaxStep(max: u64, s: State, start: u64, step: Step)
    requires MaxInv(s, start) && Apply(max, s, step).Some?
    ensures MaxInv(Apply(max, s, step).value, start)
    ensures s.maxHeight != UNSET_HEIGHT ==>
              Apply(max, s, step).value.maxHeight != UNSET_HEIGHT && s.maxHeight <= Apply(max, s, step).value.maxHeight
  {
    var s' := Apply(max, s, step).value;
    if s'.raised != s.raised {
      var h := s'.raised[|s.raised|];
      assert s'.raised == s.raised + [h];
    }
  }

  lemma {:induction false} RunInv(max: u64, next: u64, maxHeight: u64, steps: seq<Step>)
    requires max > 0 && Run(max, State(next, maxHeight, map[], [], []), steps).Some?
    ensures var s := Run(max, State(next, maxHeight, map[], [], []), steps).value;
            SpaceInv(max, s, next) && MaxInv(s, maxHeight)
  {
    if steps != [] {
      var n := |steps| - 1;
      RunInv(max, next, maxHeight, steps[..n]);
      var s := Run(max, State(next, maxHeight, map[], [], []), steps[..n]).value;
      SpaceStep(max, s, next, steps[n]);
      MaxStep(max, s, maxHeight, steps[n]);
    }
  }

  // ----- the theorems -----

  /** Under every interleaving no reserved region crosses a file boundary, each starts at the least fitting offset
      at or after the counter value its swap replaced, the counter bounds it, and the regions reserved after it
      are another thread's and begin behind it. */
  lemma RegionsAreDisjoint(max: u64, next: u64, maxHeight: u64, steps: seq<Step>, i: nat)
    requires max > 0 && Run(max, State(next, maxHeight, map[], [], []), steps).Some?
    requires i < |Run(max, State(next, maxHeight, map[], [], []), steps).value.regions|
    ensures var s := Run(max, State(next, maxHeight, map[], [], []), steps).value;
            var a := s.regions[i];
            && RegionOk(max, a) && next <= a.off && a.off + a.total <= s.next
            && FileOf(a.off, max) == FileOf(a.off + a.total - 1, max)
            && forall j :: i < j < |s.regions| ==>
                 a.thread != s.regions[j].thread && a.off + a.total <= s.regions[j].off
  {
    RunInv(max, next, maxHeight, steps);
    var s := Run(max, State(next, maxHeight, map[], [], []), steps).value;
    PlaceSplit(s.regions[i].off, s.regions[i].total, max);
  }

  /** Starting from any maximum, the tracked height is that one while no loop has ended, and from then on exactly
      the largest of the heights whose loop has ended and of the one it started from, if that was set. */
  lemma MaxHeightIsExact(max: u64, next: u64, start: u64, steps: seq<Step>)
    requires max > 0 && Run(max, State(next, start, map[], [], []), steps).Some?
    ensures var s := Run(max, State(next, start, map[], [], []), steps).value;
            var heights := s.raised + (if start == UNSET_HEIGHT then [] else [start]);
            if heights == [] then s.maxHeight == UNSET_HEIGHT
            else s.maxHeight in heights && forall h :: h in heights ==> h <= s.maxHeight
  {
    RunInv(max, next, start, steps);
  }

  /** Counters never go back: a longer run has a counter and, once set, a maximum at least as large. */
  lemma {:induction false} CountersNeverDecrease(max: u64, next: u64, maxHeight: u64, steps: seq<Step>, k: nat)
    requires max > 0 && k <= |steps| && Run(max, State(next, maxHeight, map[], [], []), steps).Some?
    ensures var init := State(next, maxHeight, map[], [], []);
            && Run(max, init, steps[..k]).Some?
            && var a, b := Run(max, init, steps[..k]).value, Run(max, init, steps).value;
            && a.next <= b.next
            && (a.maxHeight != UNSET_HEIGHT ==> b.maxHeight != UNSET_HEIGHT && a.maxHeight <= b.maxHeight)
    decreases |steps|
  {
    if k == |steps| {
      assert steps[..k] == steps;
    } else {
      var n := |steps| - 1;
      CountersNeverDecrease(max, next, maxHeight, steps[..n], k);
      assert steps[..n][..k] == steps[..k];
      RunInv(max, next, maxHeight, steps[..n]);
      var s := Run(max, State(next, maxHeight, map[], [], []), steps[..n]).value;
      SpaceStep(max, s, next, steps[n]);
      MaxStep(max, s, maxHeight, steps[n]);
    }
  }

  /** What one turn of the space loop does: a block that exceeds a file or the counter ends its put with that error, a
      counter that has moved sends the put back to load it again, and otherwise the least fit is reserved. */
  lemma SwapIs(max: u64, s: State, t: nat, total: u32, height: u64, cur: u64)
    requires total > 0 && t in s.threads && s.threads[t] == SawNext(total, height, cur)
    ensures DoSwapNext(max, s, t).Some?
    ensures var s' := DoSwapNext(max, s, t).value;
            var fails := total > max || Place(cur, total, max) + total > U64_MAX;
            && s'.threads == s.threads[t := s'.threads[t]]
            && (s'.regions != s.regions <==> !fails && s.next == cur)
            && if total > max then s'.threads[t] == Failed(BlockTooLarge)
               else if Place(cur, total, max) + total > U64_MAX then s'.threads[t] == Failed(Overflow)
               else if s.next != cur then s'.threads[t] == WantSpace(total, height)
               else && s'.threads[t] == HasSpace(|s.regions|, height)
                    && s'.regions == s.regions + [Region(t, Place(cur, total, max), total, cur)]
                    && s'.next == Place(cur, total, max) + total
  {
    hide AllocateBlockSpace;
    AllocateIsLeastFit(cur, total, max);
  }
}
