/** Which settings decide what is on the disk: the file size and the minimum height, which the header keeps.
    The checkpoint interval and the sync flag may change from one open to the next. */
module BlockSettings {
  import opened Bytes
  import opened BlockFormat
  import opened BlockIndex
  import opened DataFiles
  import opened BlockLog
  import opened Recovery
  import opened BlockStore

  ghost predicate SameLayout(p: Params, q: Params) {
    q == p.(checkpoint := q.checkpoint, sync := q.sync)
  }

  lemma LogSame(p: Params, q: Params, log: seq<Rec>)
    requires SameLayout(p, q) && q.checkpoint > 0 && GoodLog(p, log)
    ensures GoodLog(q, log) && Frames(p, log) == Frames(q, log)
    ensures EndOf(p, log) == EndOf(q, log) && FilesOf(p, log) == FilesOf(q, log)
  {
    assert forall i :: 0 <= i < |log| ==> GoodRec(p, log[i]);
    assert forall i :: 0 <= i < |log| ==> GoodRec(q, log[i]);
    assert Frames(p, log) == Frames(q, log);
  }

  lemma SlotSame(p: Params, q: Params, log: seq<Rec>, j: nat, h: u64)
    requires SameLayout(p, q) && GoodLog(p, log) && GoodLog(q, log) && j <= |log|
    ensures SlotAt(p, log, j, h) == SlotAt(q, log, j, h)
  {
    LogSame(p, q, log);
  }

  lemma SlotsSame(p: Params, q: Params, b: bytes, log: seq<Rec>, k: nat)
    requires SameLayout(p, q) && GoodLog(p, log) && GoodLog(q, log) && SlotsSince(p, b, log, k)
    ensures SlotsSince(q, b, log, k)
  {
    hide GoodLog, SlotAt;
    forall h: u64 | HasSlot(q.minHeight, h) ensures SlotSince(q, b, log, k, h) {
      assert SlotSince(p, b, log, k, h);
      var j :| k <= j <= |log| && ReadIndexEntry(b, p.minHeight, h) == SlotAt(p, log, j, h);
      SlotSame(p, q, log, j, h);
      assert k <= j <= |log| && ReadIndexEntry(b, q.minHeight, h) == SlotAt(q, log, j, h);
    }
  }

  lemma HeaderSame(p: Params, q: Params, log: seq<Rec>, k: nat)
    requires SameLayout(p, q) && GoodLog(p, log) && GoodLog(q, log) && k <= |log|
    ensures HeaderAt(p, log, k) == HeaderAt(q, log, k)
  {
    GoodPrefix(p, log, k);
    LogSame(p, q, log[..k]);
  }

  /** A disk that can be recovered under one setting can be under the other. */
  lemma RecoverableSame(p: Params, q: Params, d: Disk, log: seq<Rec>, k: nat)
    requires SameLayout(p, q) && q.checkpoint > 0 && Recoverable(p, d, log, k)
    ensures Recoverable(q, d, log, k)
  {
    hide GoodLog, SlotsSince, FilesOf, HeaderAt, EndOf;
    LogSame(p, q, log);
    SlotsSame(p, q, d.index.Visible(), log, k);
    HeaderSame(p, q, log, k);
  }

  // ----- opening under another configuration -----

  /** What an operator may change between two opens. */
  datatype Settings = Settings(minHeight: u64, maxFile: u64, checkpoint: u64, sync: bool, cacheSize: nat)

  /** The settings that pass validation. */
  type Config = c: Settings | c.maxFile > 0 && c.checkpoint > 0 witness Settings(0, 1, 1, true, 0)

  function With(p: Params, c: Config): Params {
    p.(minHeight := c.minHeight, maxFile := c.maxFile, checkpoint := c.checkpoint, sync := c.sync)
  }

  /** The header of a store that was written under p decides, whatever the new configuration says. */
  lemma HeaderDecides(p: Params, d: Disk, log: seq<Rec>, k: nat, c: Config)
    requires Recoverable(p, d, log, k)
    ensures SameLayout(p, Configured(With(p, c), d))
    ensures Configured(With(p, c), d).checkpoint == c.checkpoint && Configured(With(p, c), d).sync == c.sync
  {
    hide SlotsSince, FilesOf, GoodLog;
    assert d.index.Visible() != [];
  }

  /** Reopening under any configuration restores the history. */
  lemma ReopenUnderAny(p: Params, d: Disk, log: seq<Rec>, k: nat, c: Config)
    requires Recoverable(p, d, log, k)
    ensures var q := Configured(With(p, c), d);
            && q.maxFile > 0 && GoodLog(q, log)
            && var (r, d') := Open(q, d);
               && r == Ok(Live(EndOf(p, log), MaxOf(log)))
               && Recoverable(q, d', log, |log|) && Holds(q, Store(d', r.value), log, |log|)
  {
    hide SlotsSince, FilesOf, Configured, Open, EndOf;
    var q := Configured(With(p, c), d);
    HeaderDecides(p, d, log, k, c);
    RecoverableSame(p, q, d, log, k);
    LogSame(p, q, log);
    OpenGood(q, d, log, k);
  }
}
