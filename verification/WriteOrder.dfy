/** Coalescing neither reorders nor drops writes: the card receives, sector by sector,
    exactly the stream of lwext4's writes, and what is missing at its end is pending. */
module WriteOrder {
  import opened Sectors
  import opened SdCard
  import opened BlockDevice
  import opened Runs
  import opened FlatDisk
  import opened CardHistory

  /** One sector written. */
  datatype Entry = Entry(sector: nat, data: Sector)

  ghost function Entries(at: nat, data: seq<Sector>): (r: seq<Entry>)
    ensures |r| == |data| && forall i :: 0 <= i < |r| ==> r[i] == Entry(at + i, data[i])
  {
    seq(|data|, i requires 0 <= i < |data| => Entry(at + i, data[i]))
  }

  /** The stream lwext4 asked for. */
  ghost function Requested(calls: seq<Call>): seq<Entry> {
    if calls == [] then []
    else Requested(calls[..|calls| - 1]) + RequestedBy(calls[|calls| - 1])
  }

  ghost function RequestedBy(call: Call): seq<Entry> {
    if call.Bwrite? then Entries(call.blk, call.data) else []
  }

  /** The stream the card was sent. */
  ghost function Sent(log: seq<Transaction>): seq<Entry> {
    if log == [] then []
    else Sent(log[..|log| - 1]) + SentBy(log[|log| - 1])
  }

  ghost function SentBy(tx: Transaction): seq<Entry> {
    if tx.WriteTx? then Entries(tx.lba, tx.data) else []
  }

  ghost function Replay(disk: seq<Sector>, entries: seq<Entry>): (r: seq<Sector>)
    ensures |r| == |disk|
  {
    if entries == [] then disk
    else
      var before, last := Replay(disk, entries[..|entries| - 1]), entries[|entries| - 1];
      if last.sector < |disk| then before[last.sector := last.data] else before
  }

  lemma {:induction false} ReplayAppend(disk: seq<Sector>, a: seq<Entry>, b: seq<Entry>)
    ensures Replay(disk, a + b) == Replay(Replay(disk, a), b)
  {
    if b == [] {
      assert a + b == a;
    } else {
      ReplayAppend(disk, a, b[..|b| - 1]);
      assert (a + b)[..|a + b| - 1] == a + b[..|b| - 1];
    }
  }

  /** A multi-sector write is its sectors written one by one in ascending order. */
  lemma {:induction false} ReplayEntries(disk: seq<Sector>, at: nat, data: seq<Sector>)
    requires at + |data| <= |disk|
    ensures Replay(disk, Entries(at, data)) == Overlay(disk, at, data)
  {
    if data == [] {
      assert Overlay(disk, at, data) == disk;
    } else {
      var n := |data| - 1;
      ReplayEntries(disk, at, data[..n]);
      assert Entries(at, data)[..n] == Entries(at, data[..n]);
    }
  }

  lemma {:induction false} SentAppend(a: seq<Transaction>, b: seq<Transaction>)
    ensures Sent(a + b) == Sent(a) + Sent(b)
  {
    hide SentBy;
    if b == [] {
      assert a + b == a;
    } else {
      SentAppend(a, b[..|b| - 1]);
      assert (a + b)[..|a + b| - 1] == a + b[..|b| - 1];
    }
  }

  lemma {:induction false} ReadsSendNothing(log: seq<Transaction>, from: nat)
    requires from <= |log| && forall i :: from <= i < |log| ==> log[i].ReadTx?
    ensures Sent(log) == Sent(log[..from])
  {
    if from == |log| {
      assert log[..from] == log;
    } else {
      ReadsSendNothing(log[..|log| - 1], from);
      assert log[..|log| - 1][..from] == log[..from];
    }
  }

  /** Everything asked of the driver and not lost: sent or pending. */
  ghost function Handed(d: Driver): seq<Entry> {
    Sent(d.card.log) + Entries(d.sec, d.pending)
  }

  lemma EntriesAppend(at: nat, a: seq<Sector>, b: seq<Sector>)
    ensures Entries(at, a + b) == Entries(at, a) + Entries(at + |a|, b)
  {
  }

  lemma FlushHands(fates: Fates, d: Driver)
    requires d.sec + |d.pending| <= |d.card.sectors|
    ensures Handed(Flush(fates, d).driver) == Handed(d)
    ensures Flush(fates, d).driver.pending == []
  {
    if |d.pending| > 0 {
      var r := Flush(fates, d);
      SentAppend(d.card.log, [WriteTx(d.sec, d.pending, r.rc == EOK)]);
      SentOne(WriteTx(d.sec, d.pending, r.rc == EOK));
      assert Entries(r.driver.sec, []) == [];
    }
  }

  lemma SentOne(tx: Transaction)
    ensures Sent([tx]) == SentBy(tx)
  {
    assert [tx][..0] == [] && Sent([]) == [];
  }

  lemma ReadHands(fates: Fates, d: Driver, buf: seq<Sector>, blk: nat, n: nat, dmaCapable: bool)
    requires DriverOk(d) && n <= |buf| && blk + n <= |d.card.sectors|
    ensures Handed(Read(fates, d, buf, blk, n, dmaCapable).driver) == Handed(d)
  {
    hide ReadClear;
    var first := if Overlaps(d, blk, n) then Flush(fates, d) else Reply(d, EOK, []);
    FlushHands(fates, d);
    if first.rc == EOK {
      ReadClearHands(fates, first.driver, buf, blk, n, dmaCapable);
    }
  }

  lemma ReadClearHands(fates: Fates, d: Driver, buf: seq<Sector>, blk: nat, n: nat, dmaCapable: bool)
    requires d.sec + |d.pending| <= |d.card.sectors| && n <= |buf| && blk + n <= |d.card.sectors|
    ensures Handed(ReadClear(fates, d, buf, blk, n, dmaCapable).driver) == Handed(d)
  {
    hide Sent, ReadSingly;
    var r := ReadClear(fates, d, buf, blk, n, dmaCapable);
    if !dmaCapable && d.hasWbuf && n * SECTOR_SIZE <= WBUF_BYTES {
      FlushHands(fates, d);
      var flushed := Flush(fates, d);
      if flushed.rc == EOK {
        OnlyReads(flushed.driver.card.log, r.driver.card.log);
      }
    } else {
      ReadSinglyAppends(fates, d.card, buf, blk, 0, n);
      OnlyReads(d.card.log, r.driver.card.log);
    }
  }

  lemma OnlyReads(log: seq<Transaction>, log': seq<Transaction>)
    requires log <= log' && forall i :: |log| <= i < |log'| ==> log'[i].ReadTx?
    ensures Sent(log') == Sent(log)
  {
    ReadsSendNothing(log', |log|);
    assert log'[..|log|] == log;
  }

  lemma NoEntries(at: nat)
    ensures Entries(at, []) == []
  {
  }

  lemma WriteThroughHands(fates: Fates, d: Driver, blk: nat, data: seq<Sector>)
    requires blk + |data| <= |d.card.sectors| && d.pending == []
    ensures Handed(WriteThrough(fates, d, blk, data).driver) == Handed(d) + Entries(blk, data)
  {
    hide Sent, Overlay, Entries;
    var r := WriteThrough(fates, d, blk, data);
    NoEntries(d.sec);
    SentAppend(d.card.log, [WriteTx(blk, data, r.rc == EOK)]);
    SentOne(WriteTx(blk, data, r.rc == EOK));
  }

  /** A write is handed on unless the flush before it failed, and then not at all. */
  lemma WriteHands(fates: Fates, d: Driver, blk: nat, data: seq<Sector>)
    requires DriverOk(d) && d.registered && blk + |data| <= |d.card.sectors|
    ensures var r := Write(fates, d, blk, data);
            var refused := d.hasWbuf && !Extends(d, blk, |data|) && Flush(fates, d).rc != EOK;
            && Handed(r.driver) == Handed(d) + (if refused then [] else Entries(blk, data))
            && (refused ==> r.rc == EIO && r.driver == Flush(fates, d).driver)
  {
    hide Sent, Entries;
    EntriesAppend(d.sec, d.pending, data);
    if !d.hasWbuf {
      WriteThroughHands(fates, d, blk, data);
    } else if Extends(d, blk, |data|) {
      var grown := d.(pending := d.pending + data);
      FlushHands(fates, grown);
      assert Handed(grown) == Handed(d) + Entries(blk, data);
    } else {
      FlushHands(fates, d);
      var first := Flush(fates, d);
      if first.rc == EOK {
        WriteThroughHands(fates, first.driver, blk, data);
        assert Handed(first.driver) == Sent(first.driver.card.log);
      }
    }
  }

  /** Without a failed write the card holds exactly what it was sent. */
  lemma {:induction false} CleanEffect(fates: Fates, disk: seq<Sector>, log: seq<Transaction>)
    requires Clean(log) && forall t :: 0 <= t < |log| ==> IsRecorded(fates, |disk|, t, log[t])
    ensures LogEffect(fates, disk, log) == Replay(disk, Sent(log))
  {
    hide Overlay;
    if log != [] {
      var front, last := log[..|log| - 1], log[|log| - 1];
      CleanEffect(fates, disk, front);
      ReplayAppend(disk, Sent(front), SentBy(last));
      if last.WriteTx? {
        assert IsRecorded(fates, |disk|, |log| - 1, last);
        ReplayEntries(Replay(disk, Sent(front)), last.lba, last.data);
      } else {
        assert Sent(front) + SentBy(last) == Sent(front);
      }
    }
  }

  /** A call hands on what it requests, or, refused, nothing. */
  lemma StepHands(fates: Fates, d: Driver, call: Call)
    requires DriverOk(d) && Legal(d, call)
    ensures var r := Step(fates, d, call);
            && (Handed(r.driver) == Handed(d) + RequestedBy(call) || (r.rc == EIO && Handed(r.driver) == Handed(d)))
            && (CleanFrom(r.driver.card.log, |d.card.log|) ==> Handed(r.driver) == Handed(d) + RequestedBy(call))
  {
    hide Read, Write, Handed;
    match call
    case Bread(buf, blk, count, dmaCapable) => ReadHands(fates, d, buf, blk, count, dmaCapable);
    case Bwrite(blk, data) =>
      WriteHands(fates, d, blk, data);
      WriteUpdatesLogical(fates, d, blk, data);
      assert Handed(d) + [] == Handed(d);
    case BdevClose => FlushHands(fates, d);
    case BlockdevInit(_, _, _, _) => InitHands(d, call);
    case BlockdevDeinit =>
      FlushHands(fates, d);
      SameHands(Flush(fates, d).driver, Deinit(fates, d).driver);
  }

  lemma SameHands(d: Driver, d': Driver)
    requires d.card == d'.card && d.pending == d'.pending && (d.sec == d'.sec || d.pending == [])
    ensures Handed(d) == Handed(d')
  {
    assert d.pending == [] ==> Entries(d.sec, d.pending) == [] == Entries(d'.sec, d'.pending);
  }

  lemma InitHands(d: Driver, call: Call)
    requires DriverOk(d) && call.BlockdevInit? && Legal(d, call)
    ensures Handed(Init(d, call.cardNull, call.dmaAlloc, call.wbufAlloc, call.regOk).driver) == Handed(d)
  {
    SameHands(d, Init(d, call.cardNull, call.dmaAlloc, call.wbufAlloc, call.regOk).driver);
  }

  lemma RequestedStep(calls: seq<Call>, i: nat)
    requires 0 < i <= |calls|
    ensures Requested(calls[..i]) == Requested(calls[..i - 1]) + RequestedBy(calls[i - 1])
  {
    assert calls[..i][..i - 1] == calls[..i - 1];
  }

  lemma {:induction false} HandedIsRequested(fates: Fates, disk: seq<Sector>, calls: seq<Call>, trace: seq<Reply>,
                                             i: nat)
    requires IsRun(fates, PowerUp(disk), calls, trace) && i <= |calls|
    requires Clean(Before(PowerUp(disk), trace, i).card.log)
    ensures Handed(Before(PowerUp(disk), trace, i)) == Requested(calls[..i])
  {
    hide Step, Legal, IsStep, CleanFrom, DriverOk;
    if i == 0 {
      assert Entries(0, []) == [];
    } else {
      hide Handed, Requested, RequestedBy;
      var d := Before(PowerUp(disk), trace, i - 1);
      RunStep(fates, PowerUp(disk), calls, trace, i - 1);
      LogGrows(fates, d, calls[i - 1]);
      HandedIsRequested(fates, disk, calls, trace, i - 1);
      StepHands(fates, d, calls[i - 1]);
      RequestedStep(calls, i);
    }
  }

  /** Conservation: at every point of a run without failed card writes, the stream sent to
      the card followed by the buffer's slots is exactly the stream lwext4 asked for, and the
      card holds the effect of what it was sent. */
  lemma StreamConserved(fates: Fates, disk: seq<Sector>, calls: seq<Call>, trace: seq<Reply>, i: nat)
    requires IsRun(fates, PowerUp(disk), calls, trace) && i <= |calls|
    requires Clean(Before(PowerUp(disk), trace, i).card.log)
    ensures var d := Before(PowerUp(disk), trace, i);
            && Sent(d.card.log) + Entries(d.sec, d.pending) == Requested(calls[..i])
            && d.card.sectors == Replay(disk, Sent(d.card.log))
  {
    hide IsStep, Sent, Requested, Replay, CleanFrom, DriverOk, LogEffect, IsRecorded;
    HandedIsRequested(fates, disk, calls, trace, i);
    RunRecorded(fates, disk, calls, trace, i);
    CleanEffect(fates, disk, Before(PowerUp(disk), trace, i).card.log);
  }

  /** Prefix consistency: at every point of such a run the card is the initial card with a
      prefix of the requested stream applied, and slot k of the buffer is the k-th entry
      after that prefix, at sector `sec` + k. */
  lemma PrefixConsistency(fates: Fates, disk: seq<Sector>, calls: seq<Call>, trace: seq<Reply>, i: nat)
    requires IsRun(fates, PowerUp(disk), calls, trace) && i <= |calls|
    requires Clean(Before(PowerUp(disk), trace, i).card.log)
    ensures var d, wanted := Before(PowerUp(disk), trace, i), Requested(calls[..i]);
            && |d.pending| <= |wanted|
            && d.card.sectors == Replay(disk, wanted[..|wanted| - |d.pending|])
            && forall k :: 0 <= k < |d.pending| ==>
                 wanted[|wanted| - |d.pending| + k] == Entry(d.sec + k, d.pending[k])
  {
    hide IsStep, Replay, Sent, Requested, CleanFrom, DriverOk;
    StreamConserved(fates, disk, calls, trace, i);
    var d, wanted := Before(PowerUp(disk), trace, i), Requested(calls[..i]);
    assert wanted[..|wanted| - |d.pending|] == Sent(d.card.log);
  }

  /** The fate of a write that power loss cuts after j sectors: those hold the new data, the
      others what was there. */
  ghost predicate CutsAfter(fate: Fate, tx: Transaction, j: nat, was: seq<Sector>) {
    && tx.WriteTx? && j <= |tx.data| && fate.Fails?
    && forall s {:trigger fate.junk(s)} :: tx.lba <= s < tx.lba + |tx.data| && s < |was| ==>
         fate.junk(s) == if s < tx.lba + j then tx.data[s - tx.lba] else was[s]
  }

  lemma CutLandsPrefix(fates: Fates, t: nat, tx: Transaction, j: nat, was: seq<Sector>)
    requires CutsAfter(fates(t), tx, j, was) && tx.lba + |tx.data| <= |was|
    ensures Overlay(was, tx.lba, LandedBy(fates, t, tx)) == Overlay(was, tx.lba, tx.data[..j])
  {
    hide Overlay, Junk;
    var a, b := Overlay(was, tx.lba, LandedBy(fates, t, tx)), Overlay(was, tx.lba, tx.data[..j]);
    forall s | 0 <= s < |was| ensures a[s] == b[s] {
      if tx.lba <= s < tx.lba + |tx.data| {
        JunkAt(fates(t), tx.lba, |tx.data|, s - tx.lba);
      }
    }
  }

  /** Call i - 1 of the run loses power: its last transaction is a write cut after j sectors,
      and every write before it succeeded. */
  ghost predicate LosesPower(fates: Fates, disk: seq<Sector>, d: Driver, d': Driver, j: nat) {
    var n := |d'.card.log|;
    && |d.card.log| < n && Clean(d'.card.log[..n - 1])
    && CutsAfter(fates(n - 1), d'.card.log[n - 1], j, LogEffect(fates, disk, d'.card.log[..n - 1]))
  }

  lemma CutIsPrefix(fates: Fates, disk: seq<Sector>, t: nat, tx: Transaction, j: nat, entries: seq<Entry>)
    requires tx.WriteTx? && tx.lba + |tx.data| <= |disk| && j <= |tx.data|
    requires CutsAfter(fates(t), tx, j, Replay(disk, entries))
    ensures Overlay(Replay(disk, entries), tx.lba, LandedBy(fates, t, tx))
            == Replay(disk, entries + Entries(tx.lba, tx.data)[..j])
  {
    hide Overlay, Replay, CutsAfter;
    var was := Replay(disk, entries);
    CutLandsPrefix(fates, t, tx, j, was);
    assert Entries(tx.lba, tx.data)[..j] == Entries(tx.lba, tx.data[..j]);
    ReplayEntries(was, tx.lba, tx.data[..j]);
    ReplayAppend(disk, entries, Entries(tx.lba, tx.data[..j]));
  }

  /** What the last call of a run sends, up to its last transaction, is still in step with
      what was requested. */
  lemma SentIsRequested(fates: Fates, disk: seq<Sector>, calls: seq<Call>, trace: seq<Reply>, i: nat)
    requires IsRun(fates, PowerUp(disk), calls, trace) && 0 < i <= |calls|
    requires Clean(Before(PowerUp(disk), trace, i - 1).card.log)
    ensures Sent(Before(PowerUp(disk), trace, i).card.log) <= Requested(calls[..i])
  {
    hide Step, Legal, IsStep, CleanFrom, DriverOk, Sent, Requested, RequestedBy;
    var d := Before(PowerUp(disk), trace, i - 1);
    RunStep(fates, PowerUp(disk), calls, trace, i - 1);
    HandedIsRequested(fates, disk, calls, trace, i - 1);
    StepHands(fates, d, calls[i - 1]);
    RequestedStep(calls, i);
  }

  lemma CleanBefore(log: seq<Transaction>, front: seq<Transaction>)
    requires log <= front && Clean(front)
    ensures Clean(log)
  {
  }

  /** The same for one card whose last transaction is cut. */
  lemma CutCardHoldsPrefix(fates: Fates, disk: seq<Sector>, card: Card, wanted: seq<Entry>, j: nat)
    requires Recorded(fates, disk, card) && card.log != [] && Sent(card.log) <= wanted
    requires Clean(card.log[..|card.log| - 1])
    requires CutsAfter(fates(|card.log| - 1), card.log[|card.log| - 1], j,
                       LogEffect(fates, disk, card.log[..|card.log| - 1]))
    ensures var m := |Sent(card.log[..|card.log| - 1])| + j;
            m <= |wanted| && card.sectors == Replay(disk, wanted[..m])
  {
    hide Replay, Clean, Sent, LogEffect, Overlay, Entries, CutsAfter, IsRecorded, LandedBy, Recorded;
    var n := |card.log|;
    var front, tx := card.log[..n - 1], card.log[n - 1];
    CutIsWrite(fates(n - 1), tx, j, LogEffect(fates, disk, front));
    LastRecorded(fates, disk, card);
    LastSent(card.log);
    CleanEffect(fates, disk, front);
    CutIsPrefix(fates, disk, n - 1, tx, j, Sent(front));
    CutPrefix(Sent(front), Entries(tx.lba, tx.data), wanted, j);
  }

  /** Power loss in the middle of any transaction leaves the card of the driver with a prefix
      of the requested stream: what was sent before, and the first j sectors. */
  lemma PowerLossLeavesPrefix(fates: Fates, disk: seq<Sector>, calls: seq<Call>, trace: seq<Reply>, i: nat, j: nat)
    requires IsRun(fates, PowerUp(disk), calls, trace) && 0 < i <= |calls|
    requires LosesPower(fates, disk, Before(PowerUp(disk), trace, i - 1), Before(PowerUp(disk), trace, i), j)
    ensures var d, wanted := Before(PowerUp(disk), trace, i), Requested(calls[..i]);
            var m := |Sent(d.card.log[..|d.card.log| - 1])| + j;
            m <= |wanted| && d.card.sectors == Replay(disk, wanted[..m])
  {
    hide Step, Legal, IsStep, DriverOk, Replay, Requested, Clean, CleanFrom, Sent, LogEffect, Recorded, CutsAfter;
    var d, d' := Before(PowerUp(disk), trace, i - 1), Before(PowerUp(disk), trace, i);
    RunStep(fates, PowerUp(disk), calls, trace, i - 1);
    LogGrows(fates, d, calls[i - 1]);
    CleanBefore(d.card.log, d'.card.log[..|d'.card.log| - 1]);
    SentIsRequested(fates, disk, calls, trace, i);
    RunRecorded(fates, disk, calls, trace, i);
    CutCardHoldsPrefix(fates, disk, d'.card, Requested(calls[..i]), j);
  }

  lemma CutIsWrite(fate: Fate, tx: Transaction, j: nat, was: seq<Sector>)
    requires CutsAfter(fate, tx, j, was)
    ensures tx.WriteTx? && j <= |tx.data|
  {
  }

  /** What a truthful log says of its last write. */
  lemma LastRecorded(fates: Fates, disk: seq<Sector>, card: Card)
    requires Recorded(fates, disk, card) && card.log != [] && card.log[|card.log| - 1].WriteTx?
    ensures var front, tx := card.log[..|card.log| - 1], card.log[|card.log| - 1];
            && tx.lba + |tx.data| <= |disk|
            && card.sectors == Overlay(LogEffect(fates, disk, front), tx.lba, LandedBy(fates, |card.log| - 1, tx))
            && forall t :: 0 <= t < |front| ==> IsRecorded(fates, |disk|, t, front[t])
  {
    hide Overlay;
    var tx := card.log[|card.log| - 1];
    assert IsRecorded(fates, |disk|, |card.log| - 1, tx);
    LastEffect(fates, disk, card.log);
  }

  lemma LastSent(log: seq<Transaction>)
    requires log != []
    ensures Sent(log) == Sent(log[..|log| - 1]) + SentBy(log[|log| - 1])
  {
  }

  lemma LastEffect(fates: Fates, disk: seq<Sector>, log: seq<Transaction>)
    requires log != [] && log[|log| - 1].WriteTx?
    requires log[|log| - 1].lba + |log[|log| - 1].data| <= |disk|
    ensures LogEffect(fates, disk, log)
            == Overlay(LogEffect(fates, disk, log[..|log| - 1]), log[|log| - 1].lba,
                       LandedBy(fates, |log| - 1, log[|log| - 1]))
  {
    hide Overlay;
  }

  lemma CutPrefix<T>(sent: seq<T>, last: seq<T>, wanted: seq<T>, j: nat)
    requires sent + last <= wanted && j <= |last|
    ensures |sent| + j <= |wanted| && wanted[..|sent| + j] == sent + last[..j]
  {
  }
}
