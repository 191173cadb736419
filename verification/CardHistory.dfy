/** The card's contents are the effect of the transactions in its log, failed ones included. */
module CardHistory {
  import opened Sectors
  import opened SdCard
  import opened BlockDevice
  import opened Runs

  /** What transaction number t left in its target range. */
  ghost function LandedBy(fates: Fates, t: nat, tx: Transaction): (r: seq<Sector>)
    requires tx.WriteTx?
    ensures |r| == |tx.data|
  {
    if fates(t).Completes? then tx.data else Junk(fates(t), tx.lba, |tx.data|)
  }

  ghost function LogEffect(fates: Fates, disk: seq<Sector>, log: seq<Transaction>): (r: seq<Sector>)
    ensures |r| == |disk|
  {
    if log == [] then disk
    else
      var before, last := LogEffect(fates, disk, log[..|log| - 1]), log[|log| - 1];
      if last.WriteTx? && last.lba + |last.data| <= |disk|
      then Overlay(before, last.lba, LandedBy(fates, |log| - 1, last)) else before
  }

  ghost predicate IsRecorded(fates: Fates, capacity: nat, t: nat, tx: Transaction) {
    tx.WriteTx? ==> tx.lba + |tx.data| <= capacity && tx.ok == fates(t).Completes?
  }

  /** The log tells the truth about the card. */
  ghost predicate Recorded(fates: Fates, disk: seq<Sector>, card: Card) {
    && |card.sectors| == |disk|
    && card.sectors == LogEffect(fates, disk, card.log)
    && forall t :: 0 <= t < |card.log| ==> IsRecorded(fates, |disk|, t, card.log[t])
  }

  lemma WriteRecorded(fates: Fates, disk: seq<Sector>, card: Card, lba: nat, data: seq<Sector>)
    requires lba + |data| <= |card.sectors| && Recorded(fates, disk, card)
    ensures Recorded(fates, disk, CardWrite(fates, card, lba, data).card)
  {
    hide Overlay;
    var after := CardWrite(fates, card, lba, data).card;
    assert after.log[..|after.log| - 1] == card.log;
  }

  lemma {:induction false} ReadsRecorded(fates: Fates, disk: seq<Sector>, card: Card, log: seq<Transaction>)
    requires Recorded(fates, disk, card) && card.log <= log
    requires forall k :: |card.log| <= k < |log| ==> log[k].ReadTx?
    ensures Recorded(fates, disk, Card(card.sectors, log))
  {
    hide Overlay;
    if |log| == |card.log| {
      assert log == card.log;
    } else {
      ReadsRecorded(fates, disk, card, log[..|log| - 1]);
    }
  }

  lemma FlushRecorded(fates: Fates, disk: seq<Sector>, d: Driver)
    requires d.sec + |d.pending| <= |d.card.sectors| && Recorded(fates, disk, d.card)
    ensures Recorded(fates, disk, Flush(fates, d).driver.card)
  {
    hide Recorded, CardWrite;
    if |d.pending| > 0 {
      WriteRecorded(fates, disk, d.card, d.sec, d.pending);
    }
  }

  lemma ReadClearRecorded(fates: Fates, disk: seq<Sector>, d: Driver, buf: seq<Sector>, blk: nat, n: nat,
                          dmaCapable: bool)
    requires d.sec + |d.pending| <= |d.card.sectors| && n <= |buf| && blk + n <= |d.card.sectors|
    requires Recorded(fates, disk, d.card)
    ensures Recorded(fates, disk, ReadClear(fates, d, buf, blk, n, dmaCapable).driver.card)
  {
    hide Recorded, Overlay, ReadSingly;
    var after := ReadClear(fates, d, buf, blk, n, dmaCapable).driver.card;
    FlushRecorded(fates, disk, d);
    var flushed := Flush(fates, d).driver.card;
    if !dmaCapable && d.hasWbuf && n * SECTOR_SIZE <= WBUF_BYTES {
      if Flush(fates, d).rc == EOK {
        ReadsRecorded(fates, disk, flushed, after.log);
      }
    } else {
      ReadSinglyAppends(fates, d.card, buf, blk, 0, n);
      ReadsRecorded(fates, disk, d.card, after.log);
    }
  }

  lemma WriteCallRecorded(fates: Fates, disk: seq<Sector>, d: Driver, blk: nat, data: seq<Sector>)
    requires DriverOk(d) && blk + |data| <= |d.card.sectors| && Recorded(fates, disk, d.card)
    requires d.registered
    ensures Recorded(fates, disk, Write(fates, d, blk, data).driver.card)
  {
    hide Recorded, CardWrite;
    if !d.hasWbuf {
      WriteRecorded(fates, disk, d.card, blk, data);
    } else if Extends(d, blk, |data|) {
      FlushRecorded(fates, disk, d.(pending := d.pending + data));
    } else {
      FlushRecorded(fates, disk, d);
      if Flush(fates, d).rc == EOK {
        WriteRecorded(fates, disk, Flush(fates, d).driver.card, blk, data);
      }
    }
  }

  lemma StepRecorded(fates: Fates, disk: seq<Sector>, d: Driver, call: Call)
    requires DriverOk(d) && Legal(d, call) && Recorded(fates, disk, d.card)
    ensures Recorded(fates, disk, Step(fates, d, call).driver.card)
  {
    hide Recorded, ReadClear, Write, CardWrite;
    FlushRecorded(fates, disk, d);
    match call
    case Bread(buf, blk, count, dmaCapable) =>
      var first := if Overlaps(d, blk, count) then Flush(fates, d) else Reply(d, EOK, []);
      if first.rc == EOK {
        ReadClearRecorded(fates, disk, first.driver, buf, blk, count, dmaCapable);
      }
    case Bwrite(blk, data) => WriteCallRecorded(fates, disk, d, blk, data);
    case _ =>
  }

  /** At every point of every run, whatever fails, the card is the effect of its log. */
  lemma {:induction false} RunRecorded(fates: Fates, disk: seq<Sector>, calls: seq<Call>, trace: seq<Reply>, i: nat)
    requires IsRun(fates, PowerUp(disk), calls, trace) && i <= |calls|
    ensures Recorded(fates, disk, Before(PowerUp(disk), trace, i).card)
  {
    hide Step, Legal, IsStep, DriverOk;
    if i > 0 {
      hide Recorded;
      RunRecorded(fates, disk, calls, trace, i - 1);
      RunStep(fates, PowerUp(disk), calls, trace, i - 1);
      StepRecorded(fates, disk, Before(PowerUp(disk), trace, i - 1), calls[i - 1]);
    }
  }
}
