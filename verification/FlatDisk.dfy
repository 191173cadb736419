/** The block device refines a flat array of sectors: coalescing, flushing and bouncing are
    invisible to lwext4, and the driver without a coalescing buffer answers the same. */
module FlatDisk {
  import opened Sectors
  import opened SdCard
  import opened BlockDevice
  import opened Runs

  /** A flush puts the pending sectors on the card unless its transaction fails, and says so. */
  lemma FlushKeepsLogical(fates: Fates, d: Driver)
    requires d.sec + |d.pending| <= |d.card.sectors|
    ensures var r := Flush(fates, d);
            && (r.rc == EOK <==> CleanFrom(r.driver.card.log, |d.card.log|))
            && (r.rc == EOK ==> r.driver.card.sectors == Logical(d) == Logical(r.driver) && r.driver.pending == [])
  {
    var r := Flush(fates, d);
    if |d.pending| > 0 {
      assert r.driver.card.log[|d.card.log|] == WriteTx(d.sec, d.pending, r.rc == EOK);
    }
  }

  /** The card already holds the logical contents wherever nothing is pending. */
  lemma CardServesRange(d: Driver, blk: nat, n: nat)
    requires d.sec + |d.pending| <= |d.card.sectors| && blk + n <= |d.card.sectors|
    requires !Overlaps(d, blk, n)
    ensures d.card.sectors[blk..blk + n] == Logical(d)[blk..blk + n]
  {
    var a, b := d.card.sectors[blk..blk + n], Logical(d)[blk..blk + n];
    forall k | 0 <= k < n ensures a[k] == b[k] {
    }
  }

  /** What both halves of a read promise. */
  ghost predicate Serves(d: Driver, r: Reply, buf: seq<Sector>, blk: nat, n: nat)
    requires d.sec + |d.pending| <= |d.card.sectors| && n <= |buf| && blk + n <= |d.card.sectors|
  {
    && r.rc in {EOK, EIO}
    && |r.buf| == |buf| && r.buf[n..] == buf[n..]
    && r.driver.sec + |r.driver.pending| <= |r.driver.card.sectors|
    && (r.rc == EOK ==>
          r.buf == Overlay(buf, 0, Logical(d)[blk..blk + n]) && CleanFrom(r.driver.card.log, |d.card.log|))
    && (CleanFrom(r.driver.card.log, |d.card.log|) ==> Logical(r.driver) == Logical(d))
  }

  lemma ReadClearServes(fates: Fates, d: Driver, buf: seq<Sector>, blk: nat, n: nat, dmaCapable: bool)
    requires d.sec + |d.pending| <= |d.card.sectors| && n <= |buf| && blk + n <= |d.card.sectors|
    requires !Overlaps(d, blk, n)
    ensures Serves(d, ReadClear(fates, d, buf, blk, n, dmaCapable), buf, blk, n)
  {
    hide ReadSingly;
    CardServesRange(d, blk, n);
    if !dmaCapable && d.hasWbuf && n * SECTOR_SIZE <= WBUF_BYTES {
      FlushKeepsLogical(fates, d);
    } else if !dmaCapable {
      ReadSinglyAppends(fates, d.card, buf, blk, 0, n);
    }
  }

  /** A read that returns EOK returns, for every sector, what the logical disk holds there,
      whatever the DMA answer and whatever was pending; no read changes the logical disk
      unless a card write fails in it. */
  lemma ReadServesLogical(fates: Fates, d: Driver, buf: seq<Sector>, blk: nat, n: nat, dmaCapable: bool)
    requires DriverOk(d) && n <= |buf| && blk + n <= |d.card.sectors|
    ensures Serves(d, Read(fates, d, buf, blk, n, dmaCapable), buf, blk, n)
  {
    hide ReadClear;
    var first := if Overlaps(d, blk, n) then Flush(fates, d) else Reply(d, EOK, []);
    FlushKeepsLogical(fates, d);
    if first.rc == EOK {
      ReadClearServes(fates, first.driver, buf, blk, n, dmaCapable);
      ReadClearAppends(fates, first.driver, buf, blk, n, dmaCapable);
    }
  }

  /** What a write promises: unless one of its card transactions fails it returns EOK and
      the logical disk has the new data, however much of it is still pending. */
  lemma WriteUpdatesLogical(fates: Fates, d: Driver, blk: nat, data: seq<Sector>)
    requires DriverOk(d) && d.registered && blk + |data| <= |d.card.sectors|
    ensures var r := Write(fates, d, blk, data);
            && r.driver.sec + |r.driver.pending| <= |r.driver.card.sectors|
            && r.rc in {EOK, EIO}
            && (r.rc == EOK <==> CleanFrom(r.driver.card.log, |d.card.log|))
            && (r.rc == EOK ==> Logical(r.driver) == Overlay(Logical(d), blk, data))
  {
    if !d.hasWbuf {
      WriteThroughLogs(fates, d, blk, data);
    } else if Extends(d, blk, |data|) {
      OverlayAppend(d.card.sectors, d.sec, d.pending, data);
      FlushKeepsLogical(fates, d.(pending := d.pending + data));
    } else {
      FlushKeepsLogical(fates, d);
      WriteThroughLogs(fates, Flush(fates, d).driver, blk, data);
    }
  }

  lemma WriteThroughLogs(fates: Fates, d: Driver, blk: nat, data: seq<Sector>)
    requires blk + |data| <= |d.card.sectors|
    ensures var r := WriteThrough(fates, d, blk, data);
            && r.driver.card.log[..|d.card.log|] == d.card.log
            && r.driver.card.log[|d.card.log|] == WriteTx(blk, data, r.rc == EOK)
            && |r.driver.card.log| == |d.card.log| + 1
            && (r.rc == EOK <==> CleanFrom(r.driver.card.log, |d.card.log|))
  {
    var r := WriteThrough(fates, d, blk, data);
    assert r.driver.card.log[|d.card.log|] == WriteTx(blk, data, r.rc == EOK);
  }

  /** The flat reference: the disk after the writes among `calls`, applied in order. */
  ghost function ApplyWrites(disk: seq<Sector>, calls: seq<Call>): (r: seq<Sector>)
    ensures |r| == |disk|
  {
    if calls == [] then disk
    else ApplyWrite(ApplyWrites(disk, calls[..|calls| - 1]), calls[|calls| - 1])
  }

  ghost function ApplyWrite(disk: seq<Sector>, call: Call): (r: seq<Sector>)
    ensures |r| == |disk|
  {
    if call.Bwrite? && call.blk + |call.data| <= |disk| then Overlay(disk, call.blk, call.data) else disk
  }

  lemma StepRefinesFlat(fates: Fates, d: Driver, call: Call)
    requires DriverOk(d) && Legal(d, call)
    requires CleanFrom(Step(fates, d, call).driver.card.log, |d.card.log|)
    ensures DriverOk(Step(fates, d, call).driver)
    ensures Logical(Step(fates, d, call).driver) == ApplyWrite(Logical(d), call)
    ensures call.Bwrite? || call.BdevClose? || call.BlockdevDeinit? ==> Step(fates, d, call).rc == EOK
  {
    hide Read, Write;
    StepKeepsOk(fates, d, call);
    match call
    case Bread(buf, blk, count, dmaCapable) => ReadServesLogical(fates, d, buf, blk, count, dmaCapable);
    case Bwrite(blk, data) => WriteUpdatesLogical(fates, d, blk, data);
    case BdevClose => FlushKeepsLogical(fates, d);
    case BlockdevInit(_, _, _, _) => assert d.pending == [];
    case BlockdevDeinit => FlushKeepsLogical(fates, d);
  }

  lemma {:induction false} ReadSinglySucceeds(fates: Fates, card: Card, buf: seq<Sector>, blk: nat, i: nat, n: nat)
    requires i <= n <= |buf| && blk + n <= |card.sectors| && FaultFree(fates)
    ensures ReadSingly(fates, card, buf, blk, i, n).ok
    decreases n - i
  {
    if i < n {
      var got := CardRead(fates, card, blk + i, 1);
      ReadSinglySucceeds(fates, got.card, Overlay(buf, i, got.data), blk, i + 1, n);
    }
  }

  lemma ReadClearSucceeds(fates: Fates, d: Driver, buf: seq<Sector>, blk: nat, n: nat, dmaCapable: bool)
    requires d.sec + |d.pending| <= |d.card.sectors| && n <= |buf| && blk + n <= |d.card.sectors| && FaultFree(fates)
    ensures ReadClear(fates, d, buf, blk, n, dmaCapable).rc == EOK
  {
    hide Overlay, ReadSingly;
    ReadSinglySucceeds(fates, d.card, buf, blk, 0, n);
  }

  /** With a card that completes every transaction, every callback of every run succeeds
      and no write fails, so the premises below are met. */
  lemma FaultFreeStepsSucceed(fates: Fates, d: Driver, call: Call)
    requires DriverOk(d) && Legal(d, call) && FaultFree(fates)
    ensures CleanFrom(Step(fates, d, call).driver.card.log, |d.card.log|)
    ensures !call.BlockdevInit? ==> Step(fates, d, call).rc == EOK
  {
    hide ReadClear, Overlay;
    match call
    case Bread(buf, blk, count, dmaCapable) =>
      var first := if Overlaps(d, blk, count) then Flush(fates, d) else Reply(d, EOK, []);
      ReadClearSucceeds(fates, first.driver, buf, blk, count, dmaCapable);
      ReadServesLogical(fates, d, buf, blk, count, dmaCapable);
    case _ =>
  }

  /** Over whole runs: while no card write has failed, the logical disk is the flat disk. */
  lemma {:induction false} RunRefinesFlat(fates: Fates, disk: seq<Sector>, calls: seq<Call>, trace: seq<Reply>, i: nat)
    requires IsRun(fates, PowerUp(disk), calls, trace) && i <= |calls|
    requires Clean(Before(PowerUp(disk), trace, i).card.log)
    ensures DriverOk(Before(PowerUp(disk), trace, i))
    ensures Logical(Before(PowerUp(disk), trace, i)) == ApplyWrites(disk, calls[..i])
  {
    hide Step, Legal;
    if i > 0 {
      var d := Before(PowerUp(disk), trace, i - 1);
      RunStep(fates, PowerUp(disk), calls, trace, i - 1);
      LogGrows(fates, d, calls[i - 1]);
      RunRefinesFlat(fates, disk, calls, trace, i - 1);
      StepRefinesFlat(fates, d, calls[i - 1]);
      assert calls[..i][..i - 1] == calls[..i - 1];
    }
  }

  lemma StepServes(fates: Fates, d: Driver, call: Call)
    requires DriverOk(d) && Legal(d, call) && call.Bread?
    ensures call.count <= |call.buf| && call.blk + call.count <= |d.card.sectors|
    ensures Serves(d, Step(fates, d, call), call.buf, call.blk, call.count)
  {
    hide Read, Serves;
    ReadServesLogical(fates, d, call.buf, call.blk, call.count, call.dmaCapable);
  }

  /** Every successful read of a run without failed card writes returns the flat disk's
      sectors: the last data written to each of them, or its initial contents. */
  lemma ReadsReturnLastWrites(fates: Fates, disk: seq<Sector>, calls: seq<Call>, trace: seq<Reply>, i: nat)
    requires IsRun(fates, PowerUp(disk), calls, trace) && i < |calls|
    requires Clean(Before(PowerUp(disk), trace, i + 1).card.log)
    requires calls[i].Bread? && trace[i].rc == EOK
    ensures calls[i].blk + calls[i].count <= |disk| && calls[i].count <= |calls[i].buf|
    ensures trace[i].buf == Overlay(calls[i].buf, 0,
                              ApplyWrites(disk, calls[..i])[calls[i].blk..calls[i].blk + calls[i].count])
  {
    hide Step, Legal, IsStep, CleanFrom, DriverOk, ApplyWrites, Overlay;
    var d := Before(PowerUp(disk), trace, i);
    RunStep(fates, PowerUp(disk), calls, trace, i);
    LogGrows(fates, d, calls[i]);
    RunRefinesFlat(fates, disk, calls, trace, i);
    StepServes(fates, d, calls[i]);
  }

  /** The same requests from lwext4; DMA answers, allocations, initialisations and
      registrations may differ. */
  ghost predicate SameRequests(calls: seq<Call>, calls': seq<Call>) {
    && |calls| == |calls'|
    && forall i {:trigger calls[i], calls'[i]} :: 0 <= i < |calls| ==>
         if calls[i].Bread? then
           && calls'[i].Bread?
           && (calls[i].buf, calls[i].blk, calls[i].count) == (calls'[i].buf, calls'[i].blk, calls'[i].count)
         else
           (calls[i].Bwrite? || calls'[i].Bwrite? ==> calls[i] == calls'[i]) && !calls'[i].Bread?
  }

  lemma {:induction false} SameRequestsSameDisk(disk: seq<Sector>, calls: seq<Call>, calls': seq<Call>, i: nat)
    requires SameRequests(calls, calls') && i <= |calls|
    ensures ApplyWrites(disk, calls[..i]) == ApplyWrites(disk, calls'[..i])
  {
    if i > 0 {
      SameRequestsSameDisk(disk, calls, calls', i - 1);
      assert calls[..i][..i - 1] == calls[..i - 1];
      assert calls'[..i][..i - 1] == calls'[..i - 1];
      assert calls[..i][i - 1] == calls[i - 1] && calls'[..i][i - 1] == calls'[i - 1];
    }
  }

  /** Coalescing is invisible: two runs on the same requests and the same disk, say one with
      a coalescing buffer and one whose allocation failed, read back the same data. */
  lemma CoalescingIsInvisible(fates: Fates, fates': Fates, disk: seq<Sector>, calls: seq<Call>, calls': seq<Call>,
                              trace: seq<Reply>, trace': seq<Reply>, i: nat)
    requires IsRun(fates, PowerUp(disk), calls, trace) && IsRun(fates', PowerUp(disk), calls', trace')
    requires SameRequests(calls, calls') && i < |calls|
    requires Clean(Before(PowerUp(disk), trace, i + 1).card.log)
    requires Clean(Before(PowerUp(disk), trace', i + 1).card.log)
    ensures DriverOk(trace[i].driver) && DriverOk(trace'[i].driver)
    ensures Logical(trace[i].driver) == Logical(trace'[i].driver)
    ensures calls[i].Bread? && trace[i].rc == trace'[i].rc == EOK ==> trace[i].buf == trace'[i].buf
    ensures calls[i].Bwrite? ==> trace[i].rc == trace'[i].rc == EOK
  {
    hide Step, Legal;
    SameRequestsSameDisk(disk, calls, calls', i);
    SameRequestsSameDisk(disk, calls, calls', i + 1);
    RunRefinesFlat(fates, disk, calls, trace, i + 1);
    RunRefinesFlat(fates', disk, calls', trace', i + 1);
    if calls[i].Bread? && trace[i].rc == trace'[i].rc == EOK {
      ReadsReturnLastWrites(fates, disk, calls, trace, i);
      ReadsReturnLastWrites(fates', disk, calls', trace', i);
    }
    var d, d' := Before(PowerUp(disk), trace, i), Before(PowerUp(disk), trace', i);
    RunStep(fates, PowerUp(disk), calls, trace, i);
    RunStep(fates', PowerUp(disk), calls', trace', i);
    LogGrows(fates, d, calls[i]);
    LogGrows(fates', d', calls'[i]);
    StepRefinesFlat(fates, d, calls[i]);
    StepRefinesFlat(fates', d', calls'[i]);
  }

  /** A de-initialisation in such a run leaves the card with everything ever written. */
  lemma DeinitLeavesEverything(fates: Fates, disk: seq<Sector>, calls: seq<Call>, trace: seq<Reply>, i: nat)
    requires IsRun(fates, PowerUp(disk), calls, trace) && i < |calls| && calls[i].BlockdevDeinit?
    requires Clean(Before(PowerUp(disk), trace, i + 1).card.log)
    ensures trace[i].driver.card.sectors == ApplyWrites(disk, calls[..i + 1])
    ensures trace[i].driver.pending == [] && !trace[i].driver.attached
  {
    hide Read, Write, Legal, ApplyWrites, CleanFrom;
    RunRefinesFlat(fates, disk, calls, trace, i + 1);
    RunStep(fates, PowerUp(disk), calls, trace, i);
  }

  /** With a card that completes everything no run ever has a failed write, and every call
      but an initialisation returns EOK. */
  lemma {:induction false} FaultFreeRunsSucceed(fates: Fates, disk: seq<Sector>, calls: seq<Call>,
                                                trace: seq<Reply>, i: nat)
    requires IsRun(fates, PowerUp(disk), calls, trace) && i <= |calls| && FaultFree(fates)
    ensures Clean(Before(PowerUp(disk), trace, i).card.log)
    ensures i > 0 && !calls[i - 1].BlockdevInit? ==> trace[i - 1].rc == EOK
  {
    hide Step, Legal;
    if i > 0 {
      FaultFreeRunsSucceed(fates, disk, calls, trace, i - 1);
      var d := Before(PowerUp(disk), trace, i - 1);
      RunStep(fates, PowerUp(disk), calls, trace, i - 1);
      FaultFreeStepsSucceed(fates, d, calls[i - 1]);
      LogGrows(fates, d, calls[i - 1]);
    }
  }

  /** So on such cards the driver with the buffer and the driver without it give identical
      answers, call by call, to the same requests. */
  lemma FaultFreeRunsAgree(fates: Fates, fates': Fates, disk: seq<Sector>, calls: seq<Call>, calls': seq<Call>,
                           trace: seq<Reply>, trace': seq<Reply>, i: nat)
    requires IsRun(fates, PowerUp(disk), calls, trace) && IsRun(fates', PowerUp(disk), calls', trace')
    requires SameRequests(calls, calls') && i < |calls| && FaultFree(fates) && FaultFree(fates')
    ensures calls[i].Bread? || calls[i].Bwrite? ==> trace[i].rc == trace'[i].rc == EOK
    ensures calls[i].Bread? ==> trace[i].buf == trace'[i].buf
  {
    hide IsStep, Clean;
    FaultFreeRunsSucceed(fates, disk, calls, trace, i + 1);
    FaultFreeRunsSucceed(fates', disk, calls', trace', i + 1);
    CoalescingIsInvisible(fates, fates', disk, calls, calls', trace, trace', i);
  }
}
