/** Failing card transactions harm only the sectors they were aimed at, and are reported. */
module FaultContainment {
  import opened Sectors
  import opened SdCard
  import opened BlockDevice
  import opened Runs
  import opened FlatDisk

  ghost predicate Covers(tx: Transaction, s: nat) {
    tx.WriteTx? && tx.lba <= s < tx.lba + |tx.data|
  }

  /** The latest write transaction on sector s failed. */
  ghost predicate Suspect(log: seq<Transaction>, s: nat) {
    if log == [] then false
    else if Covers(log[|log| - 1], s) then !log[|log| - 1].ok
    else Suspect(log[..|log| - 1], s)
  }

  lemma SuspectAppend(log: seq<Transaction>, tx: Transaction)
    ensures forall s :: Suspect(log + [tx], s) == if Covers(tx, s) then !tx.ok else Suspect(log, s)
  {
    assert (log + [tx])[..|log|] == log;
  }

  lemma {:induction false} ReadsCastNoSuspicion(log: seq<Transaction>, log': seq<Transaction>)
    requires log <= log' && forall i :: |log| <= i < |log'| ==> log'[i].ReadTx?
    ensures forall s :: Suspect(log', s) == Suspect(log, s)
  {
    if |log| == |log'| {
      assert log == log';
    } else {
      ReadsCastNoSuspicion(log, log'[..|log'| - 1]);
    }
  }

  ghost predicate IsPending(d: Driver, s: nat) {
    d.sec <= s < d.sec + |d.pending|
  }

  /** A sector reads as `ideal` has it unless its latest card write failed and nothing newer
      is pending for it. */
  ghost predicate Contained(d: Driver, ideal: seq<Sector>) {
    && d.sec + |d.pending| <= |d.card.sectors| == |ideal|
    && forall s :: 0 <= s < |ideal| && (!Suspect(d.card.log, s) || IsPending(d, s)) ==> Logical(d)[s] == ideal[s]
  }

  lemma FlushContains(fates: Fates, d: Driver, ideal: seq<Sector>)
    requires Contained(d, ideal)
    ensures Contained(Flush(fates, d).driver, ideal)
    ensures Flush(fates, d).rc != EOK ==>
              forall s :: IsPending(d, s) ==> Suspect(Flush(fates, d).driver.card.log, s)
  {
    hide Suspect;
    if |d.pending| > 0 {
      SuspectAppend(d.card.log, WriteTx(d.sec, d.pending, Flush(fates, d).rc == EOK));
    }
  }

  lemma ReadClearContains(fates: Fates, d: Driver, buf: seq<Sector>, blk: nat, n: nat, dmaCapable: bool,
                          ideal: seq<Sector>)
    requires n <= |buf| && blk + n <= |d.card.sectors| && Contained(d, ideal)
    ensures Contained(ReadClear(fates, d, buf, blk, n, dmaCapable).driver, ideal)
  {
    hide Suspect;
    var r := ReadClear(fates, d, buf, blk, n, dmaCapable);
    if !dmaCapable && d.hasWbuf && n * SECTOR_SIZE <= WBUF_BYTES {
      FlushContains(fates, d, ideal);
      var flushed := Flush(fates, d).driver;
      if Flush(fates, d).rc == EOK {
        ReadsCastNoSuspicion(flushed.card.log, r.driver.card.log);
      }
    } else {
      ReadSinglyAppends(fates, d.card, buf, blk, 0, n);
      ReadsCastNoSuspicion(d.card.log, r.driver.card.log);
    }
  }

  lemma WriteThroughContains(fates: Fates, d: Driver, blk: nat, data: seq<Sector>, ideal: seq<Sector>)
    requires blk + |data| <= |d.card.sectors| && d.pending == [] && Contained(d, ideal)
    ensures var r := WriteThrough(fates, d, blk, data);
            Contained(r.driver, if r.rc == EOK then Overlay(ideal, blk, data) else ideal)
  {
    hide Suspect;
    SuspectAppend(d.card.log, WriteTx(blk, data, WriteThrough(fates, d, blk, data).rc == EOK));
  }

  lemma ExtendContains(d: Driver, data: seq<Sector>, ideal: seq<Sector>)
    requires Contained(d, ideal) && d.sec + |d.pending| + |data| <= |d.card.sectors|
    ensures Contained(d.(pending := d.pending + data), Overlay(ideal, d.sec + |d.pending|, data))
  {
    hide Suspect;
    OverlayAppend(d.card.sectors, d.sec, d.pending, data);
  }

  lemma RestartContains(d: Driver, blk: nat, data: seq<Sector>, ideal: seq<Sector>)
    requires Contained(d, ideal) && d.pending == [] && blk + |data| <= |d.card.sectors|
    ensures Contained(d.(sec := blk, pending := data), Overlay(ideal, blk, data))
  {
    hide Suspect;
  }

  /** The failed flush of a full buffer takes the accepted sectors and the new ones with it. */
  lemma FailedWriteContains(d: Driver, blk: nat, data: seq<Sector>, ideal: seq<Sector>)
    requires blk + |data| <= |ideal| && d.pending == []
    requires Contained(d, Overlay(ideal, blk, data))
    requires forall s :: blk <= s < blk + |data| ==> Suspect(d.card.log, s)
    ensures Contained(d, ideal)
  {
    hide Suspect;
  }

  lemma WriteContains(fates: Fates, d: Driver, blk: nat, data: seq<Sector>, ideal: seq<Sector>)
    requires DriverOk(d) && d.registered && blk + |data| <= |d.card.sectors| && Contained(d, ideal)
    ensures var r := Write(fates, d, blk, data);
            Contained(r.driver, if r.rc == EOK then Overlay(ideal, blk, data) else ideal)
  {
    hide Suspect;
    if !d.hasWbuf {
      WriteThroughContains(fates, d, blk, data, ideal);
    } else if Extends(d, blk, |data|) {
      var grown := d.(pending := d.pending + data);
      ExtendContains(d, data, ideal);
      FlushContains(fates, grown, Overlay(ideal, blk, data));
      if |grown.pending| >= WBUF_SECTORS && Flush(fates, grown).rc != EOK {
        FailedWriteContains(Flush(fates, grown).driver, blk, data, ideal);
      }
    } else {
      FlushContains(fates, d, ideal);
      var first := Flush(fates, d);
      if first.rc == EOK && |data| >= WBUF_SECTORS {
        WriteThroughContains(fates, first.driver, blk, data, ideal);
      } else if first.rc == EOK {
        RestartContains(first.driver, blk, data, ideal);
      }
    }
  }

  /** A write that found the flush before it failing is not applied at all: it issues no
      transaction of its own, and no sector outside the flushed range changes. */
  lemma RefusedWriteNotApplied(fates: Fates, d: Driver, blk: nat, data: seq<Sector>)
    requires DriverOk(d) && d.registered && blk + |data| <= |d.card.sectors|
    requires d.hasWbuf && !Extends(d, blk, |data|) && Flush(fates, d).rc != EOK
    ensures var r := Write(fates, d, blk, data);
            && r.rc == EIO && r.driver.pending == []
            && r.driver.card.log == d.card.log + [WriteTx(d.sec, d.pending, false)]
            && forall s :: 0 <= s < |d.card.sectors| && !IsPending(d, s) ==>
                 r.driver.card.sectors[s] == d.card.sectors[s] == Logical(d)[s]
  {
  }

  lemma StepContains(fates: Fates, d: Driver, call: Call, ideal: seq<Sector>)
    requires DriverOk(d) && Legal(d, call) && Contained(d, ideal)
    ensures var r := Step(fates, d, call);
            Contained(r.driver, if r.rc == EOK then ApplyWrite(ideal, call) else ideal)
  {
    hide Suspect, Write, ReadClear;
    match call
    case Bread(buf, blk, count, dmaCapable) =>
      var first := if Overlaps(d, blk, count) then Flush(fates, d) else Reply(d, EOK, []);
      FlushContains(fates, d, ideal);
      if first.rc == EOK {
        ReadClearContains(fates, first.driver, buf, blk, count, dmaCapable, ideal);
      }
    case Bwrite(blk, data) => WriteContains(fates, d, blk, data, ideal);
    case _ => FlushContains(fates, d, ideal);
  }

  /** The calls among the first n that returned EOK. */
  ghost function Accepted(calls: seq<Call>, trace: seq<Reply>, n: nat): seq<Call>
    requires n <= |calls| == |trace|
  {
    if n == 0 then []
    else Accepted(calls, trace, n - 1) + if trace[n - 1].rc == EOK then [calls[n - 1]] else []
  }

  lemma ApplyAccepted(disk: seq<Sector>, calls: seq<Call>, trace: seq<Reply>, n: nat)
    requires 0 < n <= |calls| == |trace|
    ensures ApplyWrites(disk, Accepted(calls, trace, n))
            == var before := ApplyWrites(disk, Accepted(calls, trace, n - 1));
               if trace[n - 1].rc == EOK then ApplyWrite(before, calls[n - 1]) else before
  {
    var before := Accepted(calls, trace, n - 1);
    assert (before + [calls[n - 1]])[..|before|] == before;
    assert before + [] == before;
  }

  /** After any run, with any card transactions failing and leaving anything behind, every
      sector whose latest card write did not fail, or for which something newer is pending,
      reads as its last accepted write (or as it was at power-up). */
  lemma {:induction false} FaultsContained(fates: Fates, disk: seq<Sector>, calls: seq<Call>, trace: seq<Reply>, i: nat)
    requires IsRun(fates, PowerUp(disk), calls, trace) && i <= |calls|
    ensures Contained(Before(PowerUp(disk), trace, i), ApplyWrites(disk, Accepted(calls, trace, i)))
  {
    hide Step, Legal, Suspect, Contained;
    if i > 0 {
      FaultsContained(fates, disk, calls, trace, i - 1);
      RunStep(fates, PowerUp(disk), calls, trace, i - 1);
      StepContains(fates, Before(PowerUp(disk), trace, i - 1), calls[i - 1],
                   ApplyWrites(disk, Accepted(calls, trace, i - 1)));
      ApplyAccepted(disk, calls, trace, i);
    } else {
      PowerUpContained(disk);
    }
  }

  lemma PowerUpContained(disk: seq<Sector>)
    ensures Contained(PowerUp(disk), ApplyWrites(disk, []))
  {
  }

  /** What that means for a reader: each sector of a read that returned EOK is the last
      accepted write, unless it was suspect before the call. */
  lemma ReadsReturnAcceptedWrites(fates: Fates, disk: seq<Sector>, calls: seq<Call>, trace: seq<Reply>, i: nat, k: nat)
    requires IsRun(fates, PowerUp(disk), calls, trace) && i < |calls|
    requires calls[i].Bread? && trace[i].rc == EOK && k < calls[i].count
    requires var d := Before(PowerUp(disk), trace, i);
             !Suspect(d.card.log, calls[i].blk + k) || IsPending(d, calls[i].blk + k)
    ensures k < |trace[i].buf| && calls[i].blk + k < |disk|
    ensures trace[i].buf[k] == ApplyWrites(disk, Accepted(calls, trace, i))[calls[i].blk + k]
  {
    hide Read, Suspect, Write, Flush, Init, Deinit, CleanFrom, ApplyWrites, Accepted;
    var d := Before(PowerUp(disk), trace, i);
    RunStep(fates, PowerUp(disk), calls, trace, i);
    FaultsContained(fates, disk, calls, trace, i);
    ReadServesLogical(fates, d, calls[i].buf, calls[i].blk, calls[i].count, calls[i].dmaCapable);
  }

  /** Every call returned EOK, and nothing was pending at any de-initialisation. */
  ghost predicate AllReportedOk(d0: Driver, calls: seq<Call>, trace: seq<Reply>)
    requires |calls| == |trace|
  {
    forall i {:trigger calls[i]} :: 0 <= i < |calls| ==>
      trace[i].rc == EOK && (calls[i].BlockdevDeinit? ==> Before(d0, trace, i).pending == [])
  }

  lemma OkStepIsClean(fates: Fates, d: Driver, call: Call)
    requires DriverOk(d) && Legal(d, call) && Step(fates, d, call).rc == EOK
    requires call.BlockdevDeinit? ==> d.pending == []
    ensures CleanFrom(Step(fates, d, call).driver.card.log, |d.card.log|)
  {
    hide Read, Write, CardWrite;
    match call
    case Bread(buf, blk, count, dmaCapable) => ReadServesLogical(fates, d, buf, blk, count, dmaCapable);
    case Bwrite(blk, data) => WriteUpdatesLogical(fates, d, blk, data);
    case _ => FlushKeepsLogical(fates, d);
  }

  lemma {:induction false} OkRunIsClean(fates: Fates, disk: seq<Sector>, calls: seq<Call>, trace: seq<Reply>, i: nat)
    requires IsRun(fates, PowerUp(disk), calls, trace) && i <= |calls|
    requires AllReportedOk(PowerUp(disk), calls, trace)
    ensures Clean(Before(PowerUp(disk), trace, i).card.log)
  {
    hide Step, Legal;
    if i > 0 {
      OkRunIsClean(fates, disk, calls, trace, i - 1);
      var d := Before(PowerUp(disk), trace, i - 1);
      RunStep(fates, PowerUp(disk), calls, trace, i - 1);
      OkStepIsClean(fates, d, calls[i - 1]);
      LogGrows(fates, d, calls[i - 1]);
    }
  }

  /** If every call returned EOK and the last one was a close, everything is on the card. */
  lemma AllOkMeansOnCard(fates: Fates, disk: seq<Sector>, calls: seq<Call>, trace: seq<Reply>)
    requires IsRun(fates, PowerUp(disk), calls, trace)
    requires AllReportedOk(PowerUp(disk), calls, trace)
    requires calls != [] && calls[|calls| - 1].BdevClose?
    ensures trace[|calls| - 1].driver.card.sectors == ApplyWrites(disk, calls)
    ensures trace[|calls| - 1].driver.pending == []
  {
    hide Legal, ApplyWrites, CleanFrom, Read, Write;
    var n := |calls|;
    RunStep(fates, PowerUp(disk), calls, trace, n - 1);
    OkRunIsClean(fates, disk, calls, trace, n);
    RunRefinesFlat(fates, disk, calls, trace, n);
    assert calls[..n] == calls;
  }

  /** Without the condition on de-initialisations that is false: here every call returns EOK
      and the last one is a close, but the write was lost in the deinit. */
  lemma DeinitHidesLoss(disk: seq<Sector>, x: Sector) returns (fates: Fates, calls: seq<Call>, trace: seq<Reply>)
    requires 0 < |disk| < TWO_TO_THE_32 && x != disk[0]
    ensures IsRun(fates, PowerUp(disk), calls, trace) && calls != [] && calls[|calls| - 1].BdevClose?
    ensures forall i :: 0 <= i < |trace| ==> trace[i].rc == EOK
    ensures trace[|calls| - 1].driver.card.sectors != ApplyWrites(disk, calls)
  {
    hide ApplyWrites;
    var old0 := disk[0];
    fates := _ => Fails(_ => old0);
    var init, write := BlockdevInit(false, true, true, true), Bwrite(0, [x]);
    var d0 := PowerUp(disk);
    var r1 := Step(fates, d0, init);
    RunExtends(fates, d0, [], [], init);
    var r2 := Step(fates, r1.driver, write);
    RunExtends(fates, d0, [init], [r1], write);
    assert r2.driver.pending == [x];
    var r3 := Step(fates, r2.driver, BlockdevDeinit);
    RunExtends(fates, d0, [init, write], [r1, r2], BlockdevDeinit);
    var r4 := Step(fates, r3.driver, BdevClose);
    RunExtends(fates, d0, [init, write, BlockdevDeinit], [r1, r2, r3], BdevClose);
    calls, trace := [init, write, BlockdevDeinit, BdevClose], [r1, r2, r3, r4];
    assert r4.driver.card.sectors[0] == old0;
    OneWriteApplied(disk, init, write);
  }

  lemma OneWriteApplied(disk: seq<Sector>, init: Call, write: Call)
    requires init.BlockdevInit? && write.Bwrite? && write.blk == 0 && 1 == |write.data| <= |disk|
    ensures ApplyWrites(disk, [init, write, BlockdevDeinit, BdevClose])[0] == write.data[0]
  {
    var calls := [init, write, BlockdevDeinit, BdevClose];
    assert calls[..3] == [init, write, BlockdevDeinit];
    assert calls[..3][..2] == [init, write];
    assert ApplyWrites(disk, [init, write]) == ApplyWrite(ApplyWrites(disk, [init, write][..1]), write);
  }

  /** Deinit always reports success.  It is durable for every fate of its flush if and only
      if nothing is pending, that is, if a close came first. */
  lemma DeinitDurableIff(d: Driver)
    requires DriverOk(d)
    ensures (forall fates: Fates :: Deinit(fates, d).driver.card.sectors == Logical(d)) <==> d.pending == []
    ensures forall fates: Fates :: Deinit(fates, d).rc == EOK
  {
    if d.pending != [] {
      var wrong := OtherSector(d.pending[0]);
      var fates: Fates := _ => Fails(_ => wrong);
      assert Deinit(fates, d).driver.card.sectors[d.sec] == wrong;
      assert Logical(d)[d.sec] == d.pending[0];
    }
  }

  ghost function OtherSector(s: Sector): (r: Sector)
    ensures r != s
  {
    var other: byte := if s[0] == 0 then 1 else 0;
    assert (s[0 := other])[0] != s[0];
    s[0 := other]
  }

  /** Init throws pending sectors away.  It keeps the logical disk, whatever the card holds,
      if and only if nothing is pending. */
  lemma InitKeepsLogicalIff(d: Driver, wbufAlloc: bool, regOk: bool)
    requires DriverOk(d)
    ensures (forall sectors: seq<Sector> :: |sectors| == |d.card.sectors| ==>
               Logical(Init(OnCard(d, sectors), false, true, wbufAlloc, regOk).driver) == Logical(OnCard(d, sectors)))
            <==> d.pending == []
  {
    if d.pending != [] {
      var sectors := d.card.sectors[d.sec := OtherSector(d.pending[0])];
      var d' := OnCard(d, sectors);
      assert Logical(Init(d', false, true, wbufAlloc, regOk).driver)[d.sec] == sectors[d.sec];
      assert Logical(d')[d.sec] == d.pending[0];
    }
  }

  /** The same driver in front of a card with other contents. */
  ghost function OnCard(d: Driver, sectors: seq<Sector>): Driver {
    d.(card := Card(sectors, d.card.log))
  }
}
