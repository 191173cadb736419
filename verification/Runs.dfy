/** Whole runs of the block device from power-up: any sequence of lwext4 callbacks,
    initialisations and de-initialisations, under any fates of the card transactions. */
module Runs {
  import opened Sectors
  import opened SdCard
  import opened BlockDevice

  datatype Call =
    | Bread(buf: seq<Sector>, blk: nat, count: nat, dmaCapable: bool)
    | Bwrite(blk: nat, data: seq<Sector>)
    | BdevClose
    | BlockdevInit(cardNull: bool, dmaAlloc: bool, wbufAlloc: bool, regOk: bool)
    | BlockdevDeinit

  /** lwext4 calls back only while the device is registered, within its geometry and with
      buffers that fit a 32-bit address space.  An init, also one that repeats a failed one,
      comes while the device is not registered. */
  ghost predicate Legal(d: Driver, call: Call) {
    match call
    case Bread(buf, blk, count, _) =>
      d.registered && count <= |buf| && blk + count <= |d.card.sectors| && count * SECTOR_SIZE < TWO_TO_THE_32
    case Bwrite(blk, data) =>
      d.registered && blk + |data| <= |d.card.sectors| && |data| * SECTOR_SIZE < TWO_TO_THE_32
    case BdevClose => true
    case BlockdevInit(_, _, _, _) => !d.registered
    case BlockdevDeinit => true
  }

  ghost function Step(fates: Fates, d: Driver, call: Call): (r: Reply)
    requires DriverOk(d) && Legal(d, call)
  {
    match call
    case Bread(buf, blk, count, dmaCapable) => Read(fates, d, buf, blk, count, dmaCapable)
    case Bwrite(blk, data) => Write(fates, d, blk, data)
    case BdevClose => Flush(fates, d)
    case BlockdevInit(cardNull, dmaAlloc, wbufAlloc, regOk) => Init(d, cardNull, dmaAlloc, wbufAlloc, regOk)
    case BlockdevDeinit => Deinit(fates, d)
  }

  /** The driver at power-up, in front of a card with the given contents. */
  ghost function PowerUp(disk: seq<Sector>): Driver {
    Driver(Card(disk, []), false, false, false, false, 0, [])
  }

  /** The driver before call i of a run that starts at d0. */
  ghost function Before(d0: Driver, trace: seq<Reply>, i: nat): Driver
    requires i <= |trace|
  {
    if i == 0 then d0 else trace[i - 1].driver
  }

  ghost predicate IsRun(fates: Fates, d0: Driver, calls: seq<Call>, trace: seq<Reply>) {
    && |trace| == |calls|
    && DriverOk(d0)
    && forall i {:trigger calls[i]} :: 0 <= i < |calls| ==> IsStep(fates, Before(d0, trace, i), calls[i], trace[i])
  }

  /** A legal call and its reply.  That the driver is in order before every call is not
      part of being a run; it is proved. */
  ghost predicate IsStep(fates: Fates, d: Driver, call: Call, reply: Reply) {
    Legal(d, call) && (DriverOk(d) ==> reply == Step(fates, d, call))
  }

  lemma StepKeepsOk(fates: Fates, d: Driver, call: Call)
    requires DriverOk(d) && Legal(d, call)
    ensures DriverOk(Step(fates, d, call).driver)
    ensures |Step(fates, d, call).driver.card.sectors| == |d.card.sectors|
  {
    match call
    case Bread(buf, blk, count, dmaCapable) => ReadKeepsOk(fates, d, buf, blk, count, dmaCapable);
    case Bwrite(blk, data) => WriteKeepsOk(fates, d, blk, data);
    case _ =>
  }

  /** The lifecycle invariant holds at every point of every run: fewer than 128 sectors are
      pending, and only while card and buffer are there. */
  lemma {:induction false} LifecycleInvariant(fates: Fates, d0: Driver, calls: seq<Call>, trace: seq<Reply>, i: nat)
    requires IsRun(fates, d0, calls, trace) && i <= |calls|
    ensures DriverOk(Before(d0, trace, i)) && |Before(d0, trace, i).pending| < 128
    ensures |Before(d0, trace, i).card.sectors| == |d0.card.sectors|
  {
    hide Step, Legal;
    if i > 0 {
      LifecycleInvariant(fates, d0, calls, trace, i - 1);
      assert IsStep(fates, Before(d0, trace, i - 1), calls[i - 1], trace[i - 1]);
      StepKeepsOk(fates, Before(d0, trace, i - 1), calls[i - 1]);
    }
  }

  /** Call i of a run, with what is known before it. */
  lemma RunStep(fates: Fates, d0: Driver, calls: seq<Call>, trace: seq<Reply>, i: nat)
    requires IsRun(fates, d0, calls, trace) && i < |calls|
    ensures var d := Before(d0, trace, i);
            DriverOk(d) && Legal(d, calls[i]) && trace[i] == Step(fates, d, calls[i])
    ensures Before(d0, trace, i + 1) == trace[i].driver
  {
    hide Step, Legal, DriverOk;
    LifecycleInvariant(fates, d0, calls, trace, i);
    assert IsStep(fates, Before(d0, trace, i), calls[i], trace[i]);
  }

  /** No run gets stuck: after any run every legal call has a reply. */
  lemma RunExtends(fates: Fates, d0: Driver, calls: seq<Call>, trace: seq<Reply>, call: Call)
    requires IsRun(fates, d0, calls, trace) && Legal(Before(d0, trace, |calls|), call)
    ensures DriverOk(Before(d0, trace, |calls|))
    ensures IsRun(fates, d0, calls + [call], trace + [Step(fates, Before(d0, trace, |calls|), call)])
  {
    hide Step, Legal, DriverOk;
    LifecycleInvariant(fates, d0, calls, trace, |calls|);
    var calls', trace' := calls + [call], trace + [Step(fates, Before(d0, trace, |calls|), call)];
    forall i | 0 <= i < |calls'| ensures IsStep(fates, Before(d0, trace', i), calls'[i], trace'[i]) {
      assert Before(d0, trace', i) == Before(d0, trace, i);
      if i < |calls| {
        assert IsStep(fates, Before(d0, trace, i), calls[i], trace[i]);
      }
    }
  }

  /** No write transaction from number `from` on failed. */
  ghost predicate CleanFrom(log: seq<Transaction>, from: nat) {
    forall i :: from <= i < |log| && log[i].WriteTx? ==> log[i].ok
  }

  ghost predicate Clean(log: seq<Transaction>) {
    CleanFrom(log, 0)
  }

  lemma {:induction false} ReadSinglyAppends(fates: Fates, card: Card, buf: seq<Sector>, blk: nat, i: nat, n: nat)
    requires i <= n <= |buf| && blk + n <= |card.sectors|
    ensures var out := ReadSingly(fates, card, buf, blk, i, n);
            && card.log <= out.card.log
            && (forall k :: |card.log| <= k < |out.card.log| ==> out.card.log[k].ReadTx?)
            && CleanFrom(out.card.log, |card.log|)
            && out.buf[n..] == buf[n..]
            && (out.ok ==> out.buf == Overlay(buf, i, card.sectors[blk + i..blk + n]))
    decreases n - i
  {
    if i < n {
      var got := CardRead(fates, card, blk + i, 1);
      if got.ok {
        ReadSinglyAppends(fates, got.card, Overlay(buf, i, got.data), blk, i + 1, n);
        OverlayAppend(buf, i, got.data, card.sectors[blk + i + 1..blk + n]);
        assert card.sectors[blk + i..blk + n] == got.data + card.sectors[blk + i + 1..blk + n];
      }
    }
  }

  lemma ReadClearAppends(fates: Fates, d: Driver, buf: seq<Sector>, blk: nat, n: nat, dmaCapable: bool)
    requires d.sec + |d.pending| <= |d.card.sectors| && n <= |buf| && blk + n <= |d.card.sectors|
    ensures d.card.log <= ReadClear(fates, d, buf, blk, n, dmaCapable).driver.card.log
  {
    ReadSinglyAppends(fates, d.card, buf, blk, 0, n);
  }

  /** The log only grows, so a clean log was always clean. */
  lemma LogGrows(fates: Fates, d: Driver, call: Call)
    requires DriverOk(d) && Legal(d, call)
    ensures d.card.log <= Step(fates, d, call).driver.card.log
    ensures Clean(Step(fates, d, call).driver.card.log) ==>
              Clean(d.card.log) && CleanFrom(Step(fates, d, call).driver.card.log, |d.card.log|)
  {
    hide ReadClear, ReadSingly;
    if call.Bread? {
      var first := if Overlaps(d, call.blk, call.count) then Flush(fates, d) else Reply(d, EOK, []);
      ReadClearAppends(fates, first.driver, call.buf, call.blk, call.count, call.dmaCapable);
    }
  }
}
