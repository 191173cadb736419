/** The driver whose coalescing buffer could not be allocated: it takes every run that the
    coalescing driver takes, and on a card without faults answers it identically. */
module UnbufferedRuns {
  import opened Sectors
  import opened SdCard
  import opened BlockDevice
  import opened Runs
  import opened FlatDisk
  import opened TransactionCost

  ghost function WithoutBuffer(call: Call): (r: Call) {
    if call.BlockdevInit? then call.(wbufAlloc := false) else call
  }

  /** The same calls, but the allocation of the coalescing buffer fails in every init. */
  ghost function Unbuffered(calls: seq<Call>): (r: seq<Call>)
    ensures |r| == |calls|
  {
    seq(|calls|, i requires 0 <= i < |calls| => WithoutBuffer(calls[i]))
  }

  /** What the legality of a call depends on. */
  ghost predicate SameStanding(d: Driver, d': Driver) {
    && (d.attached, d.registered, d.hasDmaBuf) == (d'.attached, d'.registered, d'.hasDmaBuf)
    && |d.card.sectors| == |d'.card.sectors|
  }

  lemma IoKeepsStanding(fates: Fates, d: Driver, call: Call)
    requires DriverOk(d) && Legal(d, call) && !call.BlockdevInit? && !call.BlockdevDeinit?
    ensures SameStanding(d, Step(fates, d, call).driver)
  {
    hide Overlay, CardWrite, CardRead, ReadSingly;
  }

  lemma StepKeepsStanding(fates: Fates, fates': Fates, d: Driver, d': Driver, call: Call)
    requires DriverOk(d) && DriverOk(d') && SameStanding(d, d') && Legal(d, call)
    ensures Legal(d', WithoutBuffer(call))
    ensures SameStanding(Step(fates, d, call).driver, Step(fates', d', WithoutBuffer(call)).driver)
  {
    hide Read, Write, DriverOk;
    StepKeepsOk(fates, d, call);
    StepKeepsOk(fates', d', WithoutBuffer(call));
    if !call.BlockdevInit? && !call.BlockdevDeinit? {
      IoKeepsStanding(fates, d, call);
      IoKeepsStanding(fates', d', call);
    }
  }

  lemma {:induction false} UnbufferedRun(fates: Fates, fates': Fates, disk: seq<Sector>, calls: seq<Call>,
                                         trace: seq<Reply>, n: nat)
    returns (trace': seq<Reply>)
    requires IsRun(fates, PowerUp(disk), calls, trace) && n <= |calls|
    ensures IsRun(fates', PowerUp(disk), Unbuffered(calls)[..n], trace')
    ensures SameStanding(Before(PowerUp(disk), trace, n), Before(PowerUp(disk), trace', n))
  {
    hide Step, Legal, IsStep, DriverOk;
    if n == 0 {
      return [];
    }
    var before := UnbufferedRun(fates, fates', disk, calls, trace, n - 1);
    var calls', call := Unbuffered(calls), WithoutBuffer(calls[n - 1]);
    var d' := Before(PowerUp(disk), before, n - 1);
    RunStep(fates, PowerUp(disk), calls, trace, n - 1);
    LifecycleInvariant(fates', PowerUp(disk), calls'[..n - 1], before, n - 1);
    StepKeepsStanding(fates, fates', Before(PowerUp(disk), trace, n - 1), d', calls[n - 1]);
    RunExtends(fates', PowerUp(disk), calls'[..n - 1], before, call);
    assert calls'[..n - 1] + [call] == calls'[..n];
    trace' := before + [Step(fates', d', call)];
  }

  lemma UnbufferedSameRequests(calls: seq<Call>)
    ensures SameRequests(calls, Unbuffered(calls))
  {
  }

  /** For every run of the driver on a card without faults there is the run of the driver
      without the coalescing buffer, and every read and write of it has the same answer. */
  lemma UncoalescedDriverAgrees(fates: Fates, disk: seq<Sector>, calls: seq<Call>, trace: seq<Reply>)
    returns (trace': seq<Reply>)
    requires IsRun(fates, PowerUp(disk), calls, trace) && FaultFree(fates)
    ensures IsRun(fates, PowerUp(disk), Unbuffered(calls), trace')
    ensures forall i {:trigger calls[i]} :: 0 <= i < |calls| && (calls[i].Bread? || calls[i].Bwrite?) ==>
              trace[i].rc == trace'[i].rc == EOK && (calls[i].Bread? ==> trace[i].buf == trace'[i].buf)
  {
    hide IsStep;
    trace' := UnbufferedRun(fates, fates, disk, calls, trace, |calls|);
    assert Unbuffered(calls)[..|calls|] == Unbuffered(calls);
    UnbufferedSameRequests(calls);
    forall i | 0 <= i < |calls| && (calls[i].Bread? || calls[i].Bwrite?)
      ensures trace[i].rc == trace'[i].rc == EOK && (calls[i].Bread? ==> trace[i].buf == trace'[i].buf)
    {
      FaultFreeRunsAgree(fates, fates, disk, calls, Unbuffered(calls), trace, trace', i);
    }
  }

  lemma {:induction false} SameBwrites(calls: seq<Call>, i: nat)
    requires i <= |calls|
    ensures CountBwrites(Unbuffered(calls)[..i]) == CountBwrites(calls[..i])
  {
    if i > 0 {
      SameBwrites(calls, i - 1);
      assert calls[..i][..i - 1] == calls[..i - 1];
      assert Unbuffered(calls)[..i][..i - 1] == Unbuffered(calls)[..i - 1];
    }
  }

  /** Coalescing never costs more: the driver without the buffer takes every run, and at every
      point of it has issued at least the write transactions of the driver with it, and one
      more if that one's buffer is not empty.  The two cards may fail as they like. */
  lemma CoalescingNeverCostsMore(fates: Fates, fates': Fates, disk: seq<Sector>, calls: seq<Call>, trace: seq<Reply>)
    returns (trace': seq<Reply>)
    requires IsRun(fates, PowerUp(disk), calls, trace)
    ensures IsRun(fates', PowerUp(disk), Unbuffered(calls), trace')
    ensures forall i :: 0 <= i <= |calls| ==>
              Spent(Before(PowerUp(disk), trace, i)) <= WriteCount(Before(PowerUp(disk), trace', i).card.log)
  {
    hide IsStep, WriteCount, CountBwrites, DriverOk;
    trace' := UnbufferedRun(fates, fates', disk, calls, trace, |calls|);
    assert Unbuffered(calls)[..|calls|] == Unbuffered(calls);
    forall i | 0 <= i <= |calls|
      ensures Spent(Before(PowerUp(disk), trace, i)) <= WriteCount(Before(PowerUp(disk), trace', i).card.log)
    {
      NeverMoreThanDirect(fates, disk, calls, trace, i);
      DirectCostsOneEach(fates', disk, Unbuffered(calls), trace', i);
      SameBwrites(calls, i);
    }
  }
}
