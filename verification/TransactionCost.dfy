/** How many write transactions the card sees: never more than lwext4's write calls, and
    exactly as few as the buffer allows for sequential writes. */
module TransactionCost {
  import opened Sectors
  import opened SdCard
  import opened BlockDevice
  import opened Runs

  ghost function WriteCount(log: seq<Transaction>): nat {
    if log == [] then 0
    else WriteCount(log[..|log| - 1]) + if log[|log| - 1].WriteTx? then 1 else 0
  }

  lemma WriteCountAppend(log: seq<Transaction>, tx: Transaction)
    ensures WriteCount(log + [tx]) == WriteCount(log) + if tx.WriteTx? then 1 else 0
  {
    assert (log + [tx])[..|log|] == log;
  }

  lemma {:induction false} ReadsCostNothing(log: seq<Transaction>, log': seq<Transaction>)
    requires log <= log' && forall i :: |log| <= i < |log'| ==> log'[i].ReadTx?
    ensures WriteCount(log') == WriteCount(log)
  {
    if |log| == |log'| {
      assert log == log';
    } else {
      ReadsCostNothing(log, log'[..|log'| - 1]);
    }
  }

  /** Transactions issued, and the one that a non-empty buffer still owes. */
  ghost function Spent(d: Driver): nat {
    WriteCount(d.card.log) + if d.pending != [] then 1 else 0
  }

  lemma FlushSpendsWhatIsOwed(fates: Fates, d: Driver)
    requires d.sec + |d.pending| <= |d.card.sectors|
    ensures Spent(Flush(fates, d).driver) == Spent(d)
    ensures Flush(fates, d).driver.pending == []
  {
    if |d.pending| > 0 {
      WriteCountAppend(d.card.log, WriteTx(d.sec, d.pending, Flush(fates, d).rc == EOK));
    }
  }

  lemma ReadClearSpends(fates: Fates, d: Driver, buf: seq<Sector>, blk: nat, n: nat, dmaCapable: bool)
    requires d.sec + |d.pending| <= |d.card.sectors| && n <= |buf| && blk + n <= |d.card.sectors|
    ensures Spent(ReadClear(fates, d, buf, blk, n, dmaCapable).driver) == Spent(d)
  {
    hide WriteCount, ReadSingly;
    var r := ReadClear(fates, d, buf, blk, n, dmaCapable);
    FlushSpendsWhatIsOwed(fates, d);
    if !dmaCapable && d.hasWbuf && n * SECTOR_SIZE <= WBUF_BYTES {
      if Flush(fates, d).rc == EOK {
        ReadsCostNothing(Flush(fates, d).driver.card.log, r.driver.card.log);
      }
    } else {
      ReadSinglyAppends(fates, d.card, buf, blk, 0, n);
      ReadsCostNothing(d.card.log, r.driver.card.log);
    }
  }

  lemma WriteSpends(fates: Fates, d: Driver, blk: nat, data: seq<Sector>)
    requires DriverOk(d) && blk + |data| <= |d.card.sectors|
    requires !d.hasWbuf ==> d.pending == []
    ensures Spent(Write(fates, d, blk, data).driver) <= Spent(d) + 1
  {
    hide WriteCount;
    if !d.hasWbuf {
      WriteCountAppend(d.card.log, WriteTx(blk, data, WriteThrough(fates, d, blk, data).rc == EOK));
    } else if Extends(d, blk, |data|) {
      FlushSpendsWhatIsOwed(fates, d.(pending := d.pending + data));
    } else {
      FlushSpendsWhatIsOwed(fates, d);
      var first := Flush(fates, d).driver;
      WriteCountAppend(first.card.log, WriteTx(blk, data, WriteThrough(fates, first, blk, data).rc == EOK));
    }
  }

  ghost function CountBwrites(calls: seq<Call>): nat {
    if calls == [] then 0
    else CountBwrites(calls[..|calls| - 1]) + if calls[|calls| - 1].Bwrite? then 1 else 0
  }

  lemma StepSpends(fates: Fates, d: Driver, call: Call)
    requires DriverOk(d) && Legal(d, call)
    ensures Spent(Step(fates, d, call).driver) <= Spent(d) + if call.Bwrite? then 1 else 0
  {
    hide WriteCount, ReadClear, Write;
    FlushSpendsWhatIsOwed(fates, d);
    match call
    case Bread(buf, blk, count, dmaCapable) =>
      var first := if Overlaps(d, blk, count) then Flush(fates, d) else Reply(d, EOK, []);
      if first.rc == EOK {
        ReadClearSpends(fates, first.driver, buf, blk, count, dmaCapable);
      }
    case Bwrite(blk, data) => WriteSpends(fates, d, blk, data);
    case _ =>
  }

  /** Amortised cost: at every point of every run, faults included, the write transactions
      issued, plus one if the buffer is not empty, are at most the bdev_bwrite calls made. */
  lemma {:induction false} NeverMoreThanDirect(fates: Fates, disk: seq<Sector>, calls: seq<Call>,
                                               trace: seq<Reply>, i: nat)
    requires IsRun(fates, PowerUp(disk), calls, trace) && i <= |calls|
    ensures var d := Before(PowerUp(disk), trace, i);
            WriteCount(d.card.log) + (if d.pending != [] then 1 else 0) <= CountBwrites(calls[..i])
  {
    hide Step, Legal;
    if i > 0 {
      NeverMoreThanDirect(fates, disk, calls, trace, i - 1);
      RunStep(fates, PowerUp(disk), calls, trace, i - 1);
      StepSpends(fates, Before(PowerUp(disk), trace, i - 1), calls[i - 1]);
      assert calls[..i][..i - 1] == calls[..i - 1];
    }
  }

  /** No coalescing buffer is ever had. */
  ghost predicate NeverBuffered(calls: seq<Call>) {
    forall i {:trigger calls[i]} :: 0 <= i < |calls| && calls[i].BlockdevInit? ==> !calls[i].wbufAlloc
  }

  lemma DirectStep(fates: Fates, d: Driver, call: Call)
    requires DriverOk(d) && Legal(d, call) && !d.hasWbuf && (call.BlockdevInit? ==> !call.wbufAlloc)
    ensures var d' := Step(fates, d, call).driver;
            && !d'.hasWbuf && DriverOk(d')
            && Spent(d') == Spent(d) + if call.Bwrite? then 1 else 0
  {
    hide WriteCount, ReadClear;
    StepKeepsOk(fates, d, call);
    match call
    case Bread(buf, blk, count, dmaCapable) =>
      ReadClearSpends(fates, d, buf, blk, count, dmaCapable);
      ReadClearKeepsBuffer(fates, d, buf, blk, count, dmaCapable);
    case Bwrite(blk, data) =>
      WriteCountAppend(d.card.log, WriteTx(blk, data, WriteThrough(fates, d, blk, data).rc == EOK));
    case _ => FlushSpendsWhatIsOwed(fates, d);
  }

  lemma ReadClearKeepsBuffer(fates: Fates, d: Driver, buf: seq<Sector>, blk: nat, n: nat, dmaCapable: bool)
    requires d.sec + |d.pending| <= |d.card.sectors| && n <= |buf| && blk + n <= |d.card.sectors|
    ensures ReadClear(fates, d, buf, blk, n, dmaCapable).driver.hasWbuf == d.hasWbuf
  {
  }

  /** The other side of the comparison: without the buffer every bdev_bwrite costs exactly
      one write transaction, so coalescing never costs more. */
  lemma {:induction false} DirectCostsOneEach(fates: Fates, disk: seq<Sector>, calls: seq<Call>, trace: seq<Reply>,
                                              i: nat)
    requires IsRun(fates, PowerUp(disk), calls, trace) && i <= |calls| && NeverBuffered(calls)
    ensures var d := Before(PowerUp(disk), trace, i);
            !d.hasWbuf && DriverOk(d) && WriteCount(d.card.log) == CountBwrites(calls[..i])
  {
    hide Step, Legal, DriverOk;
    if i > 0 {
      DirectCostsOneEach(fates, disk, calls, trace, i - 1);
      var d := Before(PowerUp(disk), trace, i - 1);
      RunStep(fates, PowerUp(disk), calls, trace, i - 1);
      DirectStep(fates, d, calls[i - 1]);
      NothingPending(d);
      NothingPending(trace[i - 1].driver);
      assert calls[..i][..i - 1] == calls[..i - 1];
    }
  }

  lemma NothingPending(d: Driver)
    requires DriverOk(d) && !d.hasWbuf
    ensures d.pending == []
  {
  }

  /** n back-to-back writes of k sectors from sector `base`, then a close. */
  ghost predicate SequentialWrites(calls: seq<Call>, base: nat, k: nat, n: nat) {
    && |calls| == n + 1
    && calls[n].BdevClose?
    && forall i {:trigger calls[i]} :: 0 <= i < n ==>
         calls[i].Bwrite? && calls[i].blk == base + i * k && |calls[i].data| == k
  }

  /** After j of the writes: q full buffers sent, r writes of k sectors pending. */
  ghost predicate Packed(d: Driver, paid: nat, base: nat, k: nat, j: nat, q: nat, r: nat)
    requires 1 <= k <= WBUF_SECTORS
  {
    && DriverOk(d) && d.hasWbuf
    && WriteCount(d.card.log) == paid + q
    && |d.pending| == r * k
    && (r > 0 ==> d.sec + |d.pending| == base + j * k)
    && j == q * (WBUF_SECTORS / k) + r
    && r <= WBUF_SECTORS / k
  }

  /** How many writes of k sectors the buffer takes. */
  lemma Fits(r: nat, k: nat)
    requires 1 <= k <= WBUF_SECTORS
    ensures r * k <= WBUF_SECTORS <==> r <= WBUF_SECTORS / k
    ensures WBUF_SECTORS / k >= 1
  {
    var m := WBUF_SECTORS / k;
    assert WBUF_SECTORS == m * k + WBUF_SECTORS % k;
    if r <= m {
      assert r * k <= m * k;
    } else {
      assert r * k >= (m + 1) * k == m * k + k;
    }
  }

  /** The arithmetic of one more write of k sectors, when m of them fit: r pending becomes
      r' pending, with sent - q more buffers sent. */
  lemma PackArithmetic(base: nat, k: nat, j: nat, q: nat, r: nat)
    requires 1 <= k <= WBUF_SECTORS && r <= WBUF_SECTORS / k && j == q * (WBUF_SECTORS / k) + r
    ensures base + (j + 1) * k == base + j * k + k && (r + 1) * k == r * k + k
    ensures r * k + k <= WBUF_SECTORS <==> r < WBUF_SECTORS / k
    ensures r * k + k == WBUF_SECTORS ==> j + 1 == (q + 1) * (WBUF_SECTORS / k)
    ensures j + 1 == q * (WBUF_SECTORS / k) + (r + 1)
    ensures r == WBUF_SECTORS / k ==> j + 1 == (q + 1) * (WBUF_SECTORS / k) + 1
    ensures r > 0 ==> r * k > 0
  {
    var m := WBUF_SECTORS / k;
    Fits(r + 1, k);
    Fits(r + 2, k);
    assert (r + 1) * k == r * k + k && (r + 2) * k == (r + 1) * k + k;
    assert (q + 1) * m == q * m + m;
  }

  /** The write joins those that are pending. */
  lemma PackExtend(fates: Fates, d: Driver, paid: nat, base: nat, k: nat, j: nat, q: nat, r: nat, data: seq<Sector>)
    returns (q': nat, r': nat)
    requires 1 <= k <= WBUF_SECTORS && Packed(d, paid, base, k, j, q, r) && d.registered
    requires |data| == k && base + j * k + k <= |d.card.sectors| && FaultFree(fates)
    requires 0 < r < WBUF_SECTORS / k
    ensures Packed(Write(fates, d, base + j * k, data).driver, paid, base, k, j + 1, q', r')
  {
    hide WriteCount, CardWrite;
    PackArithmetic(base, k, j, q, r);
    WriteKeepsOk(fates, d, base + j * k, data);
    var grown := d.(pending := d.pending + data);
    FlushSpendsWhatIsOwed(fates, grown);
    if |grown.pending| >= WBUF_SECTORS {
      return q + 1, 0;
    }
    return q, r + 1;
  }

  /** The write finds the buffer empty or full to the last k sectors, and starts afresh. */
  lemma PackRestart(fates: Fates, d: Driver, paid: nat, base: nat, k: nat, j: nat, q: nat, r: nat, data: seq<Sector>)
    returns (q': nat, r': nat)
    requires 1 <= k <= WBUF_SECTORS && Packed(d, paid, base, k, j, q, r) && d.registered
    requires |data| == k && base + j * k + k <= |d.card.sectors| && FaultFree(fates)
    requires r == 0 || r == WBUF_SECTORS / k
    ensures Packed(Write(fates, d, base + j * k, data).driver, paid, base, k, j + 1, q', r')
  {
    hide WriteCount;
    PackArithmetic(base, k, j, q, r);
    WriteKeepsOk(fates, d, base + j * k, data);
    FlushSpendsWhatIsOwed(fates, d);
    q', r' := if r > 0 then q + 1 else q, 1;
    if k >= WBUF_SECTORS {
      WriteCountAppend(Flush(fates, d).driver.card.log, WriteTx(base + j * k, data, true));
      q', r' := q' + 1, 0;
    }
  }

  lemma PackOne(fates: Fates, d: Driver, paid: nat, base: nat, k: nat, j: nat, q: nat, r: nat, data: seq<Sector>)
    returns (q': nat, r': nat)
    requires 1 <= k <= WBUF_SECTORS && Packed(d, paid, base, k, j, q, r) && d.registered
    requires |data| == k && base + j * k + k <= |d.card.sectors| && FaultFree(fates)
    ensures Packed(Write(fates, d, base + j * k, data).driver, paid, base, k, j + 1, q', r')
  {
    hide Write, Packed;
    if 0 < r < WBUF_SECTORS / k {
      q', r' := PackExtend(fates, d, paid, base, k, j, q, r, data);
    } else {
      RangeOfPacked(d, paid, base, k, j, q, r);
      q', r' := PackRestart(fates, d, paid, base, k, j, q, r, data);
    }
  }

  lemma RangeOfPacked(d: Driver, paid: nat, base: nat, k: nat, j: nat, q: nat, r: nat)
    requires 1 <= k <= WBUF_SECTORS && Packed(d, paid, base, k, j, q, r)
    ensures r <= WBUF_SECTORS / k
  {
  }

  lemma {:induction false} PackMany(fates: Fates, d0: Driver, calls: seq<Call>, trace: seq<Reply>, base: nat,
                                    k: nat, n: nat, j: nat)
    returns (q: nat, r: nat)
    requires IsRun(fates, d0, calls, trace) && FaultFree(fates)
    requires SequentialWrites(calls, base, k, n) && 1 <= k <= WBUF_SECTORS && j <= n
    requires d0.hasWbuf && d0.pending == []
    ensures Packed(Before(d0, trace, j), WriteCount(d0.card.log), base, k, j, q, r)
  {
    hide Step, Write, WriteCount;
    if j == 0 {
      return 0, 0;
    }
    var q0, r0 := PackMany(fates, d0, calls, trace, base, k, n, j - 1);
    var d := Before(d0, trace, j - 1);
    RunStep(fates, d0, calls, trace, j - 1);
    StepOfWrite(fates, d, calls[j - 1]);
    q, r := PackOne(fates, d, WriteCount(d0.card.log), base, k, j - 1, q0, r0, calls[j - 1].data);
  }

  lemma StepOfWrite(fates: Fates, d: Driver, call: Call)
    requires DriverOk(d) && Legal(d, call) && call.Bwrite?
    ensures Step(fates, d, call) == Write(fates, d, call.blk, call.data)
  {
  }

  lemma CeilingIs(q: nat, r: nat, m: nat)
    requires 0 < m && r <= m
    ensures (q * m + r + m - 1) / m == q + if r > 0 then 1 else 0
  {
    var c := q + if r > 0 then 1 else 0;
    var rest := if r > 0 then r - 1 else m - 1;
    assert q * m + r + m - 1 == c * m + rest;
    DivUnique(c, m, rest);
  }

  lemma DivUnique(c: nat, m: nat, rest: nat)
    requires rest < m
    ensures (c * m + rest) / m == c
  {
    var n := c * m + rest;
    var x, y := n / m, n % m;
    assert n == m * x + y && 0 <= y < m;
    var e := c - x;
    assert e * m == c * m - m * x;
    assert e * m < m && 0 < m + e * m;
  }

  /** The exact coalescing factor: n sequential writes of k sectors into an empty buffer and
      a close cost ceil(n / floor(128 / k)) write transactions, whether or not k divides 128. */
  lemma ExactCoalescing(fates: Fates, d0: Driver, calls: seq<Call>, trace: seq<Reply>, base: nat, k: nat, n: nat)
    requires IsRun(fates, d0, calls, trace) && FaultFree(fates)
    requires SequentialWrites(calls, base, k, n) && 1 <= k <= 128
    requires d0.hasWbuf && d0.pending == []
    ensures var perBuffer := 128 / k;
            && perBuffer > 0
            && WriteCount(trace[n].driver.card.log) - WriteCount(d0.card.log) == (n + perBuffer - 1) / perBuffer
  {
    hide Write, Read, WriteCount;
    var q, r := PackMany(fates, d0, calls, trace, base, k, n, n);
    var d := Before(d0, trace, n);
    RunStep(fates, d0, calls, trace, n);
    FlushSpendsWhatIsOwed(fates, d);
    Fits(1, k);
    CeilingIs(q, r, WBUF_SECTORS / k);
    assert r > 0 <==> d.pending != [];
  }

  /** The promised factor of sixteen: 16 * n evictions of one 8-sector block cost n
      transactions. */
  lemma SixteenBlocksPerTransaction(fates: Fates, d0: Driver, calls: seq<Call>, trace: seq<Reply>, base: nat, n: nat)
    requires IsRun(fates, d0, calls, trace) && FaultFree(fates)
    requires SequentialWrites(calls, base, 8, 16 * n)
    requires d0.hasWbuf && d0.pending == []
    ensures WriteCount(trace[16 * n].driver.card.log) == WriteCount(d0.card.log) + n
  {
    ExactCoalescing(fates, d0, calls, trace, base, 8, 16 * n);
  }
}
