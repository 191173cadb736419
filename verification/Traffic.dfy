/** What each callback sends to the card, transaction by transaction, and what it holds back:
    the thresholds of the coalescing buffer in plain numbers, for any outcome of every
    transaction. */
module Traffic {
  import opened Sectors
  import opened SdCard
  import opened BlockDevice
  import opened Runs

  /** The log once what is pending has been sent. */
  ghost function SentPending(fates: Fates, d: Driver): (r: seq<Transaction>) {
    if d.pending == [] then d.card.log
    else d.card.log + [WriteTx(d.sec, d.pending, fates(|d.card.log|).Completes?)]
  }

  ghost predicate PendingLost(fates: Fates, d: Driver) {
    d.pending != [] && fates(|d.card.log|).Fails?
  }

  /** bdev_close: one transaction if anything is pending, none otherwise; nothing is pending
      afterwards, also if it failed, and then EIO says so. */
  lemma CloseSends(fates: Fates, d: Driver)
    requires d.sec + |d.pending| <= |d.card.sectors|
    ensures var r := Flush(fates, d);
            && r.driver.card.log == SentPending(fates, d)
            && r.driver == d.(card := r.driver.card, pending := [])
            && r.rc == (if PendingLost(fates, d) then EIO else EOK)
  {
  }

  /** lwext4_blockdev_deinit sends the same and says EOK in any case; the device, its card and
      its buffers are gone. */
  lemma DeinitSends(fates: Fates, d: Driver)
    requires DriverOk(d)
    ensures var r := Deinit(fates, d);
            && r.driver.card.log == SentPending(fates, d) && r.rc == EOK
            && r.driver == Driver(r.driver.card, false, false, false, false, d.sec, [])
  {
  }

  /** A read of which no sector is pending, and which does not go through the coalescing
      buffer, flushes nothing: what is pending stays, and only reads are issued, exactly one
      if the caller's buffer can take part in DMA. */
  lemma ReadLeavesPendingAlone(fates: Fates, d: Driver, buf: seq<Sector>, blk: nat, n: nat, dmaCapable: bool)
    requires DriverOk(d) && n <= |buf| && blk + n <= |d.card.sectors|
    requires blk + n <= d.sec || d.sec + |d.pending| <= blk
    requires dmaCapable || !d.hasWbuf || n > 128
    ensures var r := Read(fates, d, buf, blk, n, dmaCapable);
            && r.driver == d.(card := r.driver.card) && r.driver.card.sectors == d.card.sectors
            && d.card.log <= r.driver.card.log
            && (forall k :: |d.card.log| <= k < |r.driver.card.log| ==> r.driver.card.log[k].ReadTx?)
            && (dmaCapable ==>
                  && r.driver.card.log == d.card.log + [ReadTx(blk, n, r.rc == EOK)]
                  && (r.rc == EOK <==> fates(|d.card.log|).Completes?))
  {
    hide ReadSingly;
    ReadSinglyAppends(fates, d.card, buf, blk, 0, n);
  }

  /** Any other read first sends what is pending.  If that fails it ends there with EIO and the
      buffer untouched; otherwise it goes on with nothing pending, for a bounce of at most 128
      sectors with a single transaction for all of them, whose failure leaves the buffer
      untouched too. */
  lemma ReadSendsPendingFirst(fates: Fates, d: Driver, buf: seq<Sector>, blk: nat, n: nat, dmaCapable: bool)
    requires DriverOk(d) && n <= |buf| && blk + n <= |d.card.sectors|
    requires (d.pending != [] && blk < d.sec + |d.pending| && d.sec < blk + n)
             || (!dmaCapable && d.hasWbuf && n <= 128)
    ensures var r, sent := Read(fates, d, buf, blk, n, dmaCapable), SentPending(fates, d);
            && r.driver == d.(card := r.driver.card, pending := [])
            && (PendingLost(fates, d) ==> r.driver.card.log == sent && r.rc == EIO && r.buf == buf)
            && (!PendingLost(fates, d) ==>
                  && sent <= r.driver.card.log
                  && (forall k :: |sent| <= k < |r.driver.card.log| ==> r.driver.card.log[k].ReadTx?)
                  && (dmaCapable || (d.hasWbuf && n <= 128) ==>
                        && r.driver.card.log == sent + [ReadTx(blk, n, r.rc == EOK)]
                        && (r.rc == EOK <==> fates(|sent|).Completes?)))
            && (!dmaCapable && d.hasWbuf && n <= 128 && r.rc != EOK ==> r.buf == buf)
  {
    hide ReadSingly, CardWrite;
    CloseSends(fates, d);
    var first := Flush(fates, d);
    assert first.driver.card.sectors == CardWrite(fates, d.card, d.sec, d.pending).card.sectors || d.pending == [];
    ReadSinglyAppends(fates, first.driver.card, buf, blk, 0, n);
  }

  /** The reads of single sectors from lba on, of which only the last may have failed. */
  ghost predicate SingleReads(log: seq<Transaction>, from: nat, lba: nat, ok: bool) {
    && from <= |log|
    && (forall k :: from <= k < |log| ==> log[k] == ReadTx(lba + (k - from), 1, ok || k + 1 < |log|))
  }

  lemma {:induction false} SinglesSent(fates: Fates, card: Card, buf: seq<Sector>, blk: nat, i: nat, n: nat)
    requires i <= n <= |buf| && blk + n <= |card.sectors|
    ensures var out := ReadSingly(fates, card, buf, blk, i, n);
            var made := |out.card.log| - |card.log|;
            && card.log <= out.card.log && SingleReads(out.card.log, |card.log|, blk + i, out.ok)
            && if out.ok then made == n - i else 0 < made <= n - i
    decreases n - i
  {
    hide Overlay;
    if i < n {
      var got := CardRead(fates, card, blk + i, 1);
      if got.ok {
        SinglesSent(fates, got.card, Overlay(buf, i, got.data), blk, i + 1, n);
      }
    }
  }

  /** How many of those reads completed. */
  ghost function Done(from: nat, upto: nat, ok: bool): nat
    requires from <= upto && (!ok ==> from < upto)
  {
    if ok then upto - from else upto - from - 1
  }

  /** The first of the reads. */
  lemma OneRead(fates: Fates, card: Card, buf: seq<Sector>, blk: nat, i: nat, n: nat)
    requires i < n <= |buf| && blk + n <= |card.sectors|
    ensures var got := CardRead(fates, card, blk + i, 1);
            && |got.card.log| == |card.log| + 1 && got.card.sectors == card.sectors
            && (got.ok ==> got.data == card.sectors[blk + i..blk + i + 1])
            && ReadSingly(fates, card, buf, blk, i, n)
               == if got.ok then ReadSingly(fates, got.card, Overlay(buf, i, got.data), blk, i + 1, n)
                  else Bounced(got.card, buf, false)
  {
  }

  lemma {:induction false} SinglesDelivered(fates: Fates, card: Card, buf: seq<Sector>, blk: nat, i: nat, n: nat)
    requires i <= n <= |buf| && blk + n <= |card.sectors|
    ensures var out := ReadSingly(fates, card, buf, blk, i, n);
            && |card.log| <= |out.card.log| && (!out.ok ==> |card.log| < |out.card.log|)
            && var done := Done(|card.log|, |out.card.log|, out.ok);
               && i + done <= n && out.buf == Overlay(buf, i, card.sectors[blk + i..blk + i + done])
    decreases n - i
  {
    hide Overlay, CardRead;
    NothingLaid(buf, i);
    if i < n {
      OneRead(fates, card, buf, blk, i, n);
      var got := CardRead(fates, card, blk + i, 1);
      if got.ok {
        hide ReadSingly;
        var buf' := Overlay(buf, i, got.data);
        SinglesDelivered(fates, got.card, buf', blk, i + 1, n);
        var out := ReadSingly(fates, got.card, buf', blk, i + 1, n);
        OneLaidFirst(buf, i, card.sectors, blk + i, Done(|got.card.log|, |out.card.log|, out.ok));
      }
    }
  }

  lemma NothingLaid(buf: seq<Sector>, i: nat)
    requires i <= |buf|
    ensures Overlay(buf, i, []) == buf
  {
  }

  lemma OneLaidFirst(buf: seq<Sector>, i: nat, sectors: seq<Sector>, lba: nat, more: nat)
    requires i + 1 + more <= |buf| && lba + 1 + more <= |sectors|
    ensures Overlay(Overlay(buf, i, sectors[lba..lba + 1]), i + 1, sectors[lba + 1..lba + 1 + more])
            == Overlay(buf, i, sectors[lba..lba + 1 + more])
  {
    OverlayAppend(buf, i, sectors[lba..lba + 1], sectors[lba + 1..lba + 1 + more]);
    assert sectors[lba..lba + 1] + sectors[lba + 1..lba + 1 + more] == sectors[lba..lba + 1 + more];
  }

  /** A bounce of more than 128 sectors, or without the coalescing buffer, reads the sectors
      one by one in ascending order up to the first failure, and delivers exactly those read
      until then. */
  lemma BounceReadsSingly(fates: Fates, d: Driver, buf: seq<Sector>, blk: nat, n: nat)
    requires DriverOk(d) && n <= |buf| && blk + n <= |d.card.sectors|
    requires blk + n <= d.sec || d.sec + |d.pending| <= blk
    requires !d.hasWbuf || n > 128
    ensures var r := Read(fates, d, buf, blk, n, false);
            var made := |r.driver.card.log| - |d.card.log|;
            && d.card.log <= r.driver.card.log && SingleReads(r.driver.card.log, |d.card.log|, blk, r.rc == EOK)
            && ((r.rc == EOK && made == n) || (r.rc == EIO && 0 < made <= n))
            && var done := if r.rc == EOK then n else made - 1;
               && r.buf == Overlay(buf, 0, d.card.sectors[blk..blk + done])
  {
    hide ReadSingly, Overlay, SingleReads;
    SinglesSent(fates, d.card, buf, blk, 0, n);
    SinglesDelivered(fates, d.card, buf, blk, 0, n);
  }

  /** A write right behind what is pending that leaves the buffer short of 128 sectors issues
      no transaction and joins it. */
  lemma WriteJoinsPending(fates: Fates, d: Driver, blk: nat, data: seq<Sector>)
    requires DriverOk(d) && blk + |data| <= |d.card.sectors|
    requires d.pending != [] && blk == d.sec + |d.pending| && |d.pending| + |data| < 128
    ensures Write(fates, d, blk, data) == Reply(d.(pending := d.pending + data), EOK, [])
  {
  }

  /** One that fills it to 128 sectors exactly is sent with it in one transaction. */
  lemma WriteFillsBuffer(fates: Fates, d: Driver, blk: nat, data: seq<Sector>)
    requires DriverOk(d) && blk + |data| <= |d.card.sectors|
    requires d.pending != [] && blk == d.sec + |d.pending| && |d.pending| + |data| == 128
    ensures var r := Write(fates, d, blk, data);
            && r.driver == d.(card := r.driver.card, pending := [])
            && r.driver.card.log == d.card.log + [WriteTx(d.sec, d.pending + data, r.rc == EOK)]
            && r.rc == (if fates(|d.card.log|).Completes? then EOK else EIO)
  {
  }

  /** Every other write with a buffer sends what is pending first and ends there if that
      fails; then fewer than 128 sectors become pending without a transaction of their own,
      and 128 or more go to the card in one. */
  lemma WriteStartsAfresh(fates: Fates, d: Driver, blk: nat, data: seq<Sector>)
    requires DriverOk(d) && d.hasWbuf && blk + |data| <= |d.card.sectors|
    requires d.pending == [] || blk != d.sec + |d.pending| || |d.pending| + |data| > 128
    ensures var r, sent := Write(fates, d, blk, data), SentPending(fates, d);
            if PendingLost(fates, d) then
              r.driver == d.(card := r.driver.card, pending := []) && r.driver.card.log == sent && r.rc == EIO
            else if |data| < 128 then
              && r.driver == d.(card := r.driver.card, sec := blk, pending := data)
              && r.driver.card.log == sent && r.rc == EOK
            else
              && r.driver == d.(card := r.driver.card, pending := [])
              && r.driver.card.log == sent + [WriteTx(blk, data, r.rc == EOK)]
              && r.rc == (if fates(|sent|).Completes? then EOK else EIO)
  {
    hide Overlay;
    CloseSends(fates, d);
  }

  /** Without a buffer every write is one transaction. */
  lemma WriteGoesThrough(fates: Fates, d: Driver, blk: nat, data: seq<Sector>)
    requires DriverOk(d) && !d.hasWbuf && blk + |data| <= |d.card.sectors|
    ensures var r := Write(fates, d, blk, data);
            && r.driver == d.(card := r.driver.card)
            && r.driver.card.log == d.card.log + [WriteTx(blk, data, r.rc == EOK)]
            && r.rc == (if fates(|d.card.log|).Completes? then EOK else EIO)
  {
  }
}
