/** The FATFS diskio driver of a partition at an offset (fat_partition.c): every request is
    moved by `lbaOff` and, when memory is not DMA-capable, cut into batches that go
    through an 8-sector bounce buffer. */
module FatDiskio {
  import opened Sectors
  import opened SdCard

  const FAT_BOUNCE_SECTORS: nat := 8

  datatype FatReply = FatReply(card: Card, ok: bool, buf: seq<Sector>)

  function Batch(done: nat, count: nat): (r: nat)
    requires done <= count
  {
    if count - done < FAT_BOUNCE_SECTORS then count - done else FAT_BOUNCE_SECTORS
  }

  /** The remaining batches of a bounced read. */
  ghost function ReadBatches(fates: Fates, card: Card, buf: seq<Sector>, lba: nat, done: nat, count: nat): (r: FatReply)
    requires done <= count <= |buf| && lba + count <= |card.sectors|
    decreases count - done
  {
    if done == count then
      FatReply(card, true, buf)
    else
      var batch := Batch(done, count);
      var got := CardRead(fates, card, lba + done, batch);
      if got.ok then ReadBatches(fates, got.card, Overlay(buf, done, got.data), lba, done + batch, count)
      else FatReply(got.card, false, buf)
  }

  /** The remaining batches of a bounced write of `data`. */
  ghost function WriteBatches(fates: Fates, card: Card, data: seq<Sector>, lba: nat, done: nat): (r: FatReply)
    requires done <= |data| && lba + |data| <= |card.sectors|
    decreases |data| - done
  {
    if done == |data| then
      FatReply(card, true, [])
    else
      var batch := Batch(done, |data|);
      var put := CardWrite(fates, card, lba + done, data[done..done + batch]);
      if put.ok then WriteBatches(fates, put.card, data, lba, done + batch)
      else FatReply(put.card, false, [])
  }

  ghost function PartRead(fates: Fates, card: Card, lba: nat, buf: seq<Sector>, count: nat,
                          dmaCapable: bool): (r: FatReply)
    requires count <= |buf| && lba + count <= |card.sectors|
  {
    if dmaCapable then
      var got := CardRead(fates, card, lba, count);
      FatReply(got.card, got.ok, Overlay(buf, 0, got.data))
    else
      ReadBatches(fates, card, buf, lba, 0, count)
  }

  ghost function PartWrite(fates: Fates, card: Card, lba: nat, data: seq<Sector>, dmaCapable: bool): (r: FatReply)
    requires lba + |data| <= |card.sectors|
  {
    if dmaCapable then
      var put := CardWrite(fates, card, lba, data);
      FatReply(put.card, put.ok, [])
    else
      WriteBatches(fates, card, data, lba, 0)
  }

  /** GET_SECTOR_COUNT in the C types: an int, minus a uint64_t, cut to 32 bits. */
  function Reported(capacity: nat, lbaOff: nat): (r: nat) {
    U32(U64(capacity - lbaOff))
  }

  /** The card sector a request starts at, in the C types. */
  function Start(lbaOff: nat, sector: nat): (r: nat) {
    U32(U64(lbaOff + sector))
  }

  /** The static state of fat_partition.c while a partition is mounted. */
  class FatPartition {
    const card: SdmmcCard
    const lbaOff: nat
    const bounce: array<Sector>

    ghost predicate Valid()
      reads card
    {
      bounce.Length == FAT_BOUNCE_SECTORS && |card.sectors| < TWO_TO_THE_32
    }

    constructor (card: SdmmcCard, lbaOff: nat)
      requires |card.sectors| < TWO_TO_THE_32
      ensures Valid() && this.card == card && this.lbaOff == lbaOff && fresh(bounce)
    {
      this.card := card;
      this.lbaOff := lbaOff;
      bounce := new Sector[FAT_BOUNCE_SECTORS];
    }

    /** fat_part_read; `dmaCapable` is the answer of esp_ptr_dma_capable(buf). */
    method Read(buf: array<Sector>, sector: nat, count: nat, dmaCapable: bool) returns (ok: bool)
      requires Valid() && buf != bounce
      requires count <= buf.Length && lbaOff + sector + count <= |card.sectors|
      modifies card, buf, bounce
      ensures Valid()
      ensures FatReply(card.Value(), ok, buf[..])
              == PartRead(card.fates, old(card.Value()), lbaOff + sector, old(buf[..]), count, dmaCapable)
    {
      hide CardRead, CardWrite, Overlay, ReadBatches, WriteBatches, Start;
      StartIs(lbaOff, sector);
      var lba := Start(lbaOff, sector);
      if dmaCapable {
        ok := card.ReadSectors(buf, lba, count);
        assert buf[..] == buf[..count] + buf[count..];
        return;
      }
      ok := ReadBounced(buf, lba, count);
    }

    /** The loop of fat_part_read over batches. */
    method ReadBounced(buf: array<Sector>, lba: nat, count: nat) returns (ok: bool)
      requires Valid() && buf != bounce
      requires count <= buf.Length && lba + count <= |card.sectors|
      modifies card, buf, bounce
      ensures Valid()
      ensures FatReply(card.Value(), ok, buf[..])
              == ReadBatches(card.fates, old(card.Value()), old(buf[..]), lba, 0, count)
    {
      hide CardRead, CardWrite, Overlay;
      ghost var out := ReadBatches(card.fates, card.Value(), buf[..], lba, 0, count);
      var done := 0;
      while done < count
        invariant done <= count
        invariant |card.sectors| == old(|card.sectors|)
        invariant ReadBatches(card.fates, card.Value(), buf[..], lba, done, count) == out
      {
        var batch := Batch(done, count);
        ok := ReadBatch(buf, lba + done, done, batch);
        if !ok {
          return;
        }
        done := done + batch;
      }
      ok := true;
    }

    /** One turn of the read loop: a batch into the bounce buffer and on to `buf`. */
    method ReadBatch(buf: array<Sector>, lba: nat, at: nat, batch: nat) returns (ok: bool)
      requires Valid() && buf != bounce
      requires batch <= FAT_BOUNCE_SECTORS && at + batch <= buf.Length && lba + batch <= |card.sectors|
      modifies card, buf, bounce
      ensures Valid()
      ensures var got := CardRead(card.fates, old(card.Value()), lba, batch);
              && card.Value() == got.card && ok == got.ok
              && buf[..] == (if got.ok then Overlay(old(buf[..]), at, got.data) else old(buf[..]))
    {
      ok := card.ReadSectors(bounce, lba, batch);
      if ok {
        CopySectors(buf, at, bounce, 0, batch);
      }
    }

    /** fat_part_write */
    method Write(buf: array<Sector>, sector: nat, count: nat, dmaCapable: bool) returns (ok: bool)
      requires Valid() && buf != bounce
      requires count <= buf.Length && lbaOff + sector + count <= |card.sectors|
      modifies card, bounce
      ensures Valid()
      ensures FatReply(card.Value(), ok, [])
              == PartWrite(card.fates, old(card.Value()), lbaOff + sector, buf[..count], dmaCapable)
    {
      hide CardRead, CardWrite, Overlay, ReadBatches, WriteBatches, Start;
      StartIs(lbaOff, sector);
      var lba := Start(lbaOff, sector);
      if dmaCapable {
        ok := card.WriteSectors(buf, lba, count);
        return;
      }
      ok := WriteBounced(buf, lba, count);
    }

    /** The loop of fat_part_write over batches. */
    method WriteBounced(buf: array<Sector>, lba: nat, count: nat) returns (ok: bool)
      requires Valid() && buf != bounce
      requires count <= buf.Length && lba + count <= |card.sectors|
      modifies card, bounce
      ensures Valid()
      ensures FatReply(card.Value(), ok, [])
              == WriteBatches(card.fates, old(card.Value()), buf[..count], lba, 0)
    {
      hide CardRead, CardWrite, Overlay;
      ghost var out := WriteBatches(card.fates, card.Value(), buf[..count], lba, 0);
      var done := 0;
      while done < count
        invariant done <= count
        invariant |card.sectors| == old(|card.sectors|)
        invariant WriteBatches(card.fates, card.Value(), buf[..count], lba, done) == out
      {
        var batch := Batch(done, count);
        FillBounce(buf, done, batch);
        SliceOfSlice(buf[..], 0, count, done, batch);
        ok := card.WriteSectors(bounce, lba + done, batch);
        if !ok {
          return;
        }
        done := done + batch;
      }
      ok := true;
    }

    /** memcpy of a batch of `buf` to the front of the bounce buffer. */
    method FillBounce(buf: array<Sector>, done: nat, batch: nat)
      requires bounce.Length == FAT_BOUNCE_SECTORS && buf != bounce
      requires batch <= FAT_BOUNCE_SECTORS && done + batch <= buf.Length
      modifies bounce
      ensures bounce[..batch] == buf[done..done + batch]
    {
      CopySectors(bounce, 0, buf, done, batch);
      forall i | 0 <= i < batch ensures bounce[..batch][i] == buf[done..done + batch][i] {
        assert bounce[i] == bounce[..][i];
      }
    }

    /** fat_part_ioctl(GET_SECTOR_COUNT): as many sectors as there are from the partition's
        start to the end of the card, modulo 2^32. */
    method SectorCount() returns (n: nat)
      requires Valid()
      ensures n == Reported(|card.sectors|, lbaOff)
      ensures n < TWO_TO_THE_32 && (lbaOff + n - |card.sectors|) % TWO_TO_THE_32 == 0
      ensures lbaOff <= |card.sectors| ==> lbaOff + n == |card.sectors|
    {
      n := U32(U64(|card.sectors| - lbaOff));
    }
  }

  ghost predicate RequestStays(capacity: nat, lbaOff: nat, sector: nat, count: nat) {
    1 <= count && sector + count <= Reported(capacity, lbaOff) ==>
      lbaOff <= Start(lbaOff, sector) && Start(lbaOff, sector) + count <= capacity
  }

  /** Every non-empty request within the reported size stays between the partition's start and
      the end of the card if and only if the partition starts on the card, or so far beyond
      it that the reported size is zero. */
  lemma ReportedWindowIff(capacity: nat, lbaOff: nat)
    requires capacity < TWO_TO_THE_32 && lbaOff < TWO_TO_THE_64
    ensures (forall sector: nat, count: nat :: RequestStays(capacity, lbaOff, sector, count))
            <==> lbaOff <= capacity || (lbaOff - capacity) % TWO_TO_THE_32 == 0
  {
    hide Reported, Start;
    ReportedIs(capacity, lbaOff);
    if lbaOff <= capacity || (lbaOff - capacity) % TWO_TO_THE_32 == 0 {
      forall sector: nat, count: nat ensures RequestStays(capacity, lbaOff, sector, count) {
        StartIs(lbaOff, sector);
      }
    } else {
      StartIs(lbaOff, 0);
      assert !RequestStays(capacity, lbaOff, 0, 1);
    }
  }

  lemma ReportedIs(capacity: nat, lbaOff: nat)
    requires capacity < TWO_TO_THE_32 && lbaOff < TWO_TO_THE_64
    ensures lbaOff <= capacity ==> Reported(capacity, lbaOff) == capacity - lbaOff
    ensures lbaOff > capacity ==> (Reported(capacity, lbaOff) == 0 <==> (lbaOff - capacity) % TWO_TO_THE_32 == 0)
  {
    if lbaOff > capacity {
      ModOfNegation(lbaOff - capacity);
      assert 0 - (lbaOff - capacity) == capacity - lbaOff;
    }
  }

  /** Cutting to 64 and then to 32 bits a number below zero by x. */
  lemma ModOfNegation(x: int)
    requires 0 < x < TWO_TO_THE_64
    ensures U32(U64(0 - x)) == 0 <==> x % TWO_TO_THE_32 == 0
  {
    var p, s := x / TWO_TO_THE_32, x % TWO_TO_THE_32;
    assert U64(0 - x) == TWO_TO_THE_64 - x;
    var c, rest := if s == 0 then TWO_TO_THE_32 - p else TWO_TO_THE_32 - p - 1, if s == 0 then 0 else TWO_TO_THE_32 - s;
    assert TWO_TO_THE_64 - x == TWO_TO_THE_32 * c + rest;
    RestOf32(c, rest);
  }

  lemma RestOf32(c: int, rest: nat)
    requires rest < TWO_TO_THE_32
    ensures U32(TWO_TO_THE_32 * c + rest) == rest
  {
  }

  lemma StartIs(lbaOff: nat, sector: nat)
    ensures lbaOff + sector < TWO_TO_THE_32 ==> Start(lbaOff, sector) == lbaOff + sector
    ensures Start(lbaOff, sector) <= lbaOff + sector
  {
  }

  /** Every batch is one transaction of 1 to 8 sectors inside the request. */
  ghost predicate IsBatch(tx: Transaction, lba: nat, n: nat) {
    match tx
    case ReadTx(at, count, _) => 1 <= count <= 8 && lba <= at && at + count <= lba + n
    case WriteTx(at, data, _) => 1 <= |data| <= 8 && lba <= at && at + |data| <= lba + n
  }

  ghost predicate AreBatches(log: seq<Transaction>, from: nat, lba: nat, n: nat) {
    forall k :: from <= k < |log| ==> IsBatch(log[k], lba, n)
  }

  /** The transactions of a bounced read: ceil(count / 8) of them if it succeeds. */
  lemma {:induction false} ReadBatchesCost(fates: Fates, card: Card, buf: seq<Sector>, lba: nat, done: nat, count: nat)
    requires done <= count <= |buf| && lba + count <= |card.sectors|
    ensures var r := ReadBatches(fates, card, buf, lba, done, count);
            && card.log <= r.card.log && AreBatches(r.card.log, |card.log|, lba, count)
            && (r.ok ==> |r.card.log| == |card.log| + (count - done + 7) / 8)
    decreases count - done
  {
    hide Overlay;
    if done < count {
      var batch := Batch(done, count);
      var got := CardRead(fates, card, lba + done, batch);
      if got.ok {
        ReadBatchesCost(fates, got.card, Overlay(buf, done, got.data), lba, done + batch, count);
      }
    }
  }

  /** `after` is `before` with the sectors from..upto of the request at lba filled in. */
  ghost predicate Filled(before: seq<Sector>, after: seq<Sector>, sectors: seq<Sector>, lba: nat, from: nat, upto: nat)
    requires from <= upto <= |before| && lba + upto <= |sectors|
  {
    && |after| == |before|
    && (forall k :: from <= k < upto ==> after[k] == sectors[lba + k])
    && (forall k :: 0 <= k < |before| && !(from <= k < upto) ==> after[k] == before[k])
  }

  /** A bounced read fills whole batches in order: all of them if it succeeds, else the
      b batches before the one that failed, and nothing else of the caller's buffer. */
  lemma {:induction false} ReadBatchesFill(fates: Fates, card: Card, buf: seq<Sector>, lba: nat, done: nat, count: nat)
    returns (b: nat)
    requires done <= count <= |buf| && lba + count <= |card.sectors|
    ensures var r := ReadBatches(fates, card, buf, lba, done, count);
            var end := if r.ok then count else done + 8 * b;
            && r.card.sectors == card.sectors
            && (!r.ok ==> end < count && |r.card.log| == |card.log| + b + 1)
            && Filled(buf, r.buf, card.sectors, lba, done, end)
    decreases count - done
  {
    hide Overlay, Filled;
    b := 0;
    NothingFilled(buf, card.sectors, lba, done);
    if done < count {
      var mid := done + Batch(done, count);
      var got := CardRead(fates, card, lba + done, Batch(done, count));
      if got.ok {
        var buf' := Overlay(buf, done, got.data);
        var b' := ReadBatchesFill(fates, got.card, buf', lba, mid, count);
        b := b' + 1;
        var r := ReadBatches(fates, card, buf, lba, done, count);
        JoinFilled(buf, r.buf, card.sectors, lba, done, mid, if r.ok then count else done + 8 * b);
      }
    }
  }

  lemma NothingFilled(buf: seq<Sector>, sectors: seq<Sector>, lba: nat, done: nat)
    requires done <= |buf| && lba + done <= |sectors|
    ensures Filled(buf, buf, sectors, lba, done, done)
  {
  }

  /** A batch, and what is filled in after it. */
  lemma JoinFilled(buf: seq<Sector>, after: seq<Sector>, sectors: seq<Sector>, lba: nat, from: nat, mid: nat, upto: nat)
    requires from <= mid <= upto <= |buf| && lba + upto <= |sectors|
    requires Filled(Overlay(buf, from, sectors[lba + from..lba + mid]), after, sectors, lba, mid, upto)
    ensures Filled(buf, after, sectors, lba, from, upto)
  {
    hide Overlay;
  }

  /** The transactions of a bounced write. */
  lemma {:induction false} WriteBatchesCost(fates: Fates, card: Card, data: seq<Sector>, lba: nat, done: nat)
    requires done <= |data| && lba + |data| <= |card.sectors|
    ensures var r := WriteBatches(fates, card, data, lba, done);
            && card.log <= r.card.log && AreBatches(r.card.log, |card.log|, lba, |data|)
            && (r.ok ==> |r.card.log| == |card.log| + (|data| - done + 7) / 8)
    decreases |data| - done
  {
    hide Overlay;
    if done < |data| {
      var batch := Batch(done, |data|);
      var put := CardWrite(fates, card, lba + done, data[done..done + batch]);
      if put.ok {
        WriteBatchesCost(fates, put.card, data, lba, done + batch);
      }
    }
  }

  /** `after` holds data[from..upto] on top of `before`, at lba, and is otherwise `before`
      except for the `wrecked` sectors that follow. */
  ghost predicate Landed(before: seq<Sector>, after: seq<Sector>, data: seq<Sector>, lba: nat, from: nat,
                         upto: nat, wrecked: nat)
    requires from <= upto <= |data| && lba + |data| <= |before|
  {
    && |after| == |before|
    && (forall s :: lba + from <= s < lba + upto ==> after[s] == data[s - lba])
    && (forall s :: 0 <= s < lba + from ==> after[s] == before[s])
    && (forall s :: lba + upto + wrecked <= s < |before| ==> after[s] == before[s])
  }

  /** A bounced write lands in whole batches in order: all of them if it succeeds, else the
      b batches before the failed one, whose 1 to 8 sectors alone may hold anything. */
  lemma {:induction false} WriteBatchesLand(fates: Fates, card: Card, data: seq<Sector>, lba: nat, done: nat)
    returns (b: nat)
    requires done <= |data| && lba + |data| <= |card.sectors|
    ensures var r := WriteBatches(fates, card, data, lba, done);
            var end := if r.ok then |data| else done + 8 * b;
            && (!r.ok ==> end < |data| && |r.card.log| == |card.log| + b + 1)
            && end <= |data|
            && Landed(card.sectors, r.card.sectors, data, lba, done, end, if r.ok then 0 else Batch(end, |data|))
    decreases |data| - done
  {
    hide Overlay, Landed;
    b := 0;
    NothingLanded(card.sectors, data, lba, done);
    if done < |data| {
      var mid := done + Batch(done, |data|);
      var put := CardWrite(fates, card, lba + done, data[done..mid]);
      if put.ok {
        var b' := WriteBatchesLand(fates, put.card, data, lba, mid);
        b := b' + 1;
        var r := WriteBatches(fates, card, data, lba, done);
        var end := if r.ok then |data| else done + 8 * b;
        JoinLanded(card.sectors, r.card.sectors, data, lba, done, mid, end, if r.ok then 0 else Batch(end, |data|));
      } else {
        OnlyWrecked(card.sectors, Junk(fates(|card.log|), lba + done, mid - done), data, lba, done);
      }
    }
  }

  lemma NothingLanded(sectors: seq<Sector>, data: seq<Sector>, lba: nat, done: nat)
    requires done <= |data| && lba + |data| <= |sectors|
    ensures Landed(sectors, sectors, data, lba, done, done, 0)
  {
  }

  lemma OnlyWrecked(sectors: seq<Sector>, junk: seq<Sector>, data: seq<Sector>, lba: nat, done: nat)
    requires done + |junk| <= |data| && lba + |data| <= |sectors|
    ensures Landed(sectors, Overlay(sectors, lba + done, junk), data, lba, done, done, |junk|)
  {
    hide Overlay;
  }

  /** A batch, and what lands after it. */
  lemma JoinLanded(sectors: seq<Sector>, after: seq<Sector>, data: seq<Sector>, lba: nat, from: nat, mid: nat,
                   upto: nat, wrecked: nat)
    requires from <= mid <= upto <= |data| && lba + |data| <= |sectors|
    requires Landed(Overlay(sectors, lba + from, data[from..mid]), after, data, lba, mid, upto, wrecked)
    ensures Landed(sectors, after, data, lba, from, upto, wrecked)
  {
    hide Overlay;
  }

  /** Both paths of a read: they serve the card's sectors, and agree. */
  lemma PartReadServes(fates: Fates, card: Card, lba: nat, buf: seq<Sector>, count: nat, dmaCapable: bool)
    requires count <= |buf| && lba + count <= |card.sectors|
    ensures var r := PartRead(fates, card, lba, buf, count, dmaCapable);
            && r.card.sectors == card.sectors
            && (r.ok ==> r.buf == Overlay(buf, 0, card.sectors[lba..lba + count]))
  {
    if !dmaCapable {
      hide Overlay, ReadBatches;
      var b := ReadBatchesFill(fates, card, buf, lba, 0, count);
    }
  }

  /** How many sectors of a write request of n have landed, seen from its outcome and the
      number of its transactions: all, none, or the whole batches before the last. */
  function LandedCount(n: nat, dmaCapable: bool, ok: bool, transactions: nat): (r: nat) {
    if ok then n else if dmaCapable || transactions == 0 then 0 else 8 * (transactions - 1)
  }

  /** How many sectors after those may hold anything: those of the failed transaction. */
  function WreckedCount(n: nat, dmaCapable: bool, ok: bool, landed: nat): (r: nat)
    requires landed <= n
    ensures landed + r <= n
  {
    if ok then 0 else if dmaCapable then n - landed else Batch(landed, n)
  }

  /** Both paths of a write put the data there; a failed write leaves the sectors landed so
      far with the data, those of one transaction in doubt and all others untouched. */
  lemma PartWriteLands(fates: Fates, card: Card, lba: nat, data: seq<Sector>, dmaCapable: bool)
    requires lba + |data| <= |card.sectors|
    ensures var r := PartWrite(fates, card, lba, data, dmaCapable);
            && |card.log| <= |r.card.log|
            && var landed := LandedCount(|data|, dmaCapable, r.ok, |r.card.log| - |card.log|);
            && landed <= |data|
            && Landed(card.sectors, r.card.sectors, data, lba, 0, landed,
                      WreckedCount(|data|, dmaCapable, r.ok, landed))
  {
    if !dmaCapable {
      hide Overlay, WriteBatches;
      var b := WriteBatchesLand(fates, card, data, lba, 0);
      WriteBatchesCost(fates, card, data, lba, 0);
    }
  }

  /** Without faults every request succeeds; a bounced one costs ceil(count / 8)
      transactions and a direct one costs one. */
  lemma FaultFreeCosts(fates: Fates, card: Card, lba: nat, buf: seq<Sector>, data: seq<Sector>, count: nat,
                       dmaCapable: bool)
    requires FaultFree(fates) && count <= |buf| && lba + count <= |card.sectors| && lba + |data| <= |card.sectors|
    ensures var r := PartRead(fates, card, lba, buf, count, dmaCapable);
            var w := PartWrite(fates, card, lba, data, dmaCapable);
            && r.ok && w.ok
            && |r.card.log| - |card.log| == (if dmaCapable then 1 else (count + 7) / 8)
            && |w.card.log| - |card.log| == (if dmaCapable then 1 else (|data| + 7) / 8)
  {
    if !dmaCapable {
      BatchesSucceed(fates, card, buf, data, lba, 0, 0, count);
      ReadBatchesCost(fates, card, buf, lba, 0, count);
      WriteBatchesCost(fates, card, data, lba, 0);
    }
  }

  lemma {:induction false} BatchesSucceed(fates: Fates, card: Card, buf: seq<Sector>, data: seq<Sector>, lba: nat,
                                          i: nat, j: nat, count: nat)
    requires FaultFree(fates) && i <= count <= |buf| && lba + count <= |card.sectors|
    requires j <= |data| && lba + |data| <= |card.sectors|
    ensures ReadBatches(fates, card, buf, lba, i, count).ok && WriteBatches(fates, card, data, lba, j).ok
    decreases count - i, |data| - j
  {
    hide Overlay;
    if i < count {
      var got := CardRead(fates, card, lba + i, Batch(i, count));
      BatchesSucceed(fates, got.card, Overlay(buf, i, got.data), data, lba, i + Batch(i, count), |data|, count);
      BatchesSucceed(fates, card, buf, data, lba, count, j, count);
    } else if j < |data| {
      var put := CardWrite(fates, card, lba + j, data[j..j + Batch(j, |data|)]);
      BatchesSucceed(fates, put.card, buf, data, lba, count, j + Batch(j, |data|), count);
    }
  }
}
