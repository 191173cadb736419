/** The write-coalescing block device (lwext4_blockdev.c): the state machine that its
    callbacks implement, and the callbacks themselves over mutable buffers. */
module BlockDevice {
  import opened Sectors
  import opened SdCard

  const WBUF_SECTORS: nat := 128
  const WBUF_BYTES: nat := WBUF_SECTORS * SECTOR_SIZE

  datatype Status = EOK | EIO | InvalidArg | NoMem | Fail

  /** `pending` is the live part of the coalescing buffer: slot i belongs at sector `sec` + i.
      The rest of the buffer is scratch space and has no counterpart here. */
  datatype Driver = Driver(card: Card, attached: bool, registered: bool, hasDmaBuf: bool, hasWbuf: bool,
                           sec: nat, pending: seq<Sector>)

  /** What holds between any two calls. */
  ghost predicate DriverOk(d: Driver) {
    && |d.card.sectors| < TWO_TO_THE_32
    && d.sec + |d.pending| <= |d.card.sectors|
    && |d.pending| < WBUF_SECTORS
    && (d.pending != [] ==> d.attached && d.hasWbuf && d.registered)
    && (d.registered ==> d.attached && d.hasDmaBuf)
  }

  /** The disk that lwext4 believes in: the card with the pending sectors laid over it. */
  ghost function Logical(d: Driver): (r: seq<Sector>)
    requires d.sec + |d.pending| <= |d.card.sectors|
  {
    Overlay(d.card.sectors, d.sec, d.pending)
  }

  datatype Reply = Reply(driver: Driver, rc: Status, buf: seq<Sector>)

  ghost function Flush(fates: Fates, d: Driver): (r: Reply)
    requires d.sec + |d.pending| <= |d.card.sectors|
  {
    if |d.pending| == 0 then
      Reply(d, EOK, [])
    else
      var w := CardWrite(fates, d.card, d.sec, d.pending);
      Reply(d.(card := w.card, pending := []), if w.ok then EOK else EIO, [])
  }

  ghost predicate Overlaps(d: Driver, blk: nat, n: nat) {
    d.pending != [] && blk < d.sec + |d.pending| && blk + n > d.sec
  }

  datatype Bounced = Bounced(card: Card, buf: seq<Sector>, ok: bool)

  /** Sectors i..n of the request, read one by one until a read fails. */
  ghost function ReadSingly(fates: Fates, card: Card, buf: seq<Sector>, blk: nat, i: nat, n: nat): (r: Bounced)
    requires i <= n <= |buf| && blk + n <= |card.sectors|
    ensures r.card.sectors == card.sectors && |r.buf| == |buf|
    decreases n - i
  {
    if i == n then
      Bounced(card, buf, true)
    else
      var got := CardRead(fates, card, blk + i, 1);
      if got.ok then ReadSingly(fates, got.card, Overlay(buf, i, got.data), blk, i + 1, n)
      else Bounced(got.card, buf, false)
  }

  /** bdev_bread once nothing pending overlaps the request: through the coalescing buffer,
      through the sector buffer, or directly. */
  ghost function ReadClear(fates: Fates, d: Driver, buf: seq<Sector>, blk: nat, n: nat, dmaCapable: bool): (r: Reply)
    requires d.sec + |d.pending| <= |d.card.sectors| && n <= |buf| && blk + n <= |d.card.sectors|
  {
    if !dmaCapable && d.hasWbuf && n * SECTOR_SIZE <= WBUF_BYTES then
      var flushed := Flush(fates, d);
      if flushed.rc != EOK then
        flushed.(buf := buf)
      else
        var got := CardRead(fates, flushed.driver.card, blk, n);
        Reply(flushed.driver.(card := got.card), if got.ok then EOK else EIO,
              if got.ok then Overlay(buf, 0, got.data) else buf)
    else if !dmaCapable then
      var out := ReadSingly(fates, d.card, buf, blk, 0, n);
      Reply(d.(card := out.card), if out.ok then EOK else EIO, out.buf)
    else
      var got := CardRead(fates, d.card, blk, n);
      Reply(d.(card := got.card), if got.ok then EOK else EIO, Overlay(buf, 0, got.data))
  }

  ghost function Read(fates: Fates, d: Driver, buf: seq<Sector>, blk: nat, n: nat, dmaCapable: bool): (r: Reply)
    requires DriverOk(d) && n <= |buf| && blk + n <= |d.card.sectors|
  {
    var first := if Overlaps(d, blk, n) then Flush(fates, d) else Reply(d, EOK, []);
    if first.rc != EOK then first.(buf := buf)
    else ReadClear(fates, first.driver, buf, blk, n, dmaCapable)
  }

  ghost function WriteThrough(fates: Fates, d: Driver, blk: nat, data: seq<Sector>): (r: Reply)
    requires blk + |data| <= |d.card.sectors|
  {
    var w := CardWrite(fates, d.card, blk, data);
    Reply(d.(card := w.card), if w.ok then EOK else EIO, [])
  }

  ghost predicate Extends(d: Driver, blk: nat, n: nat) {
    |d.pending| > 0 && blk == d.sec + |d.pending| && |d.pending| + n <= WBUF_SECTORS
  }

  /** A write that does not extend the buffer: flush it, then write directly or start anew. */
  ghost function WriteAfresh(fates: Fates, d: Driver, blk: nat, data: seq<Sector>): (r: Reply)
    requires d.sec + |d.pending| <= |d.card.sectors| && blk + |data| <= |d.card.sectors|
  {
    var first := Flush(fates, d);
    if first.rc != EOK then first
    else if |data| >= WBUF_SECTORS then WriteThrough(fates, first.driver, blk, data)
    else Reply(first.driver.(sec := blk, pending := data), EOK, [])
  }

  ghost function Write(fates: Fates, d: Driver, blk: nat, data: seq<Sector>): (r: Reply)
    requires DriverOk(d) && blk + |data| <= |d.card.sectors|
  {
    if !d.hasWbuf then
      WriteThrough(fates, d, blk, data)
    else if Extends(d, blk, |data|) then
      var grown := d.(pending := d.pending + data);
      if |grown.pending| >= WBUF_SECTORS then Flush(fates, grown) else Reply(grown, EOK, [])
    else
      WriteAfresh(fates, d, blk, data)
  }

  /** lwext4_blockdev_init; the flags say whether the card pointer is NULL, whether each
      allocation would succeed and whether lwext4 accepts the registration. */
  ghost function Init(d: Driver, cardNull: bool, dmaAlloc: bool, wbufAlloc: bool, regOk: bool): (r: Reply) {
    if cardNull then
      Reply(d, InvalidArg, [])
    else if !d.hasDmaBuf && !dmaAlloc then
      Reply(d.(attached := true), NoMem, [])
    else
      var ready := d.(attached := true, hasDmaBuf := true, hasWbuf := d.hasWbuf || wbufAlloc, sec := 0, pending := []);
      if regOk then Reply(ready.(registered := true), EOK, []) else Reply(ready, Fail, [])
  }

  /** lwext4_blockdev_deinit: it does not look at the outcome of its flush. */
  ghost function Deinit(fates: Fates, d: Driver): (r: Reply)
    requires DriverOk(d)
  {
    Reply(Flush(fates, d).driver.(attached := false, registered := false, hasDmaBuf := false, hasWbuf := false),
          EOK, [])
  }

  /** The bytes of the card that lwext4 is told to use. */
  datatype Window = Window(offset: nat, size: nat)

  /** lwext4_blockdev_set_partition in 64-bit arithmetic; a zero count leaves the size alone. */
  function PartWindow(oldSize: nat, lbaStart: nat, sectorCount: nat): (r: Window) {
    Window(U64(lbaStart * SECTOR_SIZE), if sectorCount > 0 then U64(sectorCount * SECTOR_SIZE) else oldSize)
  }

  /** Start and size of the window are the ones given, in bytes, as long as they are below
      2^55 sectors; what exceeds that is cut off. */
  lemma WindowIs(oldSize: nat, lbaStart: nat, sectorCount: nat)
    ensures var w := PartWindow(oldSize, lbaStart, sectorCount);
            && w.offset == lbaStart % 0x80_0000_0000_0000 * 512
            && w.size == if sectorCount == 0 then oldSize else sectorCount % 0x80_0000_0000_0000 * 512
  {
    hide U64;
    ScaledRest(lbaStart);
    ScaledRest(sectorCount);
  }

  lemma ScaledRest(x: nat)
    ensures U64(x * SECTOR_SIZE) == x % 0x80_0000_0000_0000 * 512
  {
    var p, s := x / 0x80_0000_0000_0000, x % 0x80_0000_0000_0000;
    assert x == 0x80_0000_0000_0000 * p + s;
    RestOf64(p, s * 512);
  }

  lemma RestOf64(c: nat, rest: nat)
    requires rest < TWO_TO_THE_64
    ensures U64(TWO_TO_THE_64 * c + rest) == rest
  {
  }

  /** Right after init the window set lies on the card exactly when the partition does, but a
      zero count does not mean "to the end of the card": it fits at offset 0 only. */
  lemma WindowOnCardIff(capacity: nat, lbaStart: nat, sectorCount: nat)
    requires capacity < TWO_TO_THE_32
    requires lbaStart * SECTOR_SIZE < TWO_TO_THE_64 && sectorCount * SECTOR_SIZE < TWO_TO_THE_64
    ensures var w := PartWindow(capacity * SECTOR_SIZE, lbaStart, sectorCount);
            w.offset + w.size <= capacity * SECTOR_SIZE <==>
              if sectorCount == 0 then lbaStart == 0 else lbaStart + sectorCount <= capacity
  {
    var w := PartWindow(capacity * SECTOR_SIZE, lbaStart, sectorCount);
    assert w.offset == lbaStart * 512;
  }

  /** When init returns which code, and what it leaves behind: registered exactly if it
      returned EOK or was before, buffers once the sector buffer is there, and what is pending
      gone as soon as it gets past the allocations. */
  lemma InitOutcome(d: Driver, cardNull: bool, dmaAlloc: bool, wbufAlloc: bool, regOk: bool)
    ensures var r := Init(d, cardNull, dmaAlloc, wbufAlloc, regOk);
            var d' := r.driver;
            && (r.rc == InvalidArg <==> cardNull)
            && (r.rc == NoMem <==> !cardNull && !d.hasDmaBuf && !dmaAlloc)
            && (r.rc == Fail <==> !cardNull && (d.hasDmaBuf || dmaAlloc) && !regOk)
            && (r.rc == EOK <==> !cardNull && (d.hasDmaBuf || dmaAlloc) && regOk)
            && (d'.registered <==> d.registered || r.rc == EOK)
            && (d'.attached <==> d.attached || r.rc != InvalidArg)
            && (d'.hasDmaBuf <==> d.hasDmaBuf || r.rc in {EOK, Fail})
            && (d'.hasWbuf <==> d.hasWbuf || (wbufAlloc && r.rc in {EOK, Fail}))
            && d'.card == d.card
            && (d'.sec, d'.pending) == if r.rc in {EOK, Fail} then (0, []) else (d.sec, d.pending)
  {
  }

  lemma ReadKeepsOk(fates: Fates, d: Driver, buf: seq<Sector>, blk: nat, n: nat, dmaCapable: bool)
    requires DriverOk(d) && n <= |buf| && blk + n <= |d.card.sectors|
    ensures DriverOk(Read(fates, d, buf, blk, n, dmaCapable).driver)
  {
  }

  lemma WriteKeepsOk(fates: Fates, d: Driver, blk: nat, data: seq<Sector>)
    requires DriverOk(d) && d.registered && blk + |data| <= |d.card.sectors|
    ensures DriverOk(Write(fates, d, blk, data).driver)
  {
  }

  lemma InitKeepsOk(d: Driver, cardNull: bool, dmaAlloc: bool, wbufAlloc: bool, regOk: bool)
    requires DriverOk(d)
    ensures DriverOk(Init(d, cardNull, dmaAlloc, wbufAlloc, regOk).driver)
  {
  }

  /** The static state of lwext4_blockdev.c and its callbacks. */
  class Lwext4BlockDevice {
    var card: SdmmcCard?
    var dmaBuf: array?<Sector>
    var wbuf: array?<Sector>
    var wbufSec: nat
    var wbufCnt: nat
    var registered: bool
    var partOffset: nat
    var partSize: nat

    constructor ()
      ensures card == null && dmaBuf == null && wbuf == null && !registered
      ensures wbufSec == 0 && wbufCnt == 0 && partOffset == 0 && partSize == 0
    {
      card, dmaBuf, wbuf, registered := null, null, null, false;
      wbufSec, wbufCnt, partOffset, partSize := 0, 0, 0, 0;
    }

    /** The buffers have their sizes and are not each other. */
    ghost predicate Shaped(slot: SdmmcCard)
      reads this
    {
      && (card == null || card == slot)
      && (wbuf != null ==> wbuf.Length == WBUF_SECTORS)
      && (dmaBuf != null ==> dmaBuf.Length == 1)
      && (wbuf != null ==> wbuf != dmaBuf)
      && wbufCnt <= WBUF_SECTORS
      && (wbufCnt > 0 ==> card != null && wbuf != null)
    }

    /** The driver state held in the fields; `slot` is the one card of the board, whether
        or not it is attached. */
    ghost function State(slot: SdmmcCard): Driver
      requires Shaped(slot)
      reads this, slot, wbuf
    {
      Driver(slot.Value(), card != null, registered, dmaBuf != null, wbuf != null, wbufSec,
             if wbuf == null then [] else wbuf[..wbufCnt])
    }

    ghost predicate Valid(slot: SdmmcCard)
      reads this, slot, wbuf
    {
      Shaped(slot) && DriverOk(State(slot))
    }

    method WbufFlush(ghost slot: SdmmcCard) returns (rc: Status)
      requires Shaped(slot)
      requires wbufSec + wbufCnt <= |slot.sectors| < TWO_TO_THE_32
      modifies `wbufCnt, slot
      ensures Shaped(slot)
      ensures Reply(State(slot), rc, []) == Flush(slot.fates, old(State(slot)))
    {
      if wbufCnt == 0 {
        return EOK;
      }
      var ok := card.WriteSectors(wbuf, U32(wbufSec), U32(wbufCnt));
      wbufCnt := 0;
      if !ok {
        return EIO;
      }
      return EOK;
    }

    method Close(ghost slot: SdmmcCard) returns (rc: Status)
      requires Valid(slot)
      modifies `wbufCnt, slot
      ensures Valid(slot)
      ensures Reply(State(slot), rc, []) == Flush(slot.fates, old(State(slot)))
    {
      rc := WbufFlush(slot);
    }

    /** `dmaCapable` is the answer of esp_ptr_dma_capable(buf).  lwext4 may pass the driver's
        own sector buffer, but that one is DMA-capable. */
    method Bread(buf: array<Sector>, blkId: nat, blkCnt: nat, dmaCapable: bool, ghost slot: SdmmcCard)
      returns (rc: Status)
      requires Valid(slot) && registered
      requires blkCnt <= buf.Length && blkId + blkCnt <= |slot.sectors|
      requires blkCnt * SECTOR_SIZE < TWO_TO_THE_32
      requires buf != wbuf && (dmaCapable || buf != dmaBuf)
      modifies `wbufCnt, slot, buf, wbuf, dmaBuf
      ensures Shaped(slot)
      ensures Reply(State(slot), rc, buf[..])
              == Read(slot.fates, old(State(slot)), old(buf[..]), blkId, blkCnt, dmaCapable)
      ensures Valid(slot)
    {
      hide ReadClear;
      ReadKeepsOk(slot.fates, State(slot), buf[..], blkId, blkCnt, dmaCapable);
      if wbufCnt > 0 && blkId < U64(wbufSec + wbufCnt) && U64(blkId + blkCnt) > wbufSec {
        rc := WbufFlush(slot);
        if rc != EOK {
          return;
        }
      }
      rc := BreadClear(buf, blkId, blkCnt, dmaCapable, slot);
    }

    /** The rest of bdev_bread, once nothing pending overlaps the request. */
    method BreadClear(buf: array<Sector>, blkId: nat, blkCnt: nat, dmaCapable: bool, ghost slot: SdmmcCard)
      returns (rc: Status)
      requires Shaped(slot) && card != null && dmaBuf != null
      requires wbufSec + wbufCnt <= |slot.sectors| < TWO_TO_THE_32
      requires blkCnt <= buf.Length && blkId + blkCnt <= |slot.sectors|
      requires blkCnt * SECTOR_SIZE < TWO_TO_THE_32
      requires buf != wbuf && (dmaCapable || buf != dmaBuf)
      modifies `wbufCnt, slot, buf, wbuf, dmaBuf
      ensures Shaped(slot)
      ensures Reply(State(slot), rc, buf[..])
              == ReadClear(slot.fates, old(State(slot)), old(buf[..]), blkId, blkCnt, dmaCapable)
    {
      hide CardWrite, CardRead, ReadSingly, Overlay;
      var nbytes := U32(blkCnt * SECTOR_SIZE);
      if !dmaCapable {
        if wbuf != null && nbytes <= WBUF_BYTES {
          rc := WbufFlush(slot);
          if rc != EOK {
            return;
          }
          var ok := card.ReadSectors(wbuf, U32(blkId), U32(blkCnt));
          if !ok {
            return EIO;
          }
          CopySectors(buf, 0, wbuf, 0, blkCnt);
          return EOK;
        }
        rc := BounceSingly(buf, blkId, blkCnt, slot);
        return;
      }
      var ok := card.ReadSectors(buf, U32(blkId), U32(blkCnt));
      assert buf[..] == buf[..blkCnt] + buf[blkCnt..];
      return if ok then EOK else EIO;
    }

    /** One turn of the loop of bdev_bread through the one-sector DMA buffer. */
    method BounceOne(buf: array<Sector>, i: nat, lba: nat, ghost slot: SdmmcCard) returns (ok: bool)
      requires Shaped(slot) && card != null && dmaBuf != null
      requires i < buf.Length && lba < |slot.sectors| < TWO_TO_THE_32
      requires buf != dmaBuf
      modifies slot, buf, dmaBuf
      ensures var got := CardRead(slot.fates, old(slot.Value()), lba, 1);
              && slot.Value() == got.card && ok == got.ok
              && buf[..] == (if got.ok then Overlay(old(buf[..]), i, got.data) else old(buf[..]))
    {
      ok := card.ReadSectors(dmaBuf, U32(lba), 1);
      if ok {
        CopySectors(buf, i, dmaBuf, 0, 1);
      }
    }

    /** The whole loop. */
    method BounceSingly(buf: array<Sector>, blkId: nat, blkCnt: nat, ghost slot: SdmmcCard) returns (rc: Status)
      requires Shaped(slot) && card != null && dmaBuf != null
      requires blkCnt <= buf.Length && blkId + blkCnt <= |slot.sectors| < TWO_TO_THE_32
      requires buf != dmaBuf
      modifies slot, buf, dmaBuf
      ensures var out := ReadSingly(slot.fates, old(slot.Value()), old(buf[..]), blkId, 0, blkCnt);
              && slot.Value() == out.card
              && rc == (if out.ok then EOK else EIO)
              && buf[..] == out.buf
    {
      hide Overlay, CardRead;
      ghost var out := ReadSingly(slot.fates, slot.Value(), buf[..], blkId, 0, blkCnt);
      var i := 0;
      while i < blkCnt
        invariant i <= blkCnt
        invariant |slot.sectors| == old(|slot.sectors|)
        invariant ReadSingly(slot.fates, slot.Value(), buf[..], blkId, i, blkCnt) == out
      {
        var ok := BounceOne(buf, i, blkId + i, slot);
        if !ok {
          return EIO;
        }
        i := i + 1;
      }
      return EOK;
    }

    /** memcpy of the first n sectors of `buf` into the coalescing buffer from slot `at`. */
    method Stage(buf: array<Sector>, at: nat, n: nat)
      requires wbuf != null && buf != wbuf && n <= buf.Length && at + n <= wbuf.Length
      modifies wbuf
      ensures wbuf[..at + n] == old(wbuf[..at]) + buf[..n]
    {
      CopySectors(wbuf, at, buf, 0, n);
      assert wbuf[..at + n] == wbuf[..][..at] + wbuf[..][at..at + n];
      assert wbuf[..][..at] == old(wbuf[..at]);
    }

    method Bwrite(buf: array<Sector>, blkId: nat, blkCnt: nat, ghost slot: SdmmcCard) returns (rc: Status)
      requires Valid(slot) && registered
      requires blkCnt <= buf.Length && blkId + blkCnt <= |slot.sectors|
      requires blkCnt * SECTOR_SIZE < TWO_TO_THE_32
      requires buf != wbuf
      modifies `wbufCnt, `wbufSec, slot, wbuf
      ensures Shaped(slot)
      ensures Reply(State(slot), rc, []) == Write(slot.fates, old(State(slot)), blkId, old(buf[..blkCnt]))
      ensures Valid(slot)
    {
      hide Overlay, CardWrite, WriteAfresh;
      ghost var d, data := State(slot), buf[..blkCnt];
      WriteKeepsOk(slot.fates, d, blkId, data);
      if wbuf == null {
        rc := WriteDirectly(buf, blkId, blkCnt, slot);
      } else if wbufCnt > 0 && blkId == U64(wbufSec + wbufCnt) && U32(wbufCnt + blkCnt) <= WBUF_SECTORS {
        Stage(buf, wbufCnt, blkCnt);
        wbufCnt := U32(wbufCnt + blkCnt);
        assert State(slot) == d.(pending := d.pending + data);
        if wbufCnt >= WBUF_SECTORS {
          rc := WbufFlush(slot);
        } else {
          rc := EOK;
        }
      } else {
        rc := BwriteAfresh(buf, blkId, blkCnt, slot);
      }
    }

    /** The second half of bdev_bwrite: the write does not extend the buffer. */
    method BwriteAfresh(buf: array<Sector>, blkId: nat, blkCnt: nat, ghost slot: SdmmcCard) returns (rc: Status)
      requires Shaped(slot) && card != null && wbuf != null && buf != wbuf
      requires wbufSec + wbufCnt <= |slot.sectors| < TWO_TO_THE_32
      requires blkCnt <= buf.Length && blkId + blkCnt <= |slot.sectors|
      modifies `wbufCnt, `wbufSec, slot, wbuf
      ensures Shaped(slot)
      ensures Reply(State(slot), rc, []) == WriteAfresh(slot.fates, old(State(slot)), blkId, old(buf[..blkCnt]))
    {
      hide Overlay, CardWrite;
      ghost var d, data := State(slot), buf[..blkCnt];
      rc := WbufFlush(slot);
      assert Reply(State(slot), rc, []) == Flush(slot.fates, d);
      if rc != EOK {
        return;
      }
      if blkCnt >= WBUF_SECTORS {
        rc := WriteDirectly(buf, blkId, blkCnt, slot);
      } else {
        wbufSec := blkId;
        Stage(buf, 0, blkCnt);
        wbufCnt := blkCnt;
        assert wbuf[..wbufCnt] == data;
      }
    }

    /** The two places where bdev_bwrite hands the caller's buffer straight to the card. */
    method WriteDirectly(buf: array<Sector>, blkId: nat, blkCnt: nat, ghost slot: SdmmcCard) returns (rc: Status)
      requires Shaped(slot) && card != null
      requires blkCnt <= buf.Length && blkId + blkCnt <= |slot.sectors| < TWO_TO_THE_32
      modifies slot
      ensures Reply(State(slot), rc, []) == WriteThrough(slot.fates, old(State(slot)), blkId, buf[..blkCnt])
    {
      var ok := card.WriteSectors(buf, U32(blkId), U32(blkCnt));
      rc := if ok then EOK else EIO;
    }

    /** The two allocations of lwext4_blockdev_init; the second is not tried if the first
        fails. */
    method AllocateBuffers(dmaAlloc: bool, wbufAlloc: bool) returns (haveDmaBuf: bool)
      requires dmaBuf != null ==> dmaBuf.Length == 1
      requires wbuf != null ==> wbuf.Length == WBUF_SECTORS && wbuf != dmaBuf
      modifies `dmaBuf, `wbuf
      ensures haveDmaBuf == (dmaBuf != null) == (old(dmaBuf) != null || dmaAlloc)
      ensures dmaBuf != null ==> dmaBuf.Length == 1
      ensures wbuf != null ==> wbuf.Length == WBUF_SECTORS && wbuf != dmaBuf
      ensures old(wbuf) != null ==> wbuf == old(wbuf)
      ensures wbuf != null <==> old(wbuf) != null || (haveDmaBuf && wbufAlloc)
    {
      if dmaBuf == null {
        if !dmaAlloc {
          return false;
        }
        dmaBuf := new Sector[1];
      }
      if wbuf == null && wbufAlloc {
        wbuf := new Sector[WBUF_SECTORS];
      }
      return true;
    }

    /** `newCard` is the card of the board or NULL; the flags are as for `Init`. */
    method BlockdevInit(newCard: SdmmcCard?, dmaAlloc: bool, wbufAlloc: bool, regOk: bool, ghost slot: SdmmcCard)
      returns (rc: Status)
      requires Valid(slot) && (newCard == null || newCard == slot)
      modifies this
      ensures Shaped(slot)
      ensures Reply(State(slot), rc, []) == Init(old(State(slot)), newCard == null, dmaAlloc, wbufAlloc, regOk)
      ensures Valid(slot)
      ensures registered == (old(registered) || rc == EOK)
      ensures partOffset == old(partOffset)
      ensures partSize == if rc == EOK || rc == Fail then |slot.sectors| * SECTOR_SIZE else old(partSize)
    {
      hide DriverOk;
      InitKeepsOk(State(slot), newCard == null, dmaAlloc, wbufAlloc, regOk);
      if newCard == null {
        return InvalidArg;
      }
      card := newCard;
      var haveDmaBuf := AllocateBuffers(dmaAlloc, wbufAlloc);
      if !haveDmaBuf {
        return NoMem;
      }
      wbufSec := 0;
      wbufCnt := 0;
      partSize := U64(|newCard.sectors| * SECTOR_SIZE);
      if !regOk {
        return Fail;
      }
      registered := true;
      return EOK;
    }

    method BlockdevDeinit(ghost slot: SdmmcCard) returns (rc: Status)
      requires Valid(slot)
      modifies this, slot
      ensures Valid(slot)
      ensures Reply(State(slot), rc, []) == Deinit(slot.fates, old(State(slot)))
      ensures rc == EOK && card == null && dmaBuf == null && wbuf == null && wbufCnt == 0 && !registered
      ensures partOffset == old(partOffset) && partSize == old(partSize)
    {
      rc := WbufFlush(slot);
      registered := false;
      card := null;
      dmaBuf := null;
      wbuf := null;
      return EOK;
    }

    method SetPartition(lbaStart: nat, sectorCount: nat) returns (rc: Status)
      modifies `partOffset, `partSize
      ensures rc == EOK
      ensures Window(partOffset, partSize) == PartWindow(old(partSize), lbaStart, sectorCount)
      ensures lbaStart < 0x80_0000_0000_0000 ==> partOffset == lbaStart * 512
      ensures 0 < sectorCount < 0x80_0000_0000_0000 ==> partSize == sectorCount * 512
      ensures sectorCount == 0 ==> partSize == old(partSize)
    {
      partOffset := U64(lbaStart * SECTOR_SIZE);
      if sectorCount > 0 {
        partSize := U64(sectorCount * SECTOR_SIZE);
      }
      return EOK;
    }
  }
}
