/** Sectors, runs of sectors, and the 32-bit and 64-bit casts the drivers use. */
module Sectors {

  newtype byte = x: int | 0 <= x < 256

  const SECTOR_SIZE: nat := 512

  type Sector = s: seq<byte> | |s| == SECTOR_SIZE witness seq(512, _ => 0)

  const TWO_TO_THE_32: nat := 0x1_0000_0000
  const TWO_TO_THE_64: nat := 0x1_0000_0000_0000_0000

  /** A cast to `uint32_t` or to the 32-bit `size_t`. */
  function U32(x: int): (r: nat)
    ensures 0 <= x < TWO_TO_THE_32 ==> r == x
  {
    x % TWO_TO_THE_32
  }

  /** A cast to `uint64_t`. */
  function U64(x: int): (r: nat)
    ensures 0 <= x < TWO_TO_THE_64 ==> r == x
  {
    x % TWO_TO_THE_64
  }

  /** `base` with `data` laid over it from position `at`. */
  function Overlay<T>(base: seq<T>, at: nat, data: seq<T>): (r: seq<T>)
    requires at + |data| <= |base|
    ensures |r| == |base|
    ensures forall i :: 0 <= i < |base| ==> r[i] == if at <= i < at + |data| then data[i - at] else base[i]
  {
    seq(|base|, i requires 0 <= i < |base| => if at <= i < at + |data| then data[i - at] else base[i])
  }

  lemma OverlayAppend<T>(base: seq<T>, at: nat, a: seq<T>, b: seq<T>)
    requires at + |a| + |b| <= |base|
    ensures Overlay(base, at, a + b) == Overlay(Overlay(base, at, a), at + |a|, b)
  {
  }

  lemma SliceOfSlice<T>(s: seq<T>, at: nat, n: nat, from: nat, len: nat)
    requires at + n <= |s| && from + len <= n
    ensures s[at..at + n][from..from + len] == s[at + from..at + from + len]
  {
    var x, y := s[at..at + n][from..from + len], s[at + from..at + from + len];
    forall i | 0 <= i < len ensures x[i] == y[i] {
    }
  }

  /** memcpy between two distinct sector buffers, counted in sectors. */
  method CopySectors(dst: array<Sector>, dstAt: nat, src: array<Sector>, srcAt: nat, n: nat)
    requires dst != src
    requires dstAt + n <= dst.Length && srcAt + n <= src.Length
    modifies dst
    ensures dst[..] == Overlay(old(dst[..]), dstAt, src[srcAt..srcAt + n])
  {
    forall i | 0 <= i < n {
      dst[dstAt + i] := src[srcAt + i];
    }
  }
}

/** The SD/eMMC card behind the drivers.  The SDMMC driver itself is not part of this
    model: it is represented by what one transaction may do to the card and to memory. */
module SdCard {
  import opened Sectors

  /** What happens to one transaction.  A failed transaction may leave anything in its
      target range: sector i of the target becomes junk(i), for an arbitrary junk. */
  datatype Fate = Completes | Fails(junk: nat -> Sector)

  /** Fixes the outcome of every transaction by its number.  Theorems quantify over it. */
  type Fates = nat -> Fate

  ghost predicate FaultFree(fates: Fates) {
    forall n :: fates(n).Completes?
  }

  datatype Transaction =
    | WriteTx(lba: nat, data: seq<Sector>, ok: bool)
    | ReadTx(lba: nat, count: nat, ok: bool)

  /** The card's contents together with every transaction issued so far. */
  datatype Card = Card(sectors: seq<Sector>, log: seq<Transaction>)

  datatype Written = Written(card: Card, ok: bool)
  datatype Fetched = Fetched(card: Card, data: seq<Sector>, ok: bool)

  /** n sectors of junk, numbered from `from`. */
  function Junk(fate: Fate, from: nat, n: nat): (r: seq<Sector>)
    requires fate.Fails?
    ensures |r| == n
  {
    seq(n, i requires 0 <= i < n => fate.junk(from + i))
  }

  lemma JunkAt(fate: Fate, from: nat, n: nat, i: nat)
    requires fate.Fails? && i < n
    ensures Junk(fate, from, n)[i] == fate.junk(from + i)
  {
  }

  function CardWrite(fates: Fates, card: Card, lba: nat, data: seq<Sector>): (r: Written)
    requires lba + |data| <= |card.sectors|
    ensures |r.card.sectors| == |card.sectors|
  {
    var fate := fates(|card.log|);
    var landed := if fate.Completes? then data else Junk(fate, lba, |data|);
    Written(Card(Overlay(card.sectors, lba, landed), card.log + [WriteTx(lba, data, fate.Completes?)]),
            fate.Completes?)
  }

  function CardRead(fates: Fates, card: Card, lba: nat, n: nat): (r: Fetched)
    requires lba + n <= |card.sectors|
    ensures |r.data| == n && r.card.sectors == card.sectors
  {
    var fate := fates(|card.log|);
    Fetched(card.(log := card.log + [ReadTx(lba, n, fate.Completes?)]),
            if fate.Completes? then card.sectors[lba..lba + n] else Junk(fate, lba, n),
            fate.Completes?)
  }

  datatype SectorRead = Got(card: Card, data: Sector) | Failed(card: Card)

  /** A one-sector read at any address; the SDMMC driver refuses addresses beyond the card. */
  function CardReadSector(fates: Fates, card: Card, lba: nat): (r: SectorRead)
    ensures r.card.sectors == card.sectors
    ensures r.Got? <==> lba < |card.sectors| && fates(|card.log|).Completes?
    ensures r.Got? ==> r.data == card.sectors[lba]
    ensures |r.card.log| == |card.log| + if lba < |card.sectors| then 1 else 0
  {
    if lba >= |card.sectors| then Failed(card)
    else
      var got := CardRead(fates, card, lba, 1);
      if got.ok then Got(got.card, got.data[0]) else Failed(got.card)
  }

  /** The card as the drivers see it: an object whose transactions take the fates in turn. */
  class SdmmcCard {
    const fates: Fates
    var sectors: seq<Sector>
    var log: seq<Transaction>

    constructor (fates: Fates, sectors: seq<Sector>)
      ensures this.fates == fates && Value() == Card(sectors, [])
    {
      this.fates := fates;
      this.sectors := sectors;
      this.log := [];
    }

    function Value(): Card
      reads this
    {
      Card(sectors, log)
    }

    /** sdmmc_write_sectors */
    method WriteSectors(src: array<Sector>, lba: nat, n: nat) returns (ok: bool)
      requires n <= src.Length && lba + n <= |sectors|
      modifies this
      ensures Written(Value(), ok) == CardWrite(fates, old(Value()), lba, src[..n])
    {
      var out := CardWrite(fates, Value(), lba, src[..n]);
      sectors, log, ok := out.card.sectors, out.card.log, out.ok;
    }

    /** sdmmc_read_sectors */
    method ReadSectors(dst: array<Sector>, lba: nat, n: nat) returns (ok: bool)
      requires n <= dst.Length && lba + n <= |sectors|
      modifies this, dst
      ensures Fetched(Value(), dst[..n], ok) == CardRead(fates, old(Value()), lba, n)
      ensures dst[n..] == old(dst[n..])
    {
      var out := CardRead(fates, Value(), lba, n);
      sectors, log, ok := out.card.sectors, out.card.log, out.ok;
      forall i | 0 <= i < n {
        dst[i] := out.data[i];
      }
    }

    /** sdmmc_read_sectors for one sector and a 512-byte buffer. */
    method ReadSector(buf: array<byte>, lba: nat) returns (ok: bool)
      requires buf.Length == SECTOR_SIZE
      modifies this, buf
      ensures var r := CardReadSector(fates, old(Value()), lba);
              && Value() == r.card && ok == r.Got?
              && (ok ==> buf[..] == r.data)
    {
      if lba >= |sectors| {
        return false;
      }
      var sector := new Sector[1];
      ok := ReadSectors(sector, lba, 1);
      forall i | 0 <= i < SECTOR_SIZE {
        buf[i] := sector[0][i];
      }
      assert sector[..1][0] == sector[0] == buf[..];
    }
  }
}
