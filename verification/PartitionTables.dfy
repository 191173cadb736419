/** Little-endian numbers in byte strings. */
module LittleEndian {
  import opened Sectors

  /** from_le_bytes */
  function Decode(bs: seq<byte>): (x: nat) {
    if bs == [] then 0 else bs[0] as nat + 256 * Decode(bs[1..])
  }

  function Encode(x: nat, n: nat): (bs: seq<byte>)
    ensures |bs| == n
  {
    if n == 0 then [] else [(x % 256) as byte] + Encode(x / 256, n - 1)
  }

  function Pow256(n: nat): (p: nat)
    ensures p > 0
  {
    if n == 0 then 1 else 256 * Pow256(n - 1)
  }

  lemma {:induction false} DecodeEncode(x: nat, n: nat)
    requires x < Pow256(n)
    ensures Decode(Encode(x, n)) == x
  {
    if n > 0 {
      DecodeEncode(x / 256, n - 1);
      assert Encode(x, n)[1..] == Encode(x / 256, n - 1);
    }
  }

  lemma {:induction false} EncodeDecode(bs: seq<byte>)
    ensures Encode(Decode(bs), |bs|) == bs
  {
    if bs != [] {
      EncodeDecode(bs[1..]);
      assert Decode(bs) % 256 == bs[0] as nat && Decode(bs) / 256 == Decode(bs[1..]);
    }
  }

  lemma Encode2(x: nat)
    ensures Encode(x, 2) == [(x % 256) as byte, (x / 256 % 256) as byte]
  {
    assert Encode(x / 256, 1) == [(x / 256 % 256) as byte] + Encode(x / 256 / 256, 0);
  }

  lemma Encode4(x: nat)
    ensures Encode(x, 4) == [(x % 256) as byte, (x / 256 % 256) as byte] + Encode(x / 256 / 256, 2)
  {
    assert Encode(x / 256, 3) == [(x / 256 % 256) as byte] + Encode(x / 256 / 256, 2);
  }

  lemma {:induction false} DecodeBound(bs: seq<byte>)
    ensures Decode(bs) < Pow256(|bs|)
  {
    if bs != [] {
      DecodeBound(bs[1..]);
    }
  }

  lemma Widths()
    ensures Pow256(4) == TWO_TO_THE_32 && Pow256(8) == TWO_TO_THE_64
  {
    assert Pow256(4) == 256 * Pow256(3) == 256 * 256 * Pow256(2);
    assert Pow256(2) == 256 * Pow256(1) == 256 * 256;
    assert Pow256(8) == 256 * Pow256(7) == 256 * 256 * Pow256(6) == 256 * 256 * 256 * Pow256(5);
    assert Pow256(5) == 256 * Pow256(4);
  }
}

/** The GPT and MBR scanners (src/detect.rs). */
module PartitionTables {
  import opened Sectors
  import opened SdCard
  import LE = LittleEndian

  datatype PartitionInfo = PartitionInfo(partType: byte, lbaStart: nat, sectorCount: nat, bootable: bool)

  datatype Scan = Scan(card: Card, parts: seq<PartitionInfo>)

  /** A byte string literal. */
  function Ascii(s: string): (r: seq<byte>)
    requires forall i :: 0 <= i < |s| ==> s[i] < 128 as char
    ensures |r| == |s|
  {
    seq(|s|, i requires 0 <= i < |s| => s[i] as byte)
  }

  const GPT_SIGNATURE: seq<byte> := Ascii("EFI PART")
  const GPT_LINUX_DATA_GUID: seq<byte> :=
    [0xAF, 0x3D, 0xC6, 0x0F, 0x83, 0x84, 0x72, 0x47, 0x8E, 0x79, 0x3D, 0x69, 0xD8, 0x47, 0x7D, 0xE4]
  const GPT_EFI_SYSTEM_GUID: seq<byte> :=
    [0x28, 0x73, 0x2A, 0xC1, 0x1F, 0xF8, 0xD2, 0x11, 0xBA, 0x4B, 0x00, 0xA0, 0xC9, 0x3E, 0xC9, 0x3B]
  const GPT_MS_BASIC_DATA_GUID: seq<byte> :=
    [0xA2, 0xA0, 0xD0, 0xEB, 0xE5, 0xB9, 0x33, 0x44, 0x87, 0xC0, 0x68, 0xB6, 0xB7, 0x26, 0x99, 0xC7]

  const ENTRY_SIZE: nat := 128
  const MAX_ENTRIES: nat := 128

  /** `.min(u32::MAX)` */
  function Saturate(x: nat): (r: nat) {
    if x < TWO_TO_THE_32 then x else TWO_TO_THE_32 - 1
  }

  function Min(a: nat, b: nat): (r: nat) {
    if a <= b then a else b
  }

  function TypeCode(guid: seq<byte>): (r: byte) {
    if guid == GPT_LINUX_DATA_GUID then 0x83
    else if guid == GPT_EFI_SYSTEM_GUID then 0xEF
    else if guid == GPT_MS_BASIC_DATA_GUID then 0x0C
    else 0xFF
  }

  predicate AllZero(bs: seq<byte>) {
    forall i :: 0 <= i < |bs| ==> bs[i] == 0
  }

  /** What one 128-byte entry contributes: nothing, or one partition. */
  function EntryParts(entry: seq<byte>): (r: seq<PartitionInfo>)
    requires |entry| == ENTRY_SIZE
  {
    var first, last := LE.Decode(entry[32..40]), LE.Decode(entry[40..48]);
    if AllZero(entry[..16]) || first == 0 || last < first then []
    else [PartitionInfo(TypeCode(entry[..16]), Saturate(first), Saturate(last - first + 1), false)]
  }

  /** Entry k of the array that the sectors hold. */
  function EntryAt(sectors: seq<Sector>, k: nat): (r: seq<byte>)
    requires k < 4 * |sectors|
    ensures |r| == ENTRY_SIZE
  {
    sectors[k / 4][k % 4 * ENTRY_SIZE..k % 4 * ENTRY_SIZE + ENTRY_SIZE]
  }

  /** The flat filter-map over the first n entries. */
  function ListEntries(sectors: seq<Sector>, n: nat): (r: seq<PartitionInfo>)
    requires n <= 4 * |sectors|
    ensures n == 0 ==> r == []
  {
    if n == 0 then [] else ListEntries(sectors, n - 1) + EntryParts(EntryAt(sectors, n - 1))
  }

  datatype ReadRun = ReadRun(card: Card, sectors: seq<Sector>)

  /** Up to n consecutive sectors, until one fails to read; the address is a u64 that is cut
      to the 32-bit usize of the read call. */
  ghost function ReadWhileOk(fates: Fates, card: Card, lba: nat, n: nat): (r: ReadRun)
    ensures |r.sectors| <= n && r.card.sectors == card.sectors
    decreases n
  {
    if n == 0 then ReadRun(card, [])
    else
      match CardReadSector(fates, card, U32(U64(lba)))
      case Failed(after) => ReadRun(after, [])
      case Got(after, data) =>
        var rest := ReadWhileOk(fates, after, lba + 1, n - 1);
        ReadRun(rest.card, [data] + rest.sectors)
  }

  datatype Header = NoTable | Table(entryLba: nat, numEntries: nat)

  function ParseHeader(h: Sector): (r: Header) {
    var entryLba, numEntries, entrySize := LE.Decode(h[72..80]), LE.Decode(h[80..84]), LE.Decode(h[84..88]);
    if h[..8] != GPT_SIGNATURE || entrySize != 128 || numEntries == 0 || entryLba == 0 then NoTable
    else Table(entryLba, numEntries)
  }

  function SectorsFor(entries: nat): (r: nat)
    ensures entries <= 4 * r < entries + 4
  {
    (entries + 3) / 4
  }

  ghost function GptScan(fates: Fates, card: Card): (r: Scan) {
    match CardReadSector(fates, card, 1)
    case Failed(after) => Scan(after, [])
    case Got(after, h) =>
      match ParseHeader(h)
      case NoTable => Scan(after, [])
      case Table(entryLba, numEntries) =>
        var maxEntries := Min(numEntries, MAX_ENTRIES);
        var run := ReadWhileOk(fates, after, entryLba, SectorsFor(maxEntries));
        Scan(run.card, ListEntries(run.sectors, Min(maxEntries, 4 * |run.sectors|)))
  }

  lemma {:induction false} ListEntriesPrefix(got: seq<Sector>, next: Sector, n: nat)
    requires n <= 4 * |got|
    ensures ListEntries(got + [next], n) == ListEntries(got, n)
  {
    hide EntryParts;
    if n > 0 {
      ListEntriesPrefix(got, next, n - 1);
      assert (got + [next])[(n - 1) / 4] == got[(n - 1) / 4];
    }
  }

  /** One turn of the inner loop of scan_gpt: the entry at `off` of the sector in `buf`. */
  method ScanEntry(buf: array<byte>, off: nat) returns (parts: seq<PartitionInfo>)
    requires buf.Length == SECTOR_SIZE && off + ENTRY_SIZE <= SECTOR_SIZE
    ensures parts == EntryParts(buf[..][off..off + ENTRY_SIZE])
  {
    hide LE.Decode, TypeCode, Saturate;
    ghost var entry := buf[..][off..off + ENTRY_SIZE];
    SliceOfSlice(buf[..], off, ENTRY_SIZE, 0, 16);
    SliceOfSlice(buf[..], off, ENTRY_SIZE, 32, 8);
    SliceOfSlice(buf[..], off, ENTRY_SIZE, 40, 8);
    if AllZero(buf[off..off + 16]) {
      return [];
    }
    var firstLba := LE.Decode(buf[off + 32..off + 40]);
    var lastLba := LE.Decode(buf[off + 40..off + 48]);
    if firstLba == 0 || lastLba < firstLba {
      return [];
    }
    LE.DecodeBound(buf[off + 40..off + 48]);
    LE.Widths();
    return [PartitionInfo(TypeCode(buf[off..off + 16]), Saturate(firstLba),
                          Saturate(U64(lastLba - firstLba + 1)), false)];
  }

  lemma EntryOfSector(sectors: seq<Sector>, s: nat, e: nat)
    requires s < |sectors| && e < 4
    ensures EntryAt(sectors, 4 * s + e) == sectors[s][e * ENTRY_SIZE..e * ENTRY_SIZE + ENTRY_SIZE]
  {
    assert (4 * s + e) / 4 == s && (4 * s + e) % 4 == e;
  }

  /** The inner loop of scan_gpt over the entries of sector s, which `buf` holds. */
  method ScanEntrySector(buf: array<byte>, s: nat, entriesPerSector: nat, entrySize: nat, maxEntries: nat,
                         before: seq<PartitionInfo>, ghost got: seq<Sector>)
    returns (parts: seq<PartitionInfo>)
    requires buf.Length == SECTOR_SIZE && |got| == s + 1 && got[s] == buf[..]
    requires entriesPerSector == 4 && entrySize == ENTRY_SIZE && 4 * s <= maxEntries
    requires before == ListEntries(got, 4 * s)
    ensures parts == ListEntries(got, Min(maxEntries, 4 * (s + 1)))
  {
    hide EntryParts, EntryAt;
    parts := before;
    var e := 0;
    while e < entriesPerSector
      invariant e <= entriesPerSector && 4 * s + e <= maxEntries
      invariant parts == ListEntries(got, 4 * s + e)
    {
      if s * entriesPerSector + e >= maxEntries {
        break;
      }
      EntryOfSector(got, s, e);
      var found := ScanEntry(buf, e * entrySize);
      parts := parts + found;
      e := e + 1;
    }
  }

  /** The header checks of scan_gpt on the sector in `buf`. */
  method ReadHeader(buf: array<byte>) returns (header: Header)
    requires buf.Length == SECTOR_SIZE
    ensures header == ParseHeader(buf[..])
  {
    hide LE.Decode;
    SliceOfSlice(buf[..], 0, 512, 0, 8);
    SliceOfSlice(buf[..], 0, 512, 72, 8);
    SliceOfSlice(buf[..], 0, 512, 80, 4);
    SliceOfSlice(buf[..], 0, 512, 84, 4);
    if buf[0..8] != GPT_SIGNATURE {
      return NoTable;
    }
    var entryLba := LE.Decode(buf[72..80]);
    var numEntries := LE.Decode(buf[80..84]);
    var entrySize := LE.Decode(buf[84..88]);
    if entrySize != 128 || numEntries == 0 || entryLba == 0 {
      return NoTable;
    }
    return Table(entryLba, numEntries);
  }

  lemma ReadOneMore(fates: Fates, card: Card, lba: nat, n: nat, got: seq<Sector>, whole: ReadRun)
    requires n > 0
    requires var rest := ReadWhileOk(fates, card, lba, n);
             whole.card == rest.card && whole.sectors == got + rest.sectors
    ensures var r := CardReadSector(fates, card, U32(U64(lba)));
            match r
            case Failed(after) => whole == ReadRun(after, got)
            case Got(after, data) =>
              var rest := ReadWhileOk(fates, after, lba + 1, n - 1);
              whole.card == rest.card && whole.sectors == got + [data] + rest.sectors
  {
    assert got + [] == got;
    match CardReadSector(fates, card, U32(U64(lba)))
    case Got(after, data) =>
      var rest := ReadWhileOk(fates, after, lba + 1, n - 1);
      assert got + ([data] + rest.sectors) == got + [data] + rest.sectors;
    case Failed(_) =>
  }

  /** The outer loop of scan_gpt over the entry sectors. */
  method ScanEntrySectors(card: SdmmcCard, buf: array<byte>, entryLba: nat, maxEntries: nat)
    returns (parts: seq<PartitionInfo>)
    requires buf.Length == SECTOR_SIZE
    modifies card, buf
    ensures var run := ReadWhileOk(card.fates, old(card.Value()), entryLba, SectorsFor(maxEntries));
            Scan(card.Value(), parts) == Scan(run.card, ListEntries(run.sectors, Min(maxEntries, 4 * |run.sectors|)))
  {
    hide ListEntries, CardReadSector, ReadWhileOk;
    var entriesPerSector := 512 / ENTRY_SIZE;
    var sectorsNeeded := (maxEntries + entriesPerSector - 1) / entriesPerSector;
    ghost var whole := ReadWhileOk(card.fates, card.Value(), entryLba, sectorsNeeded);
    ghost var got: seq<Sector> := [];
    parts := [];
    var s := 0;
    while s < sectorsNeeded
      invariant s <= sectorsNeeded && |got| == s
      invariant ReadWhileOk(card.fates, card.Value(), entryLba + s, sectorsNeeded - s).card == whole.card
      invariant got + ReadWhileOk(card.fates, card.Value(), entryLba + s, sectorsNeeded - s).sectors == whole.sectors
      invariant parts == ListEntries(got, Min(maxEntries, 4 * s))
    {
      ReadOneMore(card.fates, card.Value(), entryLba + s, sectorsNeeded - s, got, whole);
      var ok := card.ReadSector(buf, U32(U64(entryLba + s)));
      if !ok {
        return;
      }
      ghost var data: Sector := buf[..];
      ListEntriesPrefix(got, data, 4 * s);
      got := got + [data];
      parts := ScanEntrySector(buf, s, entriesPerSector, ENTRY_SIZE, maxEntries, parts, got);
      s := s + 1;
    }
    ReadNone(card.fates, card.Value(), entryLba + s, got);
  }

  lemma ReadNone(fates: Fates, card: Card, lba: nat, got: seq<Sector>)
    ensures ReadWhileOk(fates, card, lba, 0) == ReadRun(card, [])
    ensures got + [] == got
  {
  }

  /** scan_gpt: the nested loops compute the flat filter-map. */
  method ScanGpt(card: SdmmcCard) returns (parts: seq<PartitionInfo>)
    modifies card
    ensures Scan(card.Value(), parts) == GptScan(card.fates, old(card.Value()))
  {
    hide ListEntries, ParseHeader, CardReadSector, ReadWhileOk;
    var buf := new byte[SECTOR_SIZE];
    var ok := card.ReadSector(buf, 1);
    if !ok {
      return [];
    }
    var header := ReadHeader(buf);
    match header
    case NoTable =>
      return [];
    case Table(entryLba, numEntries) =>
      parts := ScanEntrySectors(card, buf, entryLba, Min(numEntries, MAX_ENTRIES));
  }

  /** What one of the four 16-byte slots of an MBR contributes. */
  function SlotParts(slot: seq<byte>): (r: seq<PartitionInfo>)
    requires |slot| == 16
  {
    var lbaStart := LE.Decode(slot[8..12]);
    if slot[4] == 0 || lbaStart == 0 then []
    else [PartitionInfo(slot[4], lbaStart, LE.Decode(slot[12..16]), slot[0] == 0x80)]
  }

  function MbrSlot(sector: Sector, i: nat): (r: seq<byte>)
    requires i < 4
    ensures |r| == 16
  {
    sector[446 + i * 16..446 + i * 16 + 16]
  }

  function ListSlots(sector: Sector, n: nat): (r: seq<PartitionInfo>)
    requires n <= 4
  {
    if n == 0 then [] else ListSlots(sector, n - 1) + SlotParts(MbrSlot(sector, n - 1))
  }

  predicate HasMbrSignature(sector: Sector) {
    sector[510] == 0x55 && sector[511] == 0xAA
  }

  function MbrScan(fates: Fates, card: Card): (r: Scan) {
    match CardReadSector(fates, card, 0)
    case Failed(after) => Scan(after, [])
    case Got(after, sector) => Scan(after, if HasMbrSignature(sector) then ListSlots(sector, 4) else [])
  }

  /** One turn of the loop of scan_mbr: the slot at `o` of the sector in `buf`. */
  method ScanSlot(buf: array<byte>, o: nat) returns (parts: seq<PartitionInfo>)
    requires buf.Length == SECTOR_SIZE && o + 16 <= SECTOR_SIZE
    ensures parts == SlotParts(buf[..][o..o + 16])
  {
    hide LE.Decode;
    SliceOfSlice(buf[..], o, 16, 8, 4);
    SliceOfSlice(buf[..], o, 16, 12, 4);
    var partType := buf[o + 4];
    if partType == 0 {
      return [];
    }
    var lbaStart := LE.Decode(buf[o + 8..o + 12]);
    var sectorCount := LE.Decode(buf[o + 12..o + 16]);
    if lbaStart == 0 {
      return [];
    }
    return [PartitionInfo(partType, lbaStart, sectorCount, buf[o] == 0x80)];
  }

  /** scan_mbr */
  method ScanMbr(card: SdmmcCard) returns (parts: seq<PartitionInfo>)
    modifies card
    ensures Scan(card.Value(), parts) == MbrScan(card.fates, old(card.Value()))
  {
    hide CardReadSector, SlotParts;
    var buf := new byte[SECTOR_SIZE];
    var ok := card.ReadSector(buf, 0);
    if !ok {
      return [];
    }
    ghost var sector: Sector := buf[..];
    assert HasMbrSignature(sector) <==> buf[510] == 0x55 && buf[511] == 0xAA;
    assert sector == CardReadSector(card.fates, old(card.Value()), 0).data;
    if buf[510] != 0x55 || buf[511] != 0xAA {
      return [];
    }
    parts := [];
    for i := 0 to 4
      invariant card.Value() == CardReadSector(card.fates, old(card.Value()), 0).card
      invariant buf[..] == sector && parts == ListSlots(sector, i)
    {
      var found := ScanSlot(buf, 446 + i * 16);
      assert found == SlotParts(MbrSlot(sector, i));
      parts := parts + found;
    }
  }

  /** An MBR list that leaves the choice to the GPT: empty, or protective entries only. */
  predicate Defers(mbr: seq<PartitionInfo>) {
    forall i :: 0 <= i < |mbr| ==> mbr[i].partType == 0xEE
  }

  ghost function PartitionsScan(fates: Fates, card: Card): (r: Scan) {
    var mbr := MbrScan(fates, card);
    if Defers(mbr.parts) then
      var gpt := GptScan(fates, mbr.card);
      if gpt.parts != [] then gpt else Scan(gpt.card, mbr.parts)
    else
      mbr
  }

  /** scan_partitions */
  method ScanPartitions(card: SdmmcCard) returns (parts: seq<PartitionInfo>)
    modifies card
    ensures Scan(card.Value(), parts) == PartitionsScan(card.fates, old(card.Value()))
  {
    hide MbrScan, GptScan;
    var mbr := ScanMbr(card);
    var allGptProtective := mbr != [] && forall i :: 0 <= i < |mbr| ==> mbr[i].partType == 0xEE;
    if mbr == [] || allGptProtective {
      var gpt := ScanGpt(card);
      if gpt != [] {
        return gpt;
      }
    }
    return mbr;
  }
}
