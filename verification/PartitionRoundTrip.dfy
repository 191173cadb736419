/** Disks written to the legacy MBR and GPT layouts (UEFI Specification 2.10, sections 5.2.1,
    5.3.2 and 5.3.3) are read back by the scanners exactly, and from no other disk is anything read. */
module PartitionRoundTrip {
  import opened Sectors
  import opened SdCard
  import opened PartitionTables
  import LE = LittleEndian

  /** A slot of the GPT entry array; `tail` is the attributes and the name. */
  datatype GptSlot = GptSlot(guid: seq<byte>, unique: seq<byte>, first: nat, last: nat, tail: seq<byte>)

  /** The slot has its shape; what is in it is arbitrary. */
  ghost predicate ValidSlot(slot: GptSlot) {
    && |slot.guid| == 16 && |slot.unique| == 16 && |slot.tail| == 80
    && slot.first < TWO_TO_THE_64 && slot.last < TWO_TO_THE_64
  }

  function Zeros(n: nat): (r: seq<byte>)
    ensures |r| == n && AllZero(r)
  {
    seq(n, _ => 0)
  }

  function EncodeSlot(slot: GptSlot): (r: seq<byte>)
    requires ValidSlot(slot)
    ensures |r| == ENTRY_SIZE
  {
    slot.guid + slot.unique + LE.Encode(slot.first, 8) + LE.Encode(slot.last, 8) + slot.tail
  }

  /** What 32 bits can say of a sector number or count. */
  function Cap32(x: nat): (r: nat) {
    if x > 0xFFFF_FFFF then 0xFFFF_FFFF else x
  }

  /** What a slot stands for: nothing if its type is all zeros, it starts at 0 or ends before
      it starts, else the partition from `first` to `last`. */
  ghost function Meaning(slot: GptSlot): (r: seq<PartitionInfo>) {
    if slot.guid == Zeros(16) || slot.first == 0 || slot.last < slot.first then []
    else [PartitionInfo(TypeCode(slot.guid), Cap32(slot.first), Cap32(slot.last - slot.first + 1), false)]
  }

  ghost predicate ValidSlots(slots: seq<GptSlot>) {
    |slots| < TWO_TO_THE_32 && forall i :: 0 <= i < |slots| ==> ValidSlot(slots[i])
  }

  /** What the first n slots stand for, in slot order. */
  ghost function Meanings(slots: seq<GptSlot>, n: nat): (r: seq<PartitionInfo>)
    requires ValidSlots(slots) && n <= |slots|
  {
    if n == 0 then [] else Meanings(slots, n - 1) + Meaning(slots[n - 1])
  }

  lemma Field<T>(a: seq<T>, b: seq<T>, c: seq<T>)
    ensures (a + b + c)[|a|..|a| + |b|] == b
  {
  }

  /** A GUID as GPT stores it: three little-endian fields and eight bytes as written. */
  function Guid(d1: nat, d2: nat, d3: nat, d4: seq<byte>): (r: seq<byte>) {
    LE.Encode(d1, 4) + LE.Encode(d2, 2) + LE.Encode(d3, 2) + d4
  }

  lemma LinuxGuid()
    ensures GPT_LINUX_DATA_GUID == Guid(0x0FC63DAF, 0x8483, 0x4772, [0x8E, 0x79, 0x3D, 0x69, 0xD8, 0x47, 0x7D, 0xE4])
    ensures GPT_LINUX_DATA_GUID[0] == 0xAF
  {
    GuidBytes(0x0FC63DAF, 0x8483, 0x4772, [0x8E, 0x79, 0x3D, 0x69, 0xD8, 0x47, 0x7D, 0xE4]);
  }

  lemma EfiGuid()
    ensures GPT_EFI_SYSTEM_GUID == Guid(0xC12A7328, 0xF81F, 0x11D2, [0xBA, 0x4B, 0x00, 0xA0, 0xC9, 0x3E, 0xC9, 0x3B])
    ensures GPT_EFI_SYSTEM_GUID[0] == 0x28
  {
    GuidBytes(0xC12A7328, 0xF81F, 0x11D2, [0xBA, 0x4B, 0x00, 0xA0, 0xC9, 0x3E, 0xC9, 0x3B]);
  }

  lemma BasicDataGuid()
    ensures GPT_MS_BASIC_DATA_GUID == Guid(0xEBD0A0A2, 0xB9E5, 0x4433, [0x87, 0xC0, 0x68, 0xB6, 0xB7, 0x26, 0x99, 0xC7])
    ensures GPT_MS_BASIC_DATA_GUID[0] == 0xA2
  {
    GuidBytes(0xEBD0A0A2, 0xB9E5, 0x4433, [0x87, 0xC0, 0x68, 0xB6, 0xB7, 0x26, 0x99, 0xC7]);
  }

  /** The three type GUIDs, as their UUIDs are written, get their codes; no other does. */
  lemma TypeCodesOfGuids(guid: seq<byte>)
    ensures TypeCode(guid) == 0x83 <==>
              guid == Guid(0x0FC63DAF, 0x8483, 0x4772, [0x8E, 0x79, 0x3D, 0x69, 0xD8, 0x47, 0x7D, 0xE4])
    ensures TypeCode(guid) == 0xEF <==>
              guid == Guid(0xC12A7328, 0xF81F, 0x11D2, [0xBA, 0x4B, 0x00, 0xA0, 0xC9, 0x3E, 0xC9, 0x3B])
    ensures TypeCode(guid) == 0x0C <==>
              guid == Guid(0xEBD0A0A2, 0xB9E5, 0x4433, [0x87, 0xC0, 0x68, 0xB6, 0xB7, 0x26, 0x99, 0xC7])
    ensures TypeCode(guid) in {0x83, 0xEF, 0x0C, 0xFF}
  {
    hide LE.Encode, Guid;
    LinuxGuid();
    EfiGuid();
    BasicDataGuid();
  }

  lemma GuidBytes(d1: nat, d2: nat, d3: nat, d4: seq<byte>)
    ensures Guid(d1, d2, d3, d4) ==
            [(d1 % 256) as byte, (d1 / 256 % 256) as byte, (d1 / 256 / 256 % 256) as byte,
             (d1 / 256 / 256 / 256 % 256) as byte, (d2 % 256) as byte, (d2 / 256 % 256) as byte,
             (d3 % 256) as byte, (d3 / 256 % 256) as byte] + d4
  {
    LE.Encode4(d1);
    LE.Encode2(d1 / 256 / 256);
    LE.Encode2(d2);
    LE.Encode2(d3);
  }

  /** Decoding an encoded slot gives back what it stands for. */
  lemma SlotRoundTrip(slot: GptSlot)
    requires ValidSlot(slot)
    ensures EntryParts(EncodeSlot(slot)) == Meaning(slot)
  {
    hide LE.Encode, LE.Decode, TypeCode;
    var f, l := LE.Encode(slot.first, 8), LE.Encode(slot.last, 8);
    var e := EncodeSlot(slot);
    assert e[..16] == slot.guid;
    Field(slot.guid + slot.unique, f, l + slot.tail);
    assert e == slot.guid + slot.unique + f + (l + slot.tail);
    Field(slot.guid + slot.unique + f, l, slot.tail);
    LE.Widths();
    LE.DecodeEncode(slot.first, 8);
    LE.DecodeEncode(slot.last, 8);
  }

  /** Every 128 bytes are an encoded slot. */
  lemma EntryIsSlot(entry: seq<byte>) returns (slot: GptSlot)
    requires |entry| == 128
    ensures ValidSlot(slot) && entry == EncodeSlot(slot)
  {
    hide LE.Encode, LE.Decode;
    LE.Widths();
    LE.DecodeBound(entry[32..40]);
    LE.DecodeBound(entry[40..48]);
    LE.EncodeDecode(entry[32..40]);
    LE.EncodeDecode(entry[40..48]);
    slot := GptSlot(entry[..16], entry[16..32], LE.Decode(entry[32..40]), LE.Decode(entry[40..48]), entry[48..]);
    assert entry == entry[..16] + entry[16..32] + entry[32..40] + entry[40..48] + entry[48..];
  }

  /** Slot i of the array on disk; the last sector is filled up with zeros. */
  function SlotBytes(slots: seq<GptSlot>, i: nat): (r: seq<byte>)
    requires forall i :: 0 <= i < |slots| ==> ValidSlot(slots[i])
    ensures |r| == ENTRY_SIZE
  {
    if i < |slots| then EncodeSlot(slots[i]) else Zeros(ENTRY_SIZE)
  }

  /** Sector s of the entry array. */
  function EncodeEntrySector(slots: seq<GptSlot>, s: nat): (r: Sector)
    requires forall i :: 0 <= i < |slots| ==> ValidSlot(slots[i])
  {
    SlotBytes(slots, 4 * s) + SlotBytes(slots, 4 * s + 1) + SlotBytes(slots, 4 * s + 2) + SlotBytes(slots, 4 * s + 3)
  }

  /** `a` and `b` are the header's fields that the scanner does not look at. */
  function EncodeHeader(entryLba: nat, numEntries: nat, a: seq<byte>, b: seq<byte>): (r: Sector)
    requires |a| == 64 && |b| == 424
  {
    SIGNATURE_BYTES + a + LE.Encode(entryLba, 8) + LE.Encode(numEntries, 4) + LE.Encode(128, 4) + b
  }

  /** The signature as bytes of the sector. */
  const SIGNATURE_BYTES: seq<byte> := [0x45, 0x46, 0x49, 0x20, 0x50, 0x41, 0x52, 0x54]

  lemma SignatureIs()
    ensures GPT_SIGNATURE == SIGNATURE_BYTES
  {
    assert "EFI PART" == ['E', 'F', 'I', ' ', 'P', 'A', 'R', 'T'];
  }

  lemma HeaderRoundTrip(entryLba: nat, numEntries: nat, a: seq<byte>, b: seq<byte>)
    requires |a| == 64 && |b| == 424
    requires 0 < entryLba < TWO_TO_THE_64 && numEntries < TWO_TO_THE_32
    ensures ParseHeader(EncodeHeader(entryLba, numEntries, a, b))
            == if numEntries == 0 then NoTable else Table(entryLba, numEntries)
  {
    hide LE.Encode, LE.Decode, Ascii;
    SignatureIs();
    var h := EncodeHeader(entryLba, numEntries, a, b);
    var sign, x, y, z := SIGNATURE_BYTES, LE.Encode(entryLba, 8), LE.Encode(numEntries, 4), LE.Encode(128, 4);
    assert h[..8] == sign;
    Field(sign + a, x, y + z + b);
    assert h == sign + a + x + (y + z + b);
    Field(sign + a + x, y, z + b);
    assert h == sign + a + x + y + (z + b);
    Field(sign + a + x + y, z, b);
    LE.Widths();
    LE.DecodeEncode(entryLba, 8);
    LE.DecodeEncode(numEntries, 4);
    LE.DecodeEncode(128, 4);
  }

  /** A sector that passes the header checks is an encoded header. */
  lemma HeaderIsEncoded(h: Sector) returns (a: seq<byte>, b: seq<byte>)
    requires ParseHeader(h).Table?
    ensures var t := ParseHeader(h);
            && 0 < t.entryLba < TWO_TO_THE_64 && 0 < t.numEntries < TWO_TO_THE_32
            && |a| == 64 && |b| == 424 && h == EncodeHeader(t.entryLba, t.numEntries, a, b)
  {
    hide LE.Encode, LE.Decode, Ascii;
    SignatureIs();
    LE.Widths();
    LE.DecodeBound(h[72..80]);
    LE.DecodeBound(h[80..84]);
    LE.EncodeDecode(h[72..80]);
    LE.EncodeDecode(h[80..84]);
    LE.EncodeDecode(h[84..88]);
    a, b := h[8..72], h[88..];
    assert h == h[..8] + a + h[72..80] + h[80..84] + h[84..88] + b;
  }

  lemma EntryOfEncoded(slots: seq<GptSlot>, s: nat, e: nat)
    requires (forall i :: 0 <= i < |slots| ==> ValidSlot(slots[i])) && e < 4
    ensures EncodeEntrySector(slots, s)[e * ENTRY_SIZE..e * ENTRY_SIZE + ENTRY_SIZE] == SlotBytes(slots, 4 * s + e)
  {
    hide EncodeSlot, SlotBytes;
    var b0, b1 := SlotBytes(slots, 4 * s), SlotBytes(slots, 4 * s + 1);
    var b2, b3 := SlotBytes(slots, 4 * s + 2), SlotBytes(slots, 4 * s + 3);
    Field([], b0, b1 + b2 + b3);
    Field(b0, b1, b2 + b3);
    Field(b0 + b1, b2, b3);
    Field(b0 + b1 + b2, b3, []);
    var all := b0 + b1 + b2 + b3;
    assert all == [] + b0 + (b1 + b2 + b3);
    assert all == b0 + b1 + (b2 + b3);
    assert all == b0 + b1 + b2 + b3 + [];
  }

  /** How many of the slots announced the scanner looks at. */
  function Looked(announced: nat): (n: nat) {
    if announced > 128 then 128 else announced
  }

  function Scanned(slots: seq<GptSlot>): (n: nat) {
    Looked(|slots|)
  }

  /** The card holds a GPT that announces these slots: its header in sector 1 and, from
      entryLba on, its entry array as far as it is looked at. */
  ghost predicate HoldsGpt(sectors: seq<Sector>, slots: seq<GptSlot>, entryLba: nat, a: seq<byte>, b: seq<byte>) {
    && ValidSlots(slots) && |a| == 64 && |b| == 424
    && |sectors| < TWO_TO_THE_32
    && 2 <= entryLba && entryLba + SectorsFor(Scanned(slots)) <= |sectors|
    && sectors[1] == EncodeHeader(entryLba, |slots|, a, b)
    && forall s {:trigger EncodeEntrySector(slots, s)} :: 0 <= s < SectorsFor(Scanned(slots)) ==>
         sectors[entryLba + s] == EncodeEntrySector(slots, s)
  }

  /** The n transactions from number `from` on complete. */
  ghost predicate Complete(fates: Fates, from: nat, n: nat) {
    forall t: nat :: from <= t < from + n ==> fates(t).Completes?
  }

  /** The i-th address from lba, as the scanner computes it. */
  function Address(lba: nat, i: nat): (r: nat) {
    U32(U64(lba + i))
  }

  /** On any card: the sectors read are those at the array's addresses, one after the other. */
  lemma {:induction false} SectorsReadAre(fates: Fates, card: Card, lba: nat, n: nat, i: nat)
    requires i < |ReadWhileOk(fates, card, lba, n).sectors|
    ensures Address(lba, i) < |card.sectors|
    ensures ReadWhileOk(fates, card, lba, n).sectors[i] == card.sectors[Address(lba, i)]
    decreases n
  {
    hide U32, U64, CardReadSector;
    var r := CardReadSector(fates, card, U32(U64(lba)));
    if i > 0 && r.Got? {
      SectorsReadAre(fates, r.card, lba + 1, n - 1, i - 1);
    }
  }

  /** Reading stops early only because the next address is beyond the card or the next
      transaction fails. */
  lemma {:induction false} FirstFailureStops(fates: Fates, card: Card, lba: nat, n: nat)
    requires |ReadWhileOk(fates, card, lba, n).sectors| < n
    ensures var j := |ReadWhileOk(fates, card, lba, n).sectors|;
            Address(lba, j) >= |card.sectors| || fates(|card.log| + j).Fails?
    decreases n
  {
    hide U32, U64, CardReadSector;
    var r := CardReadSector(fates, card, U32(U64(lba)));
    if r.Got? {
      FirstFailureStops(fates, r.card, lba + 1, n - 1);
    }
  }

  lemma HeadOfSlice(sectors: seq<Sector>, i: nat, j: nat)
    requires i < j <= |sectors|
    ensures sectors[i..j] == [sectors[i]] + sectors[i + 1..j]
  {
  }

  /** If the first j reads complete and the next one, if any, fails, the j first sectors of
      the range are read. */
  lemma {:induction false} ReadRunIs(fates: Fates, card: Card, lba: nat, n: nat, j: nat)
    requires lba + n <= |card.sectors| < TWO_TO_THE_32 && j <= n
    requires Complete(fates, |card.log|, j) && (j < n ==> fates(|card.log| + j).Fails?)
    ensures ReadWhileOk(fates, card, lba, n).sectors == card.sectors[lba..lba + j]
    decreases n
  {
    hide CardReadSector, U32, U64;
    if n > 0 {
      assert U64(lba) == lba;
      assert U32(lba) == lba;
      var r := CardReadSector(fates, card, lba);
      if j > 0 {
        ReadRunIs(fates, r.card, lba + 1, n - 1, j - 1);
        HeadOfSlice(card.sectors, lba, lba + j);
      }
    }
  }

  lemma {:induction false} ListOfEncoded(slots: seq<GptSlot>, sectors: seq<Sector>, n: nat)
    requires ValidSlots(slots) && n <= |slots| && n <= 4 * |sectors|
    requires forall s {:trigger sectors[s]} :: 0 <= s < |sectors| ==> sectors[s] == EncodeEntrySector(slots, s)
    ensures ListEntries(sectors, n) == Meanings(slots, n)
  {
    hide EncodeEntrySector, EncodeSlot, EntryParts, Meaning;
    if n > 0 {
      ListOfEncoded(slots, sectors, n - 1);
      var s, e := (n - 1) / 4, (n - 1) % 4;
      EntryOfSector(sectors, s, e);
      EntryOfEncoded(slots, s, e);
      SlotRoundTrip(slots[n - 1]);
    }
  }

  /** GPT round trip.  Whatever the slots hold, scan_gpt returns what they stand for, in
      order, for the first 128 of them.  If the j-th sector of the array
      (from 0) is the first that fails to read, it is those of the first 4 * j of them. */
  lemma GptRoundTrip(fates: Fates, card: Card, slots: seq<GptSlot>, entryLba: nat, a: seq<byte>, b: seq<byte>, j: nat)
    requires HoldsGpt(card.sectors, slots, entryLba, a, b) && j <= SectorsFor(Scanned(slots))
    requires Complete(fates, |card.log|, 1 + j)
    requires j < SectorsFor(Scanned(slots)) ==> fates(|card.log| + 1 + j).Fails?
    ensures GptScan(fates, card).parts == Meanings(slots, Min(Scanned(slots), 4 * j))
    ensures j == SectorsFor(Scanned(slots)) ==> Min(Scanned(slots), 4 * j) == Scanned(slots)
  {
    hide EncodeHeader, ParseHeader, ReadWhileOk, ListEntries, EncodeEntrySector, Meanings;
    HeaderRoundTrip(entryLba, |slots|, a, b);
    var r := CardReadSector(fates, card, 1);
    assert r.Got? && |r.card.log| == |card.log| + 1;
    if |slots| == 0 {
      NoMeanings(slots);
    } else {
      ReadRunIs(fates, r.card, entryLba, SectorsFor(Scanned(slots)), j);
      var read := card.sectors[entryLba..entryLba + j];
      forall s {:trigger read[s]} | 0 <= s < j ensures read[s] == EncodeEntrySector(slots, s) {
        assert read[s] == card.sectors[entryLba + s];
      }
      ListOfEncoded(slots, read, Min(Scanned(slots), 4 * j));
    }
  }

  /** The sectors at the addresses from lba on, as the scanner computes them. */
  ghost predicate AreSectorsFrom(sectors: seq<Sector>, lba: nat, read: seq<Sector>) {
    forall s :: 0 <= s < |read| ==> Address(lba, s) < |sectors| && read[s] == sectors[Address(lba, s)]
  }

  /** Slots from the start of the sectors read. */
  ghost predicate SlotsOf(sectors: seq<Sector>, slots: seq<GptSlot>) {
    && ValidSlots(slots) && |slots| <= 4 * |sectors|
    && forall k {:trigger slots[k]} :: 0 <= k < |slots| ==>
         sectors[k / 4][k % 4 * 128..k % 4 * 128 + 128] == EncodeSlot(slots[k])
  }

  lemma {:induction false} ReadAsSlots(sectors: seq<Sector>, n: nat) returns (slots: seq<GptSlot>)
    requires n <= 4 * |sectors| && n < TWO_TO_THE_32
    ensures |slots| == n && SlotsOf(sectors, slots) && ListEntries(sectors, n) == Meanings(slots, n)
  {
    hide EncodeSlot, EntryParts, Meaning;
    slots := [];
    if n > 0 {
      var front := ReadAsSlots(sectors, n - 1);
      var last := EntryIsSlot(EntryAt(sectors, n - 1));
      SlotRoundTrip(last);
      slots := front + [last];
      MeaningsPrefix(front, last, n - 1);
    }
  }

  lemma {:induction false} MeaningsPrefix(front: seq<GptSlot>, last: GptSlot, n: nat)
    requires ValidSlots(front) && ValidSlots(front + [last]) && n <= |front|
    ensures Meanings(front + [last], n) == Meanings(front, n)
  {
    hide Meaning;
    if n > 0 {
      MeaningsPrefix(front, last, n - 1);
    }
  }

  /** The other direction, on any card and for any outcome of the reads: if scan_gpt returns
      anything, sector 1 is a GPT header with its signature, entry size 128 and a count and
      address that are not zero; and what it returns is what the first slots of the array at
      that address stand for, of at most 128 and at most those announced, as far as its
      sectors were read. */
  lemma GptScanIsOfGpt(fates: Fates, card: Card)
    returns (entryLba: nat, announced: nat, a: seq<byte>, b: seq<byte>, read: seq<Sector>, slots: seq<GptSlot>)
    requires GptScan(fates, card).parts != []
    ensures 1 < |card.sectors| && fates(|card.log|).Completes?
    ensures 0 < entryLba < TWO_TO_THE_64 && 0 < announced < TWO_TO_THE_32 && |a| == 64 && |b| == 424
    ensures card.sectors[1] == EncodeHeader(entryLba, announced, a, b)
    ensures AreSectorsFrom(card.sectors, entryLba, read)
    ensures SlotsOf(read, slots) && |slots| == Min(Looked(announced), 4 * |read|)
    ensures GptScan(fates, card).parts == Meanings(slots, |slots|)
  {
    hide EncodeHeader, ParseHeader, ListEntries, SlotsOf, ReadWhileOk, Meanings, Address;
    var r := CardReadSector(fates, card, 1);
    a, b := HeaderIsEncoded(r.data);
    var t := ParseHeader(r.data);
    entryLba, announced := t.entryLba, t.numEntries;
    var n := SectorsFor(Looked(announced));
    read := ReadWhileOk(fates, r.card, entryLba, n).sectors;
    assert AreSectorsFrom(card.sectors, entryLba, read) by {
      forall s | 0 <= s < |read|
        ensures Address(entryLba, s) < |card.sectors| && read[s] == card.sectors[Address(entryLba, s)]
      {
        SectorsReadAre(fates, r.card, entryLba, n, s);
      }
    }
    slots := ReadAsSlots(read, Min(Looked(announced), 4 * |read|));
  }

  lemma NoMeanings(slots: seq<GptSlot>)
    requires ValidSlots(slots)
    ensures Meanings(slots, 0) == []
  {
  }

  /** The round trip needs nothing but the transactions of the scan. */
  lemma GptRoundTripComplete(fates: Fates, card: Card, slots: seq<GptSlot>, entryLba: nat, a: seq<byte>, b: seq<byte>)
    requires HoldsGpt(card.sectors, slots, entryLba, a, b)
    requires Complete(fates, |card.log|, 1 + SectorsFor(Scanned(slots)))
    ensures GptScan(fates, card).parts == Meanings(slots, Scanned(slots))
  {
    hide GptScan, Meanings, HoldsGpt;
    GptHasHeader(card.sectors, slots, entryLba, a, b);
    GptRoundTrip(fates, card, slots, entryLba, a, b, SectorsFor(Scanned(slots)));
  }

  /** A slot of the MBR: boot flag, type, start and size, and the two CHS fields. */
  datatype MbrEntry =
    MbrEntry(flag: byte, chsFirst: seq<byte>, partType: byte, chsLast: seq<byte>, start: nat, count: nat)

  ghost predicate ValidEntry(m: MbrEntry) {
    |m.chsFirst| == 3 && |m.chsLast| == 3 && m.start < TWO_TO_THE_32 && m.count < TWO_TO_THE_32
  }

  function EncodeEntry(m: MbrEntry): (r: seq<byte>)
    requires ValidEntry(m)
    ensures |r| == 16
  {
    [m.flag] + m.chsFirst + [m.partType] + m.chsLast + LE.Encode(m.start, 4) + LE.Encode(m.count, 4)
  }

  ghost function EntryMeaning(m: MbrEntry): (r: seq<PartitionInfo>) {
    if m.partType == 0 || m.start == 0 then []
    else [PartitionInfo(m.partType, m.start, m.count, m.flag == 0x80)]
  }

  lemma EntryRoundTrip(m: MbrEntry)
    requires ValidEntry(m)
    ensures SlotParts(EncodeEntry(m)) == EntryMeaning(m)
  {
    hide LE.Encode, LE.Decode;
    var head := [m.flag] + m.chsFirst + [m.partType] + m.chsLast;
    var x, y := LE.Encode(m.start, 4), LE.Encode(m.count, 4);
    Field(head, x, y);
    Field(head + x, y, []);
    assert head + x + y == head + x + y + [];
    LE.Widths();
    LE.DecodeEncode(m.start, 4);
    LE.DecodeEncode(m.count, 4);
  }

  function EncodeMbr(boot: seq<byte>, m: seq<MbrEntry>): (r: Sector)
    requires |boot| == 446 && |m| == 4 && forall i :: 0 <= i < 4 ==> ValidEntry(m[i])
  {
    boot + EncodeEntry(m[0]) + EncodeEntry(m[1]) + EncodeEntry(m[2]) + EncodeEntry(m[3]) + [0x55, 0xAA]
  }

  lemma SignatureOfEncoded(boot: seq<byte>, m: seq<MbrEntry>)
    requires |boot| == 446 && |m| == 4 && (forall i :: 0 <= i < 4 ==> ValidEntry(m[i]))
    ensures HasMbrSignature(EncodeMbr(boot, m))
  {
    hide EncodeEntry;
    var sign: seq<byte> := [0x55, 0xAA];
    var all := EncodeMbr(boot, m);
    assert all[510] == sign[0] && all[511] == sign[1];
  }

  lemma SlotOfEncoded(boot: seq<byte>, m: seq<MbrEntry>, i: nat)
    requires |boot| == 446 && |m| == 4 && (forall i :: 0 <= i < 4 ==> ValidEntry(m[i])) && i < 4
    ensures MbrSlot(EncodeMbr(boot, m), i) == EncodeEntry(m[i])
  {
    hide EncodeEntry;
    var e0, e1, e2, e3 := EncodeEntry(m[0]), EncodeEntry(m[1]), EncodeEntry(m[2]), EncodeEntry(m[3]);
    var sign: seq<byte> := [0x55, 0xAA];
    var all := EncodeMbr(boot, m);
    if i == 0 {
      assert all == boot + e0 + (e1 + e2 + e3 + sign);
      Field(boot, e0, e1 + e2 + e3 + sign);
    } else if i == 1 {
      assert all == boot + e0 + e1 + (e2 + e3 + sign);
      Field(boot + e0, e1, e2 + e3 + sign);
    } else if i == 2 {
      assert all == boot + e0 + e1 + e2 + (e3 + sign);
      Field(boot + e0 + e1, e2, e3 + sign);
    } else {
      Field(boot + e0 + e1 + e2, e3, sign);
    }
  }

  /** Every 16 bytes are an encoded slot. */
  lemma BytesAreEntry(bytes: seq<byte>) returns (m: MbrEntry)
    requires |bytes| == 16
    ensures ValidEntry(m) && bytes == EncodeEntry(m)
  {
    hide LE.Encode, LE.Decode;
    LE.Widths();
    LE.DecodeBound(bytes[8..12]);
    LE.DecodeBound(bytes[12..16]);
    LE.EncodeDecode(bytes[8..12]);
    LE.EncodeDecode(bytes[12..16]);
    m := MbrEntry(bytes[0], bytes[1..4], bytes[4], bytes[5..8], LE.Decode(bytes[8..12]), LE.Decode(bytes[12..16]));
    assert bytes == [bytes[0]] + bytes[1..4] + [bytes[4]] + bytes[5..8] + bytes[8..12] + bytes[12..16];
  }

  /** The other direction, on any card and for any outcome of the read: if scan_mbr returns
      anything, sector 0 ends in 0x55 0xAA, so that it is an encoded MBR. */
  lemma MbrScanIsOfMbr(fates: Fates, card: Card) returns (boot: seq<byte>, m: seq<MbrEntry>)
    requires MbrScan(fates, card).parts != []
    ensures 0 < |card.sectors| && fates(|card.log|).Completes?
    ensures |boot| == 446 && |m| == 4 && forall i :: 0 <= i < 4 ==> ValidEntry(m[i])
    ensures card.sectors[0] == EncodeMbr(boot, m)
    ensures MbrScan(fates, card).parts
            == EntryMeaning(m[0]) + EntryMeaning(m[1]) + EntryMeaning(m[2]) + EntryMeaning(m[3])
  {
    var s := CardReadSector(fates, card, 0).data;
    hide EncodeEntry, ValidEntry, MbrScan, EntryMeaning;
    assert s[510] == 0x55 && s[511] == 0xAA by { SignatureChecked(fates, card); }
    var m0 := BytesAreEntry(s[446..462]);
    var m1 := BytesAreEntry(s[462..478]);
    var m2 := BytesAreEntry(s[478..494]);
    var m3 := BytesAreEntry(s[494..510]);
    boot, m := s[..446], [m0, m1, m2, m3];
    assert s == boot + s[446..462] + s[462..478] + s[478..494] + s[494..510] + [0x55, 0xAA];
    MbrRoundTrip(fates, card, boot, m);
  }

  lemma SignatureChecked(fates: Fates, card: Card)
    requires MbrScan(fates, card).parts != []
    ensures CardReadSector(fates, card, 0).Got?
    ensures var s := CardReadSector(fates, card, 0).data; s[510] == 0x55 && s[511] == 0xAA
  {
  }

  /** MBR round trip: the slots with non-zero type and start, in order, all fields exact. */
  lemma MbrRoundTrip(fates: Fates, card: Card, boot: seq<byte>, m: seq<MbrEntry>)
    requires |boot| == 446 && |m| == 4 && forall i :: 0 <= i < 4 ==> ValidEntry(m[i])
    requires CardReadSector(fates, card, 0).Got? && card.sectors[0] == EncodeMbr(boot, m)
    ensures MbrScan(fates, card).parts
            == EntryMeaning(m[0]) + EntryMeaning(m[1]) + EntryMeaning(m[2]) + EntryMeaning(m[3])
  {
    hide EncodeMbr, EncodeEntry, SlotParts, MbrSlot;
    var sector := card.sectors[0];
    forall i | 0 <= i < 4 ensures SlotParts(MbrSlot(sector, i)) == EntryMeaning(m[i]) {
      SlotOfEncoded(boot, m, i);
      EntryRoundTrip(m[i]);
    }
    SignatureOfEncoded(boot, m);
    assert ListSlots(sector, 1) == EntryMeaning(m[0]);
    assert ListSlots(sector, 2) == EntryMeaning(m[0]) + EntryMeaning(m[1]);
    assert ListSlots(sector, 3) == EntryMeaning(m[0]) + EntryMeaning(m[1]) + EntryMeaning(m[2]);
  }

  /** What an MBR with these entries stands for. */
  ghost function MbrMeaning(m: seq<MbrEntry>): (r: seq<PartitionInfo>)
    requires |m| == 4
  {
    EntryMeaning(m[0]) + EntryMeaning(m[1]) + EntryMeaning(m[2]) + EntryMeaning(m[3])
  }

  /** No partition but protective ones. */
  ghost predicate OnlyProtective(parts: seq<PartitionInfo>) {
    forall p :: p in parts ==> p.partType == 0xEE
  }

  /** Source choice: on a card with an MBR and a GPT, scan_partitions returns the GPT's
      partitions exactly when the MBR's are none or all protective and the GPT has any, and
      the MBR's otherwise.  Only the transactions that it makes have to complete; a GPT whose
      j-th array sector fails counts as its first 4 * j slots. */
  lemma ChoiceRoundTrip(fates: Fates, card: Card, boot: seq<byte>, m: seq<MbrEntry>,
                        slots: seq<GptSlot>, entryLba: nat, a: seq<byte>, b: seq<byte>, j: nat)
    requires HoldsGpt(card.sectors, slots, entryLba, a, b) && j <= SectorsFor(Scanned(slots))
    requires |boot| == 446 && |m| == 4 && forall i :: 0 <= i < 4 ==> ValidEntry(m[i])
    requires card.sectors[0] == EncodeMbr(boot, m)
    requires Complete(fates, |card.log|, 1)
    requires OnlyProtective(MbrMeaning(m)) ==>
               && Complete(fates, |card.log| + 1, 1 + j)
               && (j < SectorsFor(Scanned(slots)) ==> fates(|card.log| + 2 + j).Fails?)
    ensures var mbr, gpt := MbrMeaning(m), Meanings(slots, Min(Scanned(slots), 4 * j));
            PartitionsScan(fates, card).parts == if OnlyProtective(mbr) && gpt != [] then gpt else mbr
  {
    hide EncodeMbr, EncodeHeader, GptScan, EntryMeaning, Meanings, HoldsGpt;
    GptHasHeader(card.sectors, slots, entryLba, a, b);
    MbrRoundTrip(fates, card, boot, m);
    var scan := MbrScan(fates, card);
    assert |scan.card.log| == |card.log| + 1 && scan.card.sectors == card.sectors;
    if OnlyProtective(MbrMeaning(m)) {
      GptRoundTrip(fates, scan.card, slots, entryLba, a, b, j);
    }
  }

  lemma GptHasHeader(sectors: seq<Sector>, slots: seq<GptSlot>, entryLba: nat, a: seq<byte>, b: seq<byte>)
    requires HoldsGpt(sectors, slots, entryLba, a, b)
    ensures 1 < |sectors| && ValidSlots(slots)
  {
  }
}
