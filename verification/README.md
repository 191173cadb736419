# emmc-fs: verified models of its storage core

This project models the parts of emmc-fs that decide where bytes go, and proves what they promise.

**The write-coalescing block device** (`lwext4_blockdev.c`). A 128-sector buffer sits between lwext4 and the
card. `BlockDevice.dfy` holds the state machine of the callbacks as functions, and `Lwext4BlockDevice`, a class
with the driver's own fields and buffers, whose methods are proved to compute those functions. `Runs.dfy` defines
whole runs from power-up: any sequence of reads, writes, closes and de-initialisations, and of initialisations while
the device is not registered.

For every run, whatever transactions fail, it is proved that

- every callback sends the card exactly the transactions it should, at the thresholds of 128 sectors, and holds back
  exactly what it should (`Traffic.dfy`, for any single call);
- failing card transactions harm only the sectors they were aimed at, and every failed write but that of a
  de-initialisation is reported (`FaultContainment.dfy`);
- the driver without the buffer takes the run too, and coalescing costs no more write transactions than it
  (`TransactionCost.dfy`, `UnbufferedRuns.dfy`).

For every run up to its first failed card write,

- lwext4 cannot tell the driver from a flat array of sectors (`FlatDisk.dfy`);
- the card is sent exactly the stream of lwext4's writes, in order, so at every point it holds a prefix of that
  stream, and still does after a power loss in the next write (`WriteOrder.dfy`, on the history of the card in
  `CardHistory.dfy`).

And for every run on a card without faults,

- the driver without the buffer gives the same answers (`UnbufferedRuns.dfy`);
- n sequential writes of k sectors cost exactly ceil(n / floor(128 / k)) transactions (`TransactionCost.dfy`).

**The symlink resolver** (`lwext4_vfs.c`). `SymlinkResolver.dfy` is the loop as a function of its text, with
buffer capacities as a parameter; `ResolverBuffers.dfy` has the method over NUL-terminated char arrays
(`CharBuffers.dfy`) and the bound under which nothing is cut off. `ComponentWalk.dfy` proves the loop equal to a
recursive walk over component lists, `LinkBudget.dfy` that it ends and when it says ELOOP, `ResolvedPaths.dfy` what
a result looks like and when it is stable, `Truncation.dfy` that nothing depends on what the buffers cut off.

**The partition scanners** (`detect.rs`). `PartitionTables.dfy` has the scanners with their 512-byte buffer and
loops; `PartitionRoundTrip.dfy` writes disks in the layouts of the UEFI Specification 2.10 (sections 5.2.1, 5.3.2 and
5.3.3) and proves that they are read back exactly, and that nothing is read from any other disk.

**The FAT partition diskio** (`fat_partition.c`). `FatDiskio.dfy` has the batch loops through the 8-sector bounce
buffer, `FatSlice.dfy` proves that runs of requests refine a slice of the card.

## The card

The SDMMC driver is not part of this model. `SdCard.dfy` says what one transaction may do: it completes, or it fails
and leaves anything at all in its target range. `Fates` fixes the outcome of transaction number n; every theorem
holds for all of them. The answers of `esp_ptr_dma_capable`, of the allocator and of lwext4's device registration
are arbitrary inputs. `lwext4` behind the resolver is an arbitrary function from paths to answers.

Buffers of sectors are arrays of 512-byte sectors. Requests lie within the card, the card has less than 2^32
sectors, and a buffer has less than 2^32 bytes, as on the 32-bit target; the casts to `size_t` and `uint32_t` and
the 64-bit sums are written out and shown to lose nothing under these bounds.

## Where the code falls short of a stated or natural promise

- De-initialisation ignores the outcome of its flush: it is durable for every fate exactly when nothing is pending
  (`FaultContainment.DeinitDurableIff`, with a run that loses a write in `FaultContainment.DeinitHidesLoss`).
- Initialisation throws pending sectors away, so it must not come while any are pending
  (`FaultContainment.InitKeepsLogicalIff`).
- A zero sector count in `lwext4_blockdev_set_partition` keeps the size of the whole card, so the window fits only at
  offset 0 (`BlockDevice.WindowOnCardIff`).
- For a partition that starts beyond the card `GET_SECTOR_COUNT` wraps to a window off the card, unless it wraps to
  zero (`FatDiskio.ReportedWindowIff`).
- For a mount point that ends in a slash a resolved path need not resolve to itself
  (`ResolvedPaths.TrailingSlashUnstable`) nor be under the mount point (`ResolvedPaths.OutputUnderMountIff`).
- For a mount point of several components an absolute link does not restart like a fresh input
  (`ResolvedPaths.RestartsAfreshIff`).

## Model

| member | source | states |
|---|---|---|
| SdCard.CardReadSector | src/detect.rs:148-153 | a one-sector read delivers the card's sector exactly when the address is on the card and the transaction completes |
| BlockDevice.Lwext4BlockDevice.WbufFlush | components/lwext4_blockdev/lwext4_blockdev.c:63-75 | the fields after a flush: one write of the live slots, buffer emptied even on failure, failure reported |
| BlockDevice.Lwext4BlockDevice.Close | components/lwext4_blockdev/lwext4_blockdev.c:87-92 | a close is a flush |
| BlockDevice.Lwext4BlockDevice.Bread | components/lwext4_blockdev/lwext4_blockdev.c:94-146 | the whole new state, return code and caller buffer of a read are those of the read function, also when the coalescing buffer is overwritten as bounce buffer |
| BlockDevice.Lwext4BlockDevice.BounceSingly | components/lwext4_blockdev/lwext4_blockdev.c:127-137 | the one-sector bounce loop fills the caller's buffer sector by sector until a read fails |
| BlockDevice.Lwext4BlockDevice.Bwrite | components/lwext4_blockdev/lwext4_blockdev.c:148-186 | the whole new state and return code of a write are those of the write function, on every branch |
| BlockDevice.Lwext4BlockDevice.BreadClear | components/lwext4_blockdev/lwext4_blockdev.c:106-146 | the three ways to read once nothing pending overlaps |
| BlockDevice.Lwext4BlockDevice.BwriteAfresh | components/lwext4_blockdev/lwext4_blockdev.c:171-185 | the write that does not extend the buffer: refused, direct or buffered anew |
| BlockDevice.Lwext4BlockDevice.WriteDirectly | components/lwext4_blockdev/lwext4_blockdev.c:153-158 | a direct write is one transaction of the caller's sectors |
| BlockDevice.Lwext4BlockDevice.BlockdevInit | components/lwext4_blockdev/lwext4_blockdev.c:205-249 | state, return code and partition window after init on every error path; registered iff it was or EOK is returned |
| BlockDevice.InitOutcome | components/lwext4_blockdev/lwext4_blockdev.c:205-249 | each error code iff its cause, in the order of the checks; what is registered, attached, allocated and pending after each |
| BlockDevice.Lwext4BlockDevice.BlockdevDeinit | components/lwext4_blockdev/lwext4_blockdev.c:251-265 | state after deinit: flushed, detached, buffers gone, always success; the partition window survives |
| BlockDevice.Lwext4BlockDevice.SetPartition | components/lwext4_blockdev/lwext4_blockdev.c:267-275 | offset is the start times 512, size the count times 512 (below 2^55 sectors; 64-bit arithmetic beyond), size kept for a zero count |
| BlockDevice.WindowIs | components/lwext4_blockdev/lwext4_blockdev.c:267-275 | for every start and count: offset and size are start and count modulo 2^55, times 512; a zero count keeps the old size |
| BlockDevice.WindowOnCardIff | components/lwext4_blockdev/lwext4_blockdev.c:236-275 | right after init the window lies on the card iff the partition does, and for a zero count iff it starts at 0 |
| Traffic.CloseSends | components/lwext4_blockdev/lwext4_blockdev.c:63-92 | a close issues one write of exactly what is pending, or nothing; afterwards nothing is pending, and EIO is returned iff that write failed |
| Traffic.DeinitSends | components/lwext4_blockdev/lwext4_blockdev.c:251-265 | a deinit issues the same and returns EOK whatever happens to it; card, buffers and registration are gone |
| Traffic.ReadLeavesPendingAlone | components/lwext4_blockdev/lwext4_blockdev.c:98-146 | a read of no pending sector that does not bounce through the coalescing buffer leaves pending sectors in place and issues reads only; with a DMA-capable buffer exactly one, whose outcome it returns |
| Traffic.ReadSendsPendingFirst | components/lwext4_blockdev/lwext4_blockdev.c:98-126 | any other read first issues the write of what is pending and ends with EIO and an untouched buffer if it fails; a bounce of at most 128 sectors is one read |
| Traffic.BounceReadsSingly | components/lwext4_blockdev/lwext4_blockdev.c:127-137 | a bounce of more than 128 sectors, or without the coalescing buffer, is single reads in ascending order up to the first failure, and delivers exactly those before it |
| Traffic.WriteJoinsPending | components/lwext4_blockdev/lwext4_blockdev.c:160-169 | a write right behind the pending sectors that stays below 128 in all issues no transaction, returns EOK and joins them |
| Traffic.WriteFillsBuffer | components/lwext4_blockdev/lwext4_blockdev.c:160-169 | one that makes exactly 128 is sent with them in one transaction, whose outcome it returns |
| Traffic.WriteStartsAfresh | components/lwext4_blockdev/lwext4_blockdev.c:171-185 | every other write sends what is pending first and is refused if that fails; then less than 128 sectors become pending without a transaction, 128 or more are written in one |
| Traffic.WriteGoesThrough | components/lwext4_blockdev/lwext4_blockdev.c:153-158 | without a buffer every write is one transaction |
| Runs.LifecycleInvariant | components/lwext4_blockdev/lwext4_blockdev.c:59-265 | at every point of every run of legal calls: fewer than 128 sectors pending, only with card and buffer present, within the card |
| Runs.RunExtends | components/lwext4_blockdev/lwext4_blockdev.c:59-265 | after any run every legal call has a reply and the result is a run again |
| Runs.LogGrows | components/lwext4_blockdev/lwext4_blockdev.c:63-186 | a call only appends transactions, and a clean log was clean before |
| FlatDisk.FlushKeepsLogical | components/lwext4_blockdev/lwext4_blockdev.c:63-75 | a flush returns EOK iff its transaction succeeds, and then the card is the logical disk |
| FlatDisk.ReadServesLogical | components/lwext4_blockdev/lwext4_blockdev.c:94-146 | a successful read returns the logical sectors and leaves the rest of the buffer alone; no read changes the logical disk unless a card write fails |
| FlatDisk.WriteUpdatesLogical | components/lwext4_blockdev/lwext4_blockdev.c:148-186 | a write returns EOK iff no card write of it failed, and then the logical disk has the new data |
| FlatDisk.FaultFreeStepsSucceed | components/lwext4_blockdev/lwext4_blockdev.c:63-186 | with a card that completes everything every callback returns EOK |
| FlatDisk.RunRefinesFlat | components/lwext4_blockdev/lwext4_blockdev.c:63-265 | while no card write has failed, card plus pending sectors is the flat disk after all writes |
| FlatDisk.ReadsReturnLastWrites | components/lwext4_blockdev/lwext4_blockdev.c:94-186 | every successful read of such a run returns the last data written to each sector |
| FlatDisk.CoalescingIsInvisible | components/lwext4_blockdev/lwext4_blockdev.c:42-186 | two runs on the same requests, with or without coalescing buffer and with any DMA answers, read the same data and end in the same logical disk |
| FlatDisk.FaultFreeRunsAgree | components/lwext4_blockdev/lwext4_blockdev.c:42-186 | on cards that complete everything, runs with and without the buffer answer the same requests identically, call by call |
| UnbufferedRuns.UncoalescedDriverAgrees | components/lwext4_blockdev/lwext4_blockdev.c:42-231 | for every run on a card without faults there is the run of the driver that never got its buffer, and every read and write in it has the same answer |
| FlatDisk.DeinitLeavesEverything | components/lwext4_blockdev/lwext4_blockdev.c:251-265 | a deinit in such a run leaves the card equal to the flat disk |
| WriteOrder.ReplayEntries | components/lwext4_blockdev/lwext4_blockdev.c:63-68 | a multi-sector write is its sectors written one by one in ascending order |
| WriteOrder.WriteHands | components/lwext4_blockdev/lwext4_blockdev.c:160-186 | a write is appended to what was sent or is pending, entirely, or not at all when the flush before it failed |
| WriteOrder.StreamConserved | components/lwext4_blockdev/lwext4_blockdev.c:63-186 | what the card was sent followed by the buffer's slots is exactly the requested stream, and the card holds the effect of what it was sent |
| CardHistory.RunRecorded | components/lwext4_blockdev/lwext4_blockdev.c:63-265 | at every point of every run, whatever fails, the card is the effect of the transactions issued, all within it |
| WriteOrder.PrefixConsistency | components/lwext4_blockdev/lwext4_blockdev.c:63-186 | the card is the initial card with a prefix of the stream applied, slot k of the buffer is the k-th entry after it |
| WriteOrder.PowerLossLeavesPrefix | components/lwext4_blockdev/lwext4_blockdev.c:63-186 | if the last transaction of a run is a write that power loss cuts after j sectors, the card holds the initial contents with a prefix of the requested stream: what was sent before and those j sectors |
| FaultContainment.FaultsContained | components/lwext4_blockdev/lwext4_blockdev.c:63-265 | after any run with any failures, every sector whose latest card write did not fail, or that is pending, reads as its last accepted write |
| FaultContainment.ReadsReturnAcceptedWrites | components/lwext4_blockdev/lwext4_blockdev.c:94-146 | each sector of a successful read is its last accepted write unless its latest card write had failed |
| FaultContainment.RefusedWriteNotApplied | components/lwext4_blockdev/lwext4_blockdev.c:171-173 | a write refused because the flush failed issues no transaction of its own and changes no sector outside the flushed range |
| FaultContainment.AllOkMeansOnCard | components/lwext4_blockdev/lwext4_blockdev.c:63-186 | if every call returned EOK, up to a final close, and nothing was pending at any deinit, the card holds all writes |
| FaultContainment.DeinitHidesLoss | components/lwext4_blockdev/lwext4_blockdev.c:251-265 | without the condition on deinits it is false: a run whose calls all return EOK, the last a close, and a write that is lost |
| FaultContainment.DeinitDurableIff | components/lwext4_blockdev/lwext4_blockdev.c:251-265 | deinit leaves the logical disk on the card for every fate iff nothing is pending, though it always returns success |
| FaultContainment.InitKeepsLogicalIff | components/lwext4_blockdev/lwext4_blockdev.c:222-233 | init keeps the logical disk for every card content iff nothing is pending |
| TransactionCost.FlushSpendsWhatIsOwed | components/lwext4_blockdev/lwext4_blockdev.c:63-75 | a flush issues exactly the one transaction that a non-empty buffer owes |
| TransactionCost.NeverMoreThanDirect | components/lwext4_blockdev/lwext4_blockdev.c:63-186 | at every point of every run: write transactions, plus one if the buffer is not empty, are at most the write calls |
| TransactionCost.DirectCostsOneEach | components/lwext4_blockdev/lwext4_blockdev.c:153-158 | without the buffer write transactions equal write calls |
| UnbufferedRuns.CoalescingNeverCostsMore | components/lwext4_blockdev/lwext4_blockdev.c:42-231 | for every run, and any faults of both cards, the driver without the buffer has at every point issued at least as many write transactions, and one more if the buffer is not empty |
| TransactionCost.ExactCoalescing | components/lwext4_blockdev/lwext4_blockdev.c:42-57 | n sequential k-sector writes and a close cost exactly ceil(n / floor(128 / k)) transactions |
| TransactionCost.SixteenBlocksPerTransaction | components/lwext4_blockdev/lwext4_blockdev.c:44-50 | the factor 16 promised for 8-sector blocks |
| PathText.NameHasNoSlash | components/lwext4_blockdev/lwext4_vfs.c:130-146 | the component cut off contains no slash |
| PathText.UnderMountIff | components/lwext4_blockdev/lwext4_vfs.c:102-107 | the prefix test holds iff the text is the non-empty mount point followed by nothing or by a slash and anything |
| SymlinkResolver.Rest | components/lwext4_blockdev/lwext4_vfs.c:130-146 | what follows the component is shorter than before and is empty or starts with a slash, also when it is cut |
| CharBuffers.CharBuffer.Set | components/lwext4_blockdev/lwext4_vfs.c:106-107 | the bounded copy leaves the text cut to the buffer, NUL-terminated |
| ResolverBuffers.ResolveSymlinkPath | components/lwext4_blockdev/lwext4_vfs.c:95-225 | the loop over the two char buffers returns the path or error of the resolver function for buffers of 319, 255 and output size minus 1 characters; the output is untouched on error |
| ResolverBuffers.SeedBuffers | components/lwext4_blockdev/lwext4_vfs.c:100-120 | the buffers before the loop |
| ResolverBuffers.FollowLink | components/lwext4_blockdev/lwext4_vfs.c:178-211 | the buffers after a link, absolute under the mount point, absolute elsewhere or relative |
| ResolverBuffers.FullPathSeeds | components/lwext4_blockdev/lwext4_vfs.c:69-107 | a full path built from mount point and relative part is taken apart into them again |
| ResolverBuffers.LoopFits | components/lwext4_blockdev/lwext4_vfs.c:124-224 | from any buffers whose length plus the cost of the links followed fits, no copy cuts anything |
| ResolverBuffers.BuffersSuffice | components/lwext4_blockdev/lwext4_vfs.c:97-224 | input + 1 + the sum of (target + 1) over followed links below 320 and components below 256: equal to the unbounded resolver |
| ResolverBuffers.LinkCostBound | components/lwext4_blockdev/lwext4_vfs.c:175-186 | the links followed cost at most 7 times (longest target + 1) |
| Truncation.OutputOnlyClips | components/lwext4_blockdev/lwext4_vfs.c:159-224 | a smaller output buffer changes nothing but the returned text, which is cut to it |
| Truncation.OnlyShortPathsAsked | components/lwext4_blockdev/lwext4_vfs.c:149-183 | the result depends on the filesystem only through its answers for paths of at most 319 characters, and on the first 319 characters of targets |
| Truncation.LongNamesAreCut | components/lwext4_blockdev/lwext4_vfs.c:130-146 | two components that agree on their first 255 characters and are no shorter resolve alike |
| Truncation.LongInputsAreCut | components/lwext4_blockdev/lwext4_vfs.c:102-120 | two inputs that agree on the first 319 characters after the mount point and are no shorter resolve alike |
| ComponentWalk.UnparseParse | components/lwext4_blockdev/lwext4_vfs.c:125-146 | cutting a path into components and slashes loses nothing |
| ComponentWalk.ParseAppend | components/lwext4_blockdev/lwext4_vfs.c:185-186 | putting a target before the rest splices their components |
| ComponentWalk.LoopIsWalk | components/lwext4_blockdev/lwext4_vfs.c:124-224 | the text-rewriting loop returns the same path or error as the walk over the component list, from every state |
| ComponentWalk.ResolveIsWalk | components/lwext4_blockdev/lwext4_vfs.c:100-224 | from the input: the result is that of the walk from the mount point over what follows it there, and otherwise from the root or the empty path over the whole input |
| LinkBudget.EloopIff | components/lwext4_blockdev/lwext4_vfs.c:175-176 | absent a readlink error of that value, ELOOP iff an eighth link is met, so never with at most seven, for all buffer sizes |
| LinkBudget.ErrorIsReported | components/lwext4_blockdev/lwext4_vfs.c:175-183 | every other error is what readlink reported for the link at which the loop stopped, met within the first seven |
| LinkBudget.EndlessMeansEloop | components/lwext4_blockdev/lwext4_vfs.c:122-176 | every endless chain of links yields ELOOP, for all buffer sizes |
| ResolvedPaths.ShapeOfSuccess | components/lwext4_blockdev/lwext4_vfs.c:124-224 | every result comes from the buffers of the last turn, reached with at most seven links: what is resolved there is grown from a seed by existing non-links, and the result is that, or that with the first missing component and the unprocessed rest verbatim; if nothing is missing it resolves to itself with no link followed |
| ResolvedPaths.TrailingSlashUnstable | components/lwext4_blockdev/lwext4_vfs.c:102-107 | for every mount point longer than one character that ends in a slash a complete result that does not resolve again |
| ResolvedPaths.WalkAlong | components/lwext4_blockdev/lwext4_vfs.c:148-219 | along a settled text the loop meets no link and returns the text |
| ResolvedPaths.OutputUnderMountIff | components/lwext4_blockdev/lwext4_vfs.c:102-107 | if absolute targets lie under the mount point, so does every result for an input under it, for all filesystems and inputs, iff the mount point does not end in a slash |
| ResolvedPaths.RestartsAfreshIff | components/lwext4_blockdev/lwext4_vfs.c:188-207 | following an absolute link sets the buffers as the fresh input target ++ rest would, for all of them, iff the mount point has no slash after its first character (or is not absolute, so that nothing absolute is under it) |
| ResolvedPaths.AbsoluteLinkRestarts | components/lwext4_blockdev/lwext4_vfs.c:188-212 | for such mount points the resolution goes on as for that input with one link less |
| LittleEndian.DecodeEncode | src/detect.rs:128-135 | little-endian decoding inverts encoding for every width |
| LittleEndian.EncodeDecode | src/detect.rs:128-135 | and encoding inverts decoding |
| PartitionTables.ScanEntry | src/detect.rs:162-209 | one turn of the inner loop contributes what the entry stands for; the size never overflows 64 bits |
| PartitionTables.ScanEntrySector | src/detect.rs:158-210 | the inner loop with its early exits is the flat filter-map up to its sector's end |
| PartitionTables.ScanEntrySectors | src/detect.rs:141-212 | the nested loops are the flat filter-map over the entries of the sectors that read, at most 128 |
| PartitionTables.ScanGpt | src/detect.rs:109-213 | the scanner with header checks computes the GPT scan of the card |
| PartitionTables.ScanSlot | src/detect.rs:258-273 | one turn of the MBR loop contributes what the slot stands for |
| PartitionTables.ScanMbr | src/detect.rs:241-276 | the MBR scanner computes the MBR scan of the card |
| PartitionTables.ScanPartitions | src/detect.rs:222-233 | the combined scanner computes the choice between the two |
| PartitionRoundTrip.TypeCodesOfGuids | src/detect.rs:70-98 | the type codes belong to the three UUIDs as written, and to no other GUID |
| PartitionRoundTrip.SlotRoundTrip | src/detect.rs:164-209 | every encoded GPT slot decodes to what it stands for: nothing for a zero type, a zero start or an end before the start, else start and size cut to 0xFFFFFFFF |
| PartitionRoundTrip.EntryIsSlot | src/detect.rs:162-209 | every 128 bytes are an encoded slot, so that is what the scanner makes of any entry |
| PartitionRoundTrip.HeaderRoundTrip | src/detect.rs:123-139 | a header with the bytes of "EFI PART" and entry size 128 parses to its entry array and count |
| PartitionRoundTrip.HeaderIsEncoded | src/detect.rs:123-139 | a sector that passes the checks is such a header, with count and address not zero |
| PartitionRoundTrip.SectorsReadAre | src/detect.rs:146-153 | on any card, the i-th sector scanned is the one at the i-th address of the array, cut to 32 bits |
| PartitionRoundTrip.FirstFailureStops | src/detect.rs:146-156 | scanning stops early only at an address beyond the card or a failed read |
| PartitionRoundTrip.ReadRunIs | src/detect.rs:146-156 | if j reads complete and the next fails, exactly the first j sectors of the array are scanned |
| PartitionRoundTrip.GptRoundTrip | src/detect.rs:109-213 | every entry array, with any contents, is read back in slot order, of the first 128 slots announced; if sector j of the array is the first to fail, of the first min(4j, n) of them |
| PartitionRoundTrip.GptRoundTripComplete | src/detect.rs:109-213 | the full list comes back as soon as the transactions of the scan itself complete |
| PartitionRoundTrip.GptScanIsOfGpt | src/detect.rs:109-213 | conversely, on any card and with any read failing: if anything is returned, sector 1 holds such a header, and the list is what the first slots of its array stand for, at most 128, as far as its sectors were read |
| PartitionRoundTrip.MbrRoundTrip | src/detect.rs:241-276 | any four slots are read back: those with type and start, in order, all fields exact |
| PartitionRoundTrip.MbrScanIsOfMbr | src/detect.rs:241-276 | conversely, on any card: if anything is returned, sector 0 was read and is an MBR that ends in 0x55 0xAA, and the list is what its four slots stand for |
| PartitionRoundTrip.ChoiceRoundTrip | src/detect.rs:222-233 | the GPT list exactly when the MBR list is empty or all 0xEE and the GPT list is not empty, else the MBR list; also when the GPT scan stops at a failed sector |
| FatDiskio.FatPartition.Read | components/lwext4_blockdev/fat_partition.c:53-77 | card, return code and buffer after a read are those of the read function on both paths |
| FatDiskio.FatPartition.Write | components/lwext4_blockdev/fat_partition.c:79-102 | card and return code after a write are those of the write function on both paths |
| FatDiskio.FatPartition.ReadBounced | components/lwext4_blockdev/fat_partition.c:63-76 | the batch loop of a read computes the batches of the read function |
| FatDiskio.FatPartition.WriteBounced | components/lwext4_blockdev/fat_partition.c:89-101 | the batch loop of a write computes the batches of the write function |
| FatDiskio.FatPartition.SectorCount | components/lwext4_blockdev/fat_partition.c:113-116 | the count is the number of sectors from the partition to the end of the card modulo 2^32, and exactly that when the partition starts on the card |
| FatDiskio.ReportedWindowIff | components/lwext4_blockdev/fat_partition.c:53-116 | every non-empty request within the reported count stays between the partition's start and the card's end iff the partition starts on the card, or a multiple of 2^32 sectors beyond its end (the count is then 0) |
| FatDiskio.ReadBatchesFill | components/lwext4_blockdev/fat_partition.c:63-76 | a bounced read fills all, or exactly the whole batches before the failed one |
| FatDiskio.ReadBatchesCost | components/lwext4_blockdev/fat_partition.c:66-69 | its transactions have 1 to 8 sectors inside the request, ceil(count / 8) of them on success |
| FatDiskio.WriteBatchesLand | components/lwext4_blockdev/fat_partition.c:89-101 | a bounced write changes the card correctly on the whole batches before the failed one and touches nothing beyond that one |
| FatDiskio.WriteBatchesCost | components/lwext4_blockdev/fat_partition.c:91-97 | as for reads |
| FatDiskio.PartReadServes | components/lwext4_blockdev/fat_partition.c:53-77 | both paths of a read serve the card's sectors |
| FatDiskio.PartWriteLands | components/lwext4_blockdev/fat_partition.c:79-102 | both paths of a write put the data there; a failed one leaves what landed, one transaction in doubt and all other sectors untouched |
| FatDiskio.FaultFreeCosts | components/lwext4_blockdev/fat_partition.c:53-102 | without faults both paths succeed, with one transaction or ceil(count / 8) |
| FatSlice.SliceRefined | components/lwext4_blockdev/fat_partition.c:53-102 | at every point of every run nothing before the partition has changed and every sector whose latest write transaction did not fail holds the last data written, also within failed requests |
| FatSlice.ReadsReturnLastWrites | components/lwext4_blockdev/fat_partition.c:53-77 | every successful read returns them |

## Left out

- The internals of lwext4, FATFS, the ESP-IDF VFS and the SDMMC driver, which are not part of the repository.
- Byte addresses inside sector buffers: memcpy always moves whole sectors, so buffers are arrays of sectors.
- Requests beyond the card: lwext4 checks its geometry first; only the scanners, which take addresses from the disk, are modelled with refused addresses.
- In the resolver the buffers `candidate`, `rest`, `target`, `new_remaining` and `component`, which live for one turn, are strings cut to their capacity; `resolved`, `remaining` and the output are char arrays.
- A link target that contains a NUL: targets are the C strings that the code sees.
- Dot components: the resolver passes them to lwext4 like any other name.
- The loops of `bdev_bread`, `scan_gpt`, `scan_mbr` and the resolver are cut into a method per turn or phase, in the order of the source.
- In `scan_gpt`, the log line for an unknown type GUID, and overflow checks of debug builds: an entry array address near 2^64 wraps as in release builds.
- GPT checksums, the backup header and other entry sizes, which the code does not implement.
- The upper edge of a FAT partition, which the code does not know: the reported size runs to the end of the card.
- Mounting, unmounting, card and host initialisation, formatting, superblock diagnostics, `detect` and the name tables: sequences of foreign calls, or look-ups with nothing to prove about them.
- The file and directory tables, readdir filtering and open flags of the VFS: behaviour of lwext4 or single table look-ups.
- Concurrency: the lock callbacks are NULL, so calls are sequential.
