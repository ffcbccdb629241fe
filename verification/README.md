# YARM boot policy and trace checkers, modelled in Dafny

YARM is a microkernel. This project models two kinds of its code and proves what
they promise.

**Boot policy (Rust).** `aarch64_boot_policy.rs` plans memory in stages: it cuts
reservations out of RAM on fixed arrays, carves a page-table pool and an early
heap, hands the rest to the page allocator, maps it, accepts an initrd, looks up
`init` in a CPIO archive and plans its ELF segments and task. `fdt.rs` looks up
values in a flattened devicetree, and `aarch64_cpu_admission.rs` numbers CPUs.
`pack-initramfs-aligned.py` writes the archives the CPIO lookup reads.

**Trace checkers (Python).** The witness scripts replay records of the kernel's
concurrency protocols: scheduler sections, kernel-thread life cycles, SGI and IPI
deliveries, lock ownership. The models start from parsed records.

## How it is laid out

| modules | subject |
|---|---|
| `Machine`, `Bits`, `Bytes`, `Hex`, `Sets`, `Newc` | words, masks, byte strings, constants |
| `Stage1Ranges`, `KernelPlanner`, `KernelPlanProofs`, `PlanRefusals`, `PlanMeaning` | range subtraction, first fit, stage-1 plan |
| `AllocatorHandoff`, `HandoffProofs`, `HandoffMeaning` | page allocator handoff |
| `IdentityMap`, `MapMeaning`, `BootComposition`, `SharedImage` | identity map, stage 2A, agreement between stages |
| `CpioPack`, `CpioFind`, `CpioMeaning`, `CpioRoundTrip` | archive writer, archive lookup, round trip |
| `InitElf`, `ElfImage`, `ElfMeaning`, `InitTask`, `TaskMeaning` | ELF plan, ELF files as bytes, task plan |
| `Fdt`, `FdtMeaning`, `FdtTree`, `FdtLookup`, `FdtReject` | devicetree lookups, serializer, exactness, arbitrary bytes |
| `CpuAdmission`, `AdmissionProofs` | CPU numbering and its closed form |
| `SchedTrace`, `SchedPlacement`, `SchedInstalls`, `SchedNotify`, `SchedRecords`, `SchedReplay`, `SchedVerdict` | scheduler trace checker |
| `KThread`, `KThreadVerdict`, `KThreadMoves`, `KThreadLife`, `KThreadSlots`, `KThreadLegal`, `KThreadScan`, `KThreadFaults` | kernel-thread replay |
| `SgiPopulation`, `SgiGroups`, `SgiCheck` | SGI population check |
| `IpiPopulation`, `IpiProofs`, `IpiMeaning` | IPI mailbox population |
| `LockOwnership`, `LockProofs` | lock ownership checker |

Loops of the source are methods, proved equal to a specification function or
against a specification stated outright; what the source promises is then proved
about the specification, for every input or every record sequence. The answers
themselves are restated on the raw input, as bytes at offsets or as scans over the
records, by definitions written apart from the functions they describe
(`PlanMeans`, `MapMeans`, `TaskMeans`, `FindMeans`, `WalkTraces`, `VerdictIs`,
`VerdictSays`, `PopulationMeans`). Fixed arrays stay arrays, the growing archive is a
class with a byte-sequence field, and Python dictionaries are maps in local
variables, with their insertion order kept where the reports depend on it.

`u64` is a subset type, so every addition that could leave 64 bits is a checked
addition as in the source. Bit masks are natural numbers with the operations of
`Bits`. Where a trace model compares record numbers it takes them to be strictly
increasing, as the records are numbered.

Code and comment differ in four places the model covers; the model follows the code.

- The selection loop of `aarch64_cpu_admission.rs` says it looks strictly above the
  last affinity, but its test lets an equal one through, which is how duplicates are
  found.
- `cpus_hart_id_bitmap` promises `None` for a structurally invalid devicetree
  (`fdt.rs` lines 160-161), but a structure block that opens the root and ends there
  yields `Some(0)`. `FdtReject.HartPromise` gives the exact condition.
- `chosen_bootargs` and `memory_reg` promise that structural errors reject the
  devicetree (lines 11-13 and 77-81), but they return as soon as the property is
  found. `FdtReject.BootargsIff` and `FdtReject.MemoryIff` say which errors are seen.
- `memory_reg` speaks of the first memory node; the code takes the first one that has
  a `reg`.

One promise of the source is false as a general statement: stage 2A does not
accept every initrd that stage 1 reserved. The label of a reservation depends on its
position, so when kernel, DTB and low-firmware ranges are not distinct the initrd
can land among the first three and is refused. `Stage2AAgrees` gives the exact
condition and `SharedImage` a concrete machine.

`dafny verify dfyconfig.toml` checks the whole project.

## Model

| member | source | states |
|---|---|---|
| Stage1Ranges.Subtract | src/arch/aarch64_boot_policy.rs:1834-1865 | the in-place loop, which appends while it walks, ends; it succeeds exactly when every split finds a free slot and then leaves the list with the range cut out of every entry |
| Stage1Ranges.SubtractEntry | src/arch/aarch64_boot_policy.rs:1838-1862 | one turn of that loop: the entry is replaced by what is kept of it, the second half of a split goes to the end, and it fails exactly on a split with no slot left |
| Stage1Ranges.SubtractedHolders | src/arch/aarch64_boot_policy.rs:1834-1865 | conservation: every interval keeps exactly its holders if it misses the cut range, and has none otherwise |
| Stage1Ranges.SubtractedDisjoint | src/arch/aarch64_boot_policy.rs:1834-1865 | cutting a range out of a disjoint list leaves it disjoint |
| Stage1Ranges.SubtractedGrowth | src/arch/aarch64_boot_policy.rs:1834-1865 | a disjoint list grows by at most one entry, so one free slot is always enough |
| Stage1Ranges.DisjointPair | src/arch/aarch64_boot_policy.rs:187-204 | no address listed twice means that no two non-empty entries overlap in the sense of `overlaps` |
| Stage1Ranges.Allocate | src/arch/aarch64_boot_policy.rs:1867-1884 | the first aligned fit is returned and cut out of the list, or nothing when there is no fit or no slot |
| Stage1Ranges.FirstFitSound | src/arch/aarch64_boot_policy.rs:1867-1884 | a block handed out is aligned, of exact size and inside one listed range |
| PlanRefusals.FirstFitNone | src/arch/aarch64_boot_policy.rs:1867-1884 | first fit finds nothing exactly when every range with room for an aligned block stands behind one whose aligned block would leave 64 bits |
| PlanRefusals.FirstFitFirst | src/arch/aarch64_boot_policy.rs:1867-1884 | first fit takes the lowest aligned place of the first range with room |
| KernelPlanner.PlanKernelMemory | src/arch/aarch64_boot_policy.rs:814-924 | the planner on its fixed arrays computes the plan specification, with the same error in every branch; `PlanMeans` says which inputs give which answer |
| KernelPlanner.CollectReservations | src/arch/aarch64_boot_policy.rs:829-883 | low firmware, kernel, DTB, firmware ranges and the initrd are collected in the reservation array in order, zero-sized entries skipped and listed; `ReservationsMean` says which inputs give which list or error |
| KernelPlanner.SubtractReservations | src/arch/aarch64_boot_policy.rs:903-905 | all reservations are cut out of the RAM array one after another, or the capacity failure is reported |
| KernelPlanProofs.ReservationsExact | src/arch/aarch64_boot_policy.rs:829-883 | the reservation list holds low firmware, kernel, DTB, every non-empty firmware range and the initrd, nothing else, nothing twice |
| KernelPlanProofs.ReservationsRoom | src/arch/aarch64_boot_policy.rs:1803-1816 | the reservation array never runs out of its twelve slots |
| KernelPlanProofs.PlanConserves | src/arch/aarch64_boot_policy.rs:814-924 | in every plan an interval of memory is usable exactly as often as RAM holds it if it misses every reservation, the pool and the heap, and never otherwise |
| KernelPlanProofs.PlanBlocks | src/arch/aarch64_boot_policy.rs:907-920 | pool and heap are 64 KiB aligned, of exact size, inside one RAM range, and miss every reservation and each other |
| KernelPlanProofs.PlanPartitions | src/arch/aarch64_boot_policy.rs:814-924 | over disjoint RAM every address is in exactly one of usable memory, pool and heap if it is unreserved RAM, and in none otherwise |
| KernelPlanProofs.PlanHasRoom | src/arch/aarch64_boot_policy.rs:885-923 | over at most eight disjoint RAM ranges and eight firmware ranges neither capacity error can be returned, and at most 22 of 24 usable slots are used |
| PlanRefusals.BlockIsFirstFit | src/arch/aarch64_boot_policy.rs:1867-1884 | over disjoint ranges with a slot to spare `allocate` never turns a full list into a refusal: it hands out exactly the first fit |
| PlanRefusals.CarveRefuses | src/arch/aarch64_boot_policy.rs:885-923 | over disjoint RAM the pool, and after it the heap, is refused exactly when no range in reach has room for it |
| PlanMeaning.ReservationsMean | src/arch/aarch64_boot_policy.rs:829-883 | collecting fails exactly for the fault of the inputs, in the order tested: a firmware range that runs over, an initrd that is empty, runs over, is not in one RAM range or meets something reserved; otherwise the list is low firmware, kernel, DTB, non-empty firmware ranges and the page-rounded initrd, each once, in this order |
| PlanMeaning.PlanEarly | src/arch/aarch64_boot_policy.rs:814-902 | for all inputs the plan fails before carving exactly for a fault of the inputs, each fault with its error, and otherwise carves those reservations out of the RAM extents |
| PlanMeaning.PlanMeans | src/arch/aarch64_boot_policy.rs:814-924 | every answer of the planner on the inputs: a fault of the inputs; else no pool when no aligned block of its size lies in RAM clear of the reservations; else no heap when none is clear of the first such pool; else a plan with those reservations and that pool |
| PlanMeaning.ZeroSizedExact | src/arch/aarch64_boot_policy.rs:844-855 | the zero-sized list holds exactly the positions of the empty firmware ranges, ascending |
| AllocatorHandoff.PlanAllocatorHandoff | src/arch/aarch64_boot_policy.rs:926-1009 | the handoff on its fixed arrays computes the handoff specification, with the same error in every branch |
| AllocatorHandoff.SortRanges | src/arch/aarch64_boot_policy.rs:1080-1090 | the in-place insertion sort leaves the sorted list in the first slots |
| AllocatorHandoff.InsertAt | src/arch/aarch64_boot_policy.rs:1082-1089 | one insertion: later-starting ranges move one slot right, the current one drops into the gap, the rest of the array stays |
| AllocatorHandoff.LabelReservations | src/arch/aarch64_boot_policy.rs:930-956 | every reservation is appended with its reason |
| AllocatorHandoff.CollectInteriors | src/arch/aarch64_boot_policy.rs:980-991 | each free range is replaced by its page interior, empty interiors dropped |
| AllocatorHandoff.SortedMembers | src/arch/aarch64_boot_policy.rs:1080-1090 | sorting is a permutation |
| HandoffProofs.SortedAscending | src/arch/aarch64_boot_policy.rs:1080-1090 | the sorted list ascends by start |
| HandoffProofs.LabelledExact | src/arch/aarch64_boot_policy.rs:930-956 | labelling a plan never fails, keeps its ranges in order, adds the pool and the heap, and gives each the reason of its position |
| HandoffMeaning.LabelsMean | src/arch/aarch64_boot_policy.rs:930-956 | after a plan the list starts with low firmware, then kernel and DTB where they are ranges of their own, each labelled by its place, later ranges as firmware or initrd, the pool and the heap last |
| HandoffProofs.HandoffNeverOverlaps | src/arch/aarch64_boot_policy.rs:993-1004 | for a stage-1 plan `UsableOverlapsReserved` and the reservation capacity error can never be returned |
| HandoffProofs.HandoffFailures | src/arch/aarch64_boot_policy.rs:926-1009 | over disjoint RAM the handoff overflows exactly when a free range starts past the last page boundary of the address space, otherwise reports no frames exactly when no whole page of RAM is untaken, and fails in no other way |
| HandoffProofs.HandoffPages | src/arch/aarch64_boot_policy.rs:926-1009 | a page is handed over exactly when one RAM range holds all of it and nothing reserved touches it; these are the pages of the stage-1 usable ranges |
| HandoffProofs.HandoffShape | src/arch/aarch64_boot_policy.rs:980-1008 | the ranges handed over are whole pages, not empty, ascending, and `total_pages` is the sum of their lengths |
| HandoffProofs.HandoffTotal | src/arch/aarch64_boot_policy.rs:993-1008 | over disjoint RAM no page is handed over twice and `total_pages` is the number of free pages |
| IdentityMap.PlanIdentityMap | src/arch/aarch64_boot_policy.rs:1092-1215 | the map planner on its fixed array computes the map specification, with the same error in every branch |
| IdentityMap.CheckMappings | src/arch/aarch64_boot_policy.rs:1187-1196 | the nested check reports the first mapping beyond the TTBR0 limit or the first attribute clash |
| MapMeaning.MappingsMean | src/arch/aarch64_boot_policy.rs:1115-1185 | the mappings are the page-rounded RAM ranges as normal memory and the UART, distributor and four redistributor pages as devices, in order, unless an address runs over or there are more than thirteen |
| MapMeaning.MapMeans | src/arch/aarch64_boot_policy.rs:1092-1215 | every answer of the map planner on its inputs: a bad pool, overflow, capacity, the first mapping beyond the limit or clashing, the first required range not mapped, else those mappings |
| MapMeaning.InitrdMeans | src/arch/aarch64_boot_policy.rs:1364-1406 | every answer of the stage-2A initrd planner on its inputs, test by test |
| BootComposition.MapAcceptsPlan | src/arch/aarch64_boot_policy.rs:1092-1215 | a stage-1 plan never makes the map fail with `InvalidPageTablePool`, `PageTablePoolNotMapped` or `EarlyHeapNotMapped` |
| BootComposition.MapIsSound | src/arch/aarch64_boot_policy.rs:1092-1215 | an accepted map stays below the TTBR0 limit, has no clash of attributes, and maps kernel, stack, DTB, pool and heap as normal memory |
| BootComposition.MappingCapacityExact | src/arch/aarch64_boot_policy.rs:1115-1185 | the mapping capacity error occurs exactly with eight RAM ranges, a distributor and a redistributor, and overflow exactly when some address wraps |
| BootComposition.FirstFaultCase | src/arch/aarch64_boot_policy.rs:1187-1196 | no fault is found exactly when every mapping ends below the limit and no normal mapping meets a device page |
| BootComposition.InitrdIsLast | src/arch/aarch64_boot_policy.rs:856-883 | the initrd of a plan is its last reservation and overlaps none of the others |
| BootComposition.Stage2AAgrees | src/arch/aarch64_boot_policy.rs:1364-1406 | after any plan that reserved an initrd, stage 2A accepts it with the same reservation exactly when low firmware, kernel, DTB and the non-empty firmware ranges make at least three distinct ranges, and refuses it as overlapping otherwise |
| BootComposition.Stage2AAccepts | src/arch/aarch64_boot_policy.rs:1364-1406 | with kernel, DTB and low-firmware ranges distinct, stage 2A accepts the initrd that stage 1 reserved |
| SharedImage.Stage2ARefusesSharedImage | src/arch/aarch64_boot_policy.rs:931-956 | the condition is needed: a concrete machine whose DTB range equals its kernel range is planned and handed over, and stage 2A refuses its initrd |
| CpioFind.FindInit | src/arch/aarch64_boot_policy.rs:1442-1504 | the bounded loop computes the lookup specification and any file it returns lies inside the archive |
| CpioFind.ReadEntry | src/arch/aarch64_boot_policy.rs:1446-1498 | one entry: the same error for each malformed case, else its name, payload and the next offset |
| CpioMeaning.EntryMeans | src/arch/aarch64_boot_policy.rs:1446-1498 | on any bytes an entry is refused for the first thing wrong with it, and otherwise has the name, payload place, size and successor its header fields give |
| CpioMeaning.FindMeans | src/arch/aarch64_boot_policy.rs:1442-1504 | on any bytes: sound entries that are neither `init` nor the trailer are passed over from the start, at most 4096, and the next entry settles the answer: its fault, the file, not found, or a missing trailer |
| CpioFind.ParseNewcHex | src/arch/aarch64_boot_policy.rs:1747-1762 | eight hex digits of either case are read to their value below 2^32, anything else is refused |
| Hex.NibbleMeans | src/arch/aarch64_boot_policy.rs:1747-1762 | a byte is a hex digit exactly when it stands in one of the two alphabets, with its place as value |
| CpioPack.HeaderLength | scripts/pack-initramfs-aligned.py:42-62 | the header assertion holds exactly when inode, mode and sizes fit 32 bits |
| CpioPack.Archive.WriteEntry | scripts/pack-initramfs-aligned.py:70-89 | the entry is appended and the payload offset returned, or nothing is written when a field does not fit |
| CpioPack.Archive.InsertAlignmentPad | scripts/pack-initramfs-aligned.py:92-139 | the padding entry fills exactly the gap; its assertions hold exactly up to padding number 9999 |
| CpioPack.PadFills | scripts/pack-initramfs-aligned.py:102-139 | a padding entry numbered below 10000 has a nine-byte name, fits its header fields and is exactly as long as the gap it must fill |
| CpioPack.FourDigits | scripts/pack-initramfs-aligned.py:128-129 | the padding name is nine bytes long exactly for counters below 10000 |
| CpioPack.Archive.Pack | scripts/pack-initramfs-aligned.py:170-226 | packing succeeds exactly when every readable entry fits its header and every padding it needs is numbered below 10000; the archive is then the layout of the entries with the trailer, and every aligned payload is at a multiple of 4096 |
| CpioPack.FormatPacks | scripts/pack-initramfs-aligned.py:170-226 | entries with 32-bit sizes, at most 9999 of them aligned, always pack, as does every prefix of them |
| CpioMeaning.HeaderMeans | scripts/pack-initramfs-aligned.py:42-62 | the thirteen header fields of a written entry, read back at their places: inode, mode, link count, file size and name size, zero elsewhere |
| CpioMeaning.AlignMeans | scripts/pack-initramfs-aligned.py:161-169 | the entries put on a page are those named for it and the readable files that start with the ELF magic |
| CpioMeaning.ItemMeans | scripts/pack-initramfs-aligned.py:178-215 | directories are written empty with mode 040755, files with content and permission bits, unreadable files left out |
| CpioMeaning.PadMeans | scripts/pack-initramfs-aligned.py:92-139 | a padding entry is named by its number in decimal, read-only, and holds zeros for the rest of the gap |
| CpioRoundTrip.EntryParses | src/arch/aarch64_boot_policy.rs:1446-1498 | an entry the packer wrote at any aligned place parses back to its name, payload position, size and successor |
| CpioRoundTrip.ConcatFinds | src/arch/aarch64_boot_policy.rs:1442-1504 | on the bytes of any written items with short names that end with the trailer the lookup answers like a scan of the items: never `MissingTrailer`, never a parse error |
| CpioRoundTrip.ScanStop | src/arch/aarch64_boot_policy.rs:1442-1504 | that scan answers from the first item named `init`, `/init` or like the trailer, and with the entry limit exactly when the budget ends before it |
| CpioRoundTrip.LayAgrees | scripts/pack-initramfs-aligned.py:178-219 | padding entries never stop a lookup: the first item that does is the first packed entry that does, with its payload |
| CpioRoundTrip.PackFindRoundTrip | src/arch/aarch64_boot_policy.rs:1442-1504 | for any packed entries with names the parser takes, the lookup returns the bytes of the first entry named `init` or `/init`, or `NotFound`, and `EntryLimit` exactly when 4096 written items come before the one it would stop at |
| CpioRoundTrip.AlignedPayload | scripts/pack-initramfs-aligned.py:178-219 | every packed entry that asks for alignment is reported with a multiple of 4096 where the archive holds its payload |
| CpioRoundTrip.LayoutPrintable | scripts/pack-initramfs-aligned.py:178-219 | within the format no header assertion can fail for any entry, padding or trailer |
| InitElf.PlanInitElf | src/arch/aarch64_boot_policy.rs:1513-1613 | the planner loop on its eight-entry array computes the specification, error by error; `PlanMeans` says which bytes give which answer |
| InitElf.TakeLoads | src/arch/aarch64_boot_policy.rs:1565-1605 | the loop stops at the first loadable header it must refuse, for that header's reason, else holds all loadable headers in order |
| InitElf.ElfAccepts | src/arch/aarch64_boot_policy.rs:1513-1613 | with a right header the file is accepted exactly when it has one to eight loadable headers, all good, one of them executable around the entry; the plan lists them all in order |
| InitElf.PlanIsGood | src/arch/aarch64_boot_policy.rs:1513-1613 | every accepted segment is non-empty, fits the file and the address space, and is not both writable and executable |
| ElfMeaning.HeaderMeans | src/arch/aarch64_boot_policy.rs:1520-1560 | on any bytes the header is refused for its first wrong field and otherwise gives entry, table place and count, as little-endian fields at their offsets |
| ElfMeaning.PlanMeans | src/arch/aarch64_boot_policy.rs:1513-1613 | every answer of the planner on any bytes: the header fault, the first loadable header that cannot be taken with its reason, no loadable header, no entry, or one segment per loadable header with file offset, address, sizes and flags read from its bytes |
| ElfImage.HeaderRoundTrip | src/arch/aarch64_boot_policy.rs:1520-1560 | a file that starts with a written ELF header reads back as that header, or fails for the first of entry, count and table room that is wrong |
| ElfImage.ImagePlan | src/arch/aarch64_boot_policy.rs:1513-1613 | the plan of any file built from a header and a program-header table is decided by the table: its loadable headers, all good, one to eight, one around the entry, each segment carrying every field of its header |
| ElfImage.ProgramReads | src/arch/aarch64_boot_policy.rs:1565-1577 | the bytes of a program header, at any place, read back as its fields |
| InitTask.PlanInitTask | src/arch/aarch64_boot_policy.rs:1615-1690 | the planner loop computes the specification, error by error |
| InitTask.TaskAccepts | src/arch/aarch64_boot_policy.rs:1615-1690 | a plan is accepted exactly when every segment alone is plannable, page ranges are pairwise apart and a read-execute segment holds the entry |
| InitTask.AfterElf | src/arch/aarch64_boot_policy.rs:1615-1690 | after the ELF planner neither `NoSegments` nor `EntryNotExecutable` can be returned, and acceptance depends only on permissions, address range and overlaps |
| TaskMeaning.TaskMeans | src/arch/aarch64_boot_policy.rs:1615-1690 | every answer of the task planner on any segments: the first segment at fault with its reason, none, an entry nowhere executable, or the page ranges and permissions of each with the four-page stack and its top as pointer |
| TaskMeaning.ImageBytes | src/arch/aarch64_boot_policy.rs:1513-1690 | for an accepted file every address of a loadable header has, by the two plans, the file byte its header puts there, or zero past the file size, under the permissions of its flags |
| InitTask.InitImage | src/arch/aarch64_boot_policy.rs:1615-1690 | when both planners accept, no address lies in two segments or in one and the stack, none is writable and executable, file bytes and zero-fill partition each segment, and the entry is executable |
| Fdt.ChosenBootargs | src/arch/fdt.rs:14-74 | on any bytes the loop ends, reads in bounds and computes the bootargs fold over the walk |
| Fdt.MemoryReg | src/arch/fdt.rs:81-152 | on any bytes the loop ends, reads in bounds and computes the memory fold over the walk |
| Fdt.CpusHartIdBitmap | src/arch/fdt.rs:162-261 | on any bytes the loop ends, reads in bounds and computes the hart-id fold over the walk |
| Fdt.ParseUnitAddress | src/arch/fdt.rs:263-282 | the hex digits after the `@` are read, or nothing when there are none or they overflow |
| FdtMeaning.RegPairMeans | src/arch/fdt.rs:580-599 | a `reg` is decoded as two big-endian numbers of the given cell counts, for all bytes and counts |
| FdtMeaning.HartRegMeans | src/arch/fdt.rs:237-252 | a hart id is the big-endian number of the last four bytes of a `reg` of four or eight, and anything else is unreadable |
| FdtMeaning.NodeKinds | src/arch/fdt.rs:113-208 | memory and cpu nodes are those whose name up to the `@` is that word |
| FdtMeaning.UnitNumberMeans | src/arch/fdt.rs:263-282 | the unit address is the number spelled by what follows the `@`, when that is hex digits only, at least one, and below 2^32 |
| FdtMeaning.NextMeans | src/arch/fdt.rs:31-70 | the tokens of the walk are the begin, property, end and NOP tokens of the format, byte for byte; anything else is malformed |
| FdtMeaning.WalkTraces | src/arch/fdt.rs:31-70 | the walk is a chain of such tokens from the start of the block, up to FDT_END, the end of the block, or a malformed one |
| FdtMeaning.BlocksMean | src/arch/fdt.rs:15-30 | the two blocks are those at the offsets and lengths of a header with the right magic, inside the bytes |
| FdtTree.WalkDecodes | src/arch/fdt.rs:608-621 | the walk over a serialized token list sees exactly its tokens |
| FdtTree.BlobHolds | src/arch/fdt.rs:15-30 | the header written for two blocks gives those blocks back, so every tree has a blob that holds it |
| FdtLookup.BootargsExact | src/arch/fdt.rs:14-74 | on every blob that holds a tree the answer is the `bootargs` of the first `chosen` child of the root that has one |
| FdtLookup.MemoryExact | src/arch/fdt.rs:81-152 | on every blob that holds a tree the answer is the first `reg` of the first memory node that has one, decoded big-endian with the last cell counts the root gives, and nothing when one of those cannot be read |
| FdtLookup.HartExact | src/arch/fdt.rs:162-261 | on every blob that holds a tree bit `j` of the answer is set exactly when a cpu node under `/cpus` has hart id `j` below 64 |
| FdtReject.HartNoneIff | src/arch/fdt.rs:160-261 | on any structure block the bitmap is refused exactly when a malformed token, or an end with no node open, comes before FDT_END |
| FdtReject.HartBits | src/arch/fdt.rs:162-261 | on any structure block not refused, bit `j` is set exactly when a cpu node under `/cpus` with hart id `j` below 64, from its last readable `reg` or else its unit address, is closed before FDT_END |
| FdtReject.HartPromise | src/arch/fdt.rs:160-161 | so it refuses exactly the blocks that FDT_END does not close, except when the block runs out or FDT_END comes with nodes open and nothing else wrong |
| FdtReject.UnclosedRootAccepted | src/arch/fdt.rs:160-261 | a blob whose structure block opens the root and ends there, unclosed and without FDT_END, yields bitmap 0 |
| FdtReject.BootargsIff | src/arch/fdt.rs:11-74 | on any structure block the answer is the first `bootargs` directly in a `/chosen` before any error and before FDT_END, and there is none exactly when no such property is reached |
| FdtReject.UnclosedChosenAccepted | src/arch/fdt.rs:11-13 | boot arguments are returned although FDT_END comes with `/chosen` and the root still open |
| FdtReject.MemoryIff | src/arch/fdt.rs:77-152 | on any structure block the answer is settled by the first `reg` of a memory node, with the root's cell counts so far, or by the first unreadable cell count, before any error and before FDT_END |
| CpuAdmission.Plan | src/arch/aarch64_cpu_admission.rs:126-183 | the selection loop plans every listed node with its closed form and nothing else |
| CpuAdmission.ComputeBound | src/arch/aarch64_cpu_admission.rs:98-112 | the limit is the least of ceiling, interfaces and logical ids, named after the one that binds; one without a distributor |
| AdmissionProofs.AffinityBits | src/arch/aarch64_cpu_admission.rs:53-54 | an affinity keeps bits 0 to 23 and 32 to 39 of the register and no other |
| CpuAdmission.PlanRest | src/arch/aarch64_cpu_admission.rs:149-181 | picking the least unplanned affinity until none is left plans every node right |
| AdmissionProofs.ReorderInvariant | src/arch/aarch64_cpu_admission.rs:126-183 | reordering the nodes changes no affinity's outcome |
| AdmissionProofs.IdsDense | src/arch/aarch64_cpu_admission.rs:126-183 | the secondaries' logical ids are exactly one up to the CPU count |
| AdmissionProofs.IdsDistinct | src/arch/aarch64_cpu_admission.rs:126-183 | no two nodes take the same logical id |
| AdmissionProofs.PresentBitmap | src/arch/aarch64_cpu_admission.rs:186-194 | bit `c` of the bitmap is set exactly for the boot CPU and every id some node took |
| AdmissionProofs.BitmapIsDense | src/arch/aarch64_cpu_admission.rs:186-194 | the present bitmap is 2^k - 1 for k logical CPUs |
| AdmissionProofs.StacksDistinct | src/arch/aarch64_cpu_admission.rs:198-210 | admitted secondaries have a dispatch stack slot each, all different |
| SchedVerdict.Grade | scripts/grade-sched-lock1-witness.py:197-374 | the checker accepts exactly the traces with nothing against them on the records, and otherwise names what they fail: the first record at fault, a snapshot that places a task twice, the first SEC record that cannot follow, a census other than the last SEC, ADD and REM records leave, an addition unanswered, or a RUN that fits no installation |
| SchedVerdict.VerdictUnique | scripts/grade-sched-lock1-witness.py:197-374 | the records determine the verdict |
| SchedTrace.ParseSections | scripts/grade-sched-lock1-witness.py:197-240 | the section loop computes the section specification, obligation by obligation; `ParseMeans` says which records give which sections |
| SchedRecords.SectionMeans | scripts/grade-sched-lock1-witness.py:205-236 | a section is refused for what is wrong with its SEC, ADD, REM and UNINSTALL records, else has its before and after task, added priorities, removals and end from their fields |
| SchedRecords.ParseMeans | scripts/grade-sched-lock1-witness.py:197-240 | a body parses exactly when no record of it is at fault, into one section per SEC record in order, and else fails what its first record at fault fails |
| SchedTrace.ReplaySections | scripts/grade-sched-lock1-witness.py:241-302 | the replay loop over currents, queues, installations and timelines computes the replay specification |
| SchedReplay.StepMeans | scripts/grade-sched-lock1-witness.py:252-297 | a section can be replayed exactly when its records can follow those before it: its task is current, its removals queued and its additions not, a restored task nowhere else, its end the one in force, nothing it names in two places |
| SchedReplay.ReplayMeans | scripts/grade-sched-lock1-witness.py:241-302 | the replay succeeds exactly when every SEC record can follow, and ends in the state that scanning the records finds; else it fails for the first one that cannot |
| SchedTrace.MatchNotifications | scripts/grade-sched-lock1-witness.py:303-318 | the mail loop computes the matching and whether every leftover is excused |
| SchedVerdict.AnsweredMeans | scripts/grade-sched-lock1-witness.py:303-318 | every leftover is excused exactly when each remote addition with no more later notifications than additions waiting before it is the last section its executor ran |
| SchedTrace.CheckRuns | scripts/grade-sched-lock1-witness.py:337-374 | the run loop accepts exactly when every run names an installation once and every observed installation was run |
| SchedVerdict.InstallsMean | scripts/grade-sched-lock1-witness.py:252-293 | the installations are those the SEC records make, each ended by the next SEC record on its CPU that changes the current task, seen running as its UNINSTALL record says |
| SchedVerdict.RunsMean | scripts/grade-sched-lock1-witness.py:337-374 | the run pass accepts exactly when every RUN record fits an installation of the records, none is named twice, and every one seen running is named |
| SchedPlacement.PlacedOnceThroughout | scripts/grade-sched-lock1-witness.py:241-302 | in every accepted trace, after every section, each task other than 0 is in at most one place, current or queued, on any CPU |
| SchedPlacement.UntouchedKeeps | scripts/grade-sched-lock1-witness.py:255-297 | a section leaves the places of every task it does not touch as they were, which is why re-checking the touched ones is enough |
| SchedPlacement.CensusPlacedOnce | scripts/grade-sched-lock1-witness.py:298-302 | the census of an accepted trace places every task at most once |
| SchedReplay.WakesConserved | scripts/grade-sched-lock1-witness.py:241-302 | after every replay, per CPU and task, queued plus REM records is queued at the snapshot plus ADD records; the priority is that of the last ADD record and the current task that of the last SEC record |
| SchedReplay.CensusConserved | scripts/grade-sched-lock1-witness.py:241-302 | the same arithmetic on the records holds of the census of every accepted trace |
| SchedInstalls.InstallationIntervals | scripts/grade-sched-lock1-witness.py:252-293 | after every section the installation in force names the CPU's current task, only it is open, and intervals on one CPU never overlap |
| SchedInstalls.ReplayedTimeline | scripts/grade-sched-lock1-witness.py:327-335 | the recorded timeline gives, for every CPU and record number, exactly the installation whose interval spans it |
| SchedInstalls.ObservedIffRun | scripts/grade-sched-lock1-witness.py:337-374 | an ended installation was observed exactly when one run names it, on its CPU and task, with a generation between installing and ending section |
| SchedInstalls.InForceTestRedundant | scripts/grade-sched-lock1-witness.py:352-362 | the in-force test of a run follows from its other tests |
| SchedNotify.RemoteAddsNotified | scripts/grade-sched-lock1-witness.py:303-318 | every remote addition is matched to a later notification of the same executor and target, or is the last section that CPU executed |
| SchedNotify.OneUnanswered | scripts/grade-sched-lock1-witness.py:303-318 | at most one remote addition of each executing CPU is unmatched |
| SchedNotify.MatchingInjective | scripts/grade-sched-lock1-witness.py:303-318 | no notification answers two additions and no addition is answered twice |
| SchedNotify.PostOk | scripts/grade-sched-lock1-witness.py:303-318 | matches are genuine and in order, pending additions are in order, and no addition is lost |
| KThreadVerdict.Replay | scripts/grade-kthread1-witness.py:96-338 | the record loop and the loops over the threads compute the two report lists of the specification, in report order; `VerdictSays` says which records give which |
| KThreadVerdict.VerdictMeans | scripts/grade-kthread1-witness.py:304-338 | nothing is impossible exactly when the run is declared, no record is flagged, no final repeats and every role is known; nothing is left open exactly when every thread ran, left, was reclaimed and is gone, and the threads of each counted role are as many as the contract fixes |
| KThreadFaults.StepSays | scripts/grade-kthread1-witness.py:160-303 | after records without a fault the next one is flagged exactly for its faults, found by scanning the records before it: ordinals, phases, owners, slots, wakers |
| KThreadFaults.FirstFlagged | scripts/grade-kthread1-witness.py:160-303 | the first flagged record of any run is flagged exactly for its faults |
| KThreadFaults.VerdictSays | scripts/grade-kthread1-witness.py:96-338 | the verdict as a condition on the records: nothing is impossible exactly when the run is declared and no record has a fault where it stands, and then nothing is left open exactly when every thread is finished and every role filled |
| KThreadVerdict.AfterListed | scripts/grade-kthread1-witness.py:182-208 | at the end of every replay the creation order lists exactly the known threads, each once |
| KThreadLife.RunningIffOwner | scripts/grade-kthread1-witness.py:149-248 | at every prefix a thread runs exactly when it owns its home CPU, and no CPU runs two |
| KThreadLife.InThreadInsideInterval | scripts/grade-kthread1-witness.py:249-258 | every record a thread writes about itself follows its own dispatch on that CPU with no dispatch or switch in between |
| KThreadLife.InThreadIntervalCloses | scripts/grade-kthread1-witness.py:249-258 | if nothing is incomplete that interval ends with the thread's own switch |
| KThreadLife.EveryLifeWhole | scripts/grade-kthread1-witness.py:209-248 | if nothing is incomplete each thread's word is create, turns of dispatch and yield or block, a last dispatch, the exit switch, one reclaim |
| KThreadLife.NoLifeBroken | scripts/grade-kthread1-witness.py:209-248 | at every prefix each thread's word is a prefix of such a life, in step with the replayed phase |
| KThreadSlots.OneIncarnationPerSlot | scripts/grade-kthread1-witness.py:182-208 | at every prefix a slot has at most one unreclaimed incarnation, none in the director's slot |
| KThreadSlots.GenerationsIncrease | scripts/grade-kthread1-witness.py:182-208 | later creations in a slot carry strictly newer generations |
| KThreadSlots.LiveBound | scripts/grade-kthread1-witness.py:182-208 | at every prefix at most 31 created threads are live |
| KThreadSlots.StacksDisjoint | scripts/grade-kthread1-witness.py:131-139 | at every prefix the stacks of all live threads and the director are pairwise disjoint for either permitted stride |
| SgiCheck.Check | scripts/smp2_sgi_population.py:29-73 | in whatever order the dictionaries are walked the verdict is the earliest failing arrival, unexplained before incomplete, else the earliest undelivered send, else none |
| SgiGroups.GroupedIff | scripts/smp2_sgi_population.py:49-61 | a pair has no unexplained arrival and no undelivered send exactly when its sends split into consecutive non-empty groups, one per arrival, each recorded before it |
| SgiGroups.OkIff | scripts/smp2_sgi_population.py:29-73 | nothing is reported exactly when every pair is grouped so and every arrival is completed once |
| IpiPopulation.CheckPopulation | scripts/grade-riscv64-smp3-witness.py:137-198 | the walk and the four closing loops compute the population specification, refusal by refusal |
| IpiMeaning.RecordMeans | scripts/grade-riscv64-smp3-witness.py:141-186 | a record is refused exactly for its fault, found by scanning the records before it |
| IpiMeaning.PopulationMeans | scripts/grade-riscv64-smp3-witness.py:137-198 | a population is accepted exactly when every record is allowed where it stands and nothing is left unconsumed, unopened, untaken or unasked, and else refused for the first such record or for what is left |
| IpiMeaning.CountsMean | scripts/grade-riscv64-smp3-witness.py:137-198 | the seven counts are numbers of records of their kind |
| IpiProofs.StepMoves | scripts/grade-riscv64-smp3-witness.py:141-183 | an accepted record moves each dictionary by exactly what its kind says and leaves the others: groups opened and taken by one, debts set by an arrival and cleared lowest bit first, each count and each CPU's requests by one for its own records |
| IpiProofs.OrdinalsExact | scripts/grade-riscv64-smp3-witness.py:137-198 | in every accepted population the ordinals consumed for a pair are one to the number of groups opened for it, in order |
| IpiProofs.AccountsBalance | scripts/grade-riscv64-smp3-witness.py:137-198 | published is openings plus merges; openings, consumptions and the set bits of all arrival masks are one number |
| IpiProofs.BitsConserved | scripts/grade-riscv64-smp3-witness.py:164-183 | at every prefix the set bits of the arrival masks so far are the consumptions plus what CPUs still owe |
| IpiProofs.MasksDischarged | scripts/grade-riscv64-smp3-witness.py:141-186 | each arrival mask is consumed bit by bit, ascending, before its CPU's next record of another kind |
| Bits.ClearBitExact | scripts/grade-riscv64-smp3-witness.py:175-175 | consuming a bit clears that bit of the mask and no other |
| IpiProofs.ArrivalsExplained | scripts/grade-riscv64-smp3-witness.py:157-169 | in every accepted population no CPU arrives or is released more often than it was asked to |
| IpiProofs.BitsFromExact | scripts/grade-riscv64-smp3-witness.py:173-175 | the list a mask is discharged by holds exactly its set bits |
| LockOwnership.Ownership | scripts/lock_witness_core.py:174-209 | the loop over acquire and release records computes the acquisitions and the reports of the specification |
| LockProofs.SilentIffMatched | scripts/lock_witness_core.py:174-209 | nothing is reported exactly when the acquire and release records are a concatenation of pairs with the same id, CPU and scheduled round, ids distinct |
| LockProofs.OneOwnerAtATime | scripts/lock_witness_core.py:174-209 | in a silent run every ownership interval is closed, any two are ordered one before the other, and no record number lies in two |
| LockProofs.InsideIsOwning | scripts/lock_witness_core.py:212-216 | in a silent run `inside` says exactly that the owner at that record is this acquisition, held by the recording CPU |
| LockOwnership.ContentionOutsideOwn | scripts/lock_witness_core.py:219-227 | the two loops report, record by record and in the dictionary's order, exactly the list of the specification |
| LockProofs.ContentionMeans | scripts/lock_witness_core.py:219-227 | in a silent run a contended record is reported for an unscheduled round and for the acquisition its own CPU holds at that record, and for nothing else |
| LockProofs.OrderExact | scripts/lock_witness_core.py:174-209 | the insertion order walked lists exactly the recorded acquisitions, each once |

## Left out

- PlanMeaning.PlanMeans: the pool and heap refusals are stated for RAM that ends a block below 2^64, because the source's search gives up at the first range where aligning leaves 64 bits; `CarveRefuses` gives the condition for all disjoint RAM.
- Record text, checksums and seals: regex parsing, CRC and FNV checks, console markers and command lines of the scripts; the models start from parsed records.
- Scheduler checker, before and after the modelled passes: the SNAP and CENSUS block parser, the cell map, and the claim, progress, hold and coverage passes.
- Kernel-thread checker: the seal validation, the parameters printed with each report, the per-CPU alternator and sleeper population, the single-CPU coexistence pass and the marker checks of `grade`.
- SMP3 checker: everything but the IPI population (roles, rounds, residency and the per-round searches).
- Lock witness: transport, round credits and the contention attribution by value.
- Coverage thresholds and round counts of all checkers: policy constants.
- The other witness checkers (lock1, lock2, lock3, vmi2, sr-replace, overtaken, kthread-irq, apsched): per-round checks over fixed round counts.
- Built-in self-tests and fixtures of the scripts.
- Boot policy: the devicetree `Walker`, serial and PCIe diagnostics, the high-half transition plan, the stage-2A first-name parser and the stage-2D bridge checks.
- The two copies of the subtraction loop for kernel and allocator ranges are the same code on two range types; it is modelled once.
- Slots of the fixed arrays past the count after a failed call: the source returns only the error, so their content is not stated.
- `usize` overflow branches that no slice length can reach (archive offsets, program-header sizes) are written over unbounded numbers, where the following bounds check gives the same answer.
- The packer's `alignment_results` dictionary is a list of names and offsets, so an entry name that occurs twice is listed twice.
- Inode numbers and permission bits of packed files are modelled, directory walking and sorting of the file tree are not: the packer starts from the ordered entry list, with unreadable files as entries without content.
- Devicetree: `Holds` covers blobs whose structure block is a serialized tree with NOP tokens anywhere; memory reservation blocks and versions other than the one the lookups read are not modelled.
- CPU admission: `gic_interfaces_from_typer` and the marker names.
- Short rules elsewhere (GICv2 SGI targets, external interrupt claims, ACPI MADT rule, device windows): each is one test of its arguments, with no state to keep and no second operation to agree with.
