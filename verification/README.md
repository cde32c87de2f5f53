# SPU32: models and proofs

Dafny models of the parts of the SPU32 system whose correctness is least obvious, and proofs of
what they promise. `dafny verify dfyconfig.toml` checks all of it.

**The FAT volume** (`fatfs/`). The configuration built here: short names, sectors of 512 bytes, one
shared sector window (`FF_FS_TINY`), one volume, FAT12, FAT16 and FAT32. The model is a stack in
which each layer is proved against the one below.

- `FatTypes`, `FatWindow`: the drive, and the write-back window over it. `Logical()` is the drive
  overlaid with a dirty window; it is what all other layers are about.
- `FatCodec`, `FatTable`: packed entries as a codec, and the table as one number per entry.
- `ChainSpec`, `FatAlloc`, `FatVolume`: link chains, the allocator on any table, and the invariant
  `Partition` of a volume in order: live chains are acyclic, disjoint, ended, and with the free
  entries they are all entries.
- `FileSpec`, `FatFile`, `FatTruncate`, `FatSession`: reading, writing, seeking and truncating as
  operations on byte arrays, for one file and for any number of open files.
- `DirSpec`, `DirTable`, `FatDir`, `FatNames`: directories as maps from names to entries.
- `FatShared`: several open files and several directories of one volume, worked on in any order.
- `PatternMatch`: the name pattern search. `FatInfo`: FSInfo with `sync_fs`. `FatMount`: what a mount makes
  of a boot sector.

**The processor** (`cpu/`, `bus/`). `Isa` is RV32I with M and the simplified trap registers of this
processor, one function per step. `CoreClock` is the hardware: registers that change on the falling
edge (`Falling`) and on the rising edge (`Rising`), with the wait line, the interrupt line and idle
data lines left to the surroundings. `Divider`, `Multiplier`, `Alu` and `Decoder` are the units;
`CoreProof`, `CoreRefines` and `CoreRuns` show that every run of the hardware is a run of `Isa`.
`WordIsa` reads the instruction set a second time, off the bits of the word and with numbers only, and
shows that `Isa` agrees with it, so that every run does what the words in memory mean.
`Wishbone32` and `Wishbone8` are the bus adapters with a pipelined slave that stalls and acknowledges
as it likes; `BusSide` is what the processor sees of either. `Computer` joins core, adapter and slave
and carries the refinement through to the slave's memory. `CoreUnit` and the classes of the units hold
the same registers as fields and change them in place.

**The UART** (`uart/`): transmitter and receiver clock by clock, and the loop from one to the other.

**Two routines** (`software/`): the word-at-a-time `strcmp`, and Horn's circle algorithm down to the
bytes of the frame buffer.

`common/Arith` has arithmetic by repeated addition and bitwise operations on naturals, with lemmas that
tie them to `*`, `/` and `%`.

## What came out

- The bus adapters rely on a slave that stalls only while it has a request; the memories here gate the
  line with the strobe (`ram/ice40_spram_1mbit_wb32_vga.v:19`), and then every access has its effect. A
  stall without a request makes the adapter strobe with its old address, data and byte selects. A single
  run may survive that, if no clock passes in which the slave could take the extra request; but with a
  gated line from then on there is always a way to go on that ends with a request too many accepted and
  not answered, and an access can overwrite bytes that belong to the one before it (`OnlyLawfulSteps`,
  `StallOverruns` and `ForeignWrite` of `Wishbone32` and `Wishbone8`).
- The UART lets every byte through for divisors from 25 to 1024, and for no others: below 25 the
  last data bit is sampled in the stop bit, and with 0 or above 1024 the start bit never ends
  (`UartDivisors.ExactDivisors`, `UartDivisors.NeverEnds`).
- A count that `f_getfree` caches can be wrong. The FAT16 and FAT32 scan counts the two entries that
  belong to no cluster as well when they are zero. The FAT12 scan stops with an error at a reserved entry,
  and the number counted so far is cached and returned by the next call as valid.
  `FatAlloc.CountsRightIff` says for which tables the cached number is right, `FatAlloc.CountsWrong` gives
  two for which it is not.
- A mount does not check that the regions of a volume end on the drive, that the root directory of FAT32
  starts at a cluster, and that FSInfo has a sector before the tables. `FatMount.Mount` shows that a volume
  it takes is in order exactly if these hold; `FatMount.FsInfoInTable` is one for which the last does not.
- Opcodes outside the supported set enter the trap without a new cause (cpu/cpu.v:376), unlike the
  README of the repository says for invalid instructions; runs are stated for programs that stay
  inside the set.
- A circle of radius up to 16383 that fits the range of `int16_t` is drawn without any truncation.

## Model

| member | source | states |
|---|---|---|
| `FatTypes.Sub32IsInterval` | software/spu32-system/bios/fatfs/ff.c:1082 | the region test `sect - base < size` on 32-bit words holds exactly for the sectors of the region, also below its base where the subtraction wraps |
| `FatTypes.ClusterAddress` | software/spu32-system/bios/fatfs/ff.c:1162-1170 | cluster c is at sector data base + (c - 2) * cluster size, for every cluster; any other number gives 0 |
| `FatTypes.ClustersDisjoint` | software/spu32-system/bios/fatfs/ff.c:1162-1170 | different clusters occupy different sectors |
| `FatTypes.ClusterSectors` | software/spu32-system/bios/fatfs/ff.c:1162-1170 | every sector of a cluster lies in the data region and outside both tables |
| `FatWindow.FatFs.SyncWindow` | software/spu32-system/bios/fatfs/ff.c:1072-1090 | writing the window back leaves the logical drive (drive overlaid with a dirty window) as it was, and makes it the drive itself; the window is clean |
| `FatWindow.FatFs.MoveWindow` | software/spu32-system/bios/fatfs/ff.c:1094-1115 | moving the window never changes the logical drive; afterwards the window is the wanted sector of it |
| `FatWindow.FatFs.Poke` | software/spu32-system/bios/fatfs/ff.c:1299-1300 | a store into the window changes the logical drive in exactly the stored bytes of that sector, and for a sector of the first table in its copy too |
| `FatWindow.StoreKeepsMirror` | software/spu32-system/bios/fatfs/ff.c:1079-1085 | whatever is stored through the window, equal table copies stay equal |
| `FatInfo.SyncFs` | software/spu32-system/bios/fatfs/ff.c:1125-1152 | after a flush the drive itself is what the file system showed, with FSInfo rewritten to the cached numbers exactly when it was due |
| `FatInfo.InfoBytes` | software/spu32-system/bios/fatfs/ff.c:1136-1141 | the flushed sector byte by byte: the three signatures, the free count at 488 and the last cluster at 492, least significant byte first, and zeros |
| `FatInfo.InfoRoundTrip` | software/spu32-system/bios/fatfs/ff.c:1138-1141 | the FSInfo sector that is flushed is read back with the same two numbers |
| `FatInfo.LoadedBytes` | software/spu32-system/bios/fatfs/ff.c:3559-3567 | what a mount takes from a sector, by its bytes: the numbers at 488 and 492 if all ten signature bytes are there, else 0xFFFFFFFF twice |
| `FatInfo.HasInfoBytes` | software/spu32-system/bios/fatfs/ff.c:3554-3555 | the condition on BPB_FSInfo32, by bytes 48 and 49 of the boot sector |
| `FatInfo.LoadInfo` | software/spu32-system/bios/fatfs/ff.c:3551-3567 | what a mount takes from the FSInfo sector: on FAT32 with BPB_FSInfo32 equal to 1 the two numbers when the three signatures are there, else both unknown; on any other volume both unknown and FSInfo disabled |
| `FatInfo.NotedKeeps` | software/spu32-system/bios/fatfs/ff.c:1480-1483 | an operation on the tables that marks FSInfo as due whenever it changes a cached number, as the allocator does, keeps this: where FSInfo is not due, its sector holds the cached numbers |
| `FatInfo.Flush` | software/spu32-system/bios/fatfs/ff.c:1125-1152 | sync_fs on a volume in order: the drive holds what the file system showed, FSInfo holds the cached numbers, and the table is unchanged |
| `FatInfo.FlushAndMount` | software/spu32-system/bios/fatfs/ff.c:1125-1152 | flushed and mounted again, whether or not FSInfo was due, a volume has the same table, the cached numbers it had (unknown where FSInfo is disabled), and a free count that is unknown or right |
| `FatMount.Mount` | software/spu32-system/bios/fatfs/ff.c:3498-3547 | the checks and computations of a mount in 32-bit arithmetic: exactly the boot sectors with the stated properties are taken, with the layout their bytes describe; and that layout is in order, as all other results about volumes require, if and only if its regions end on the drive and on FAT32 the root directory starts at a cluster and two sectors are reserved |
| `FatMount.MountedInOrder` | software/spu32-system/bios/fatfs/ff.c:3498-3547 | a computed layout has no region that wrapped around or overlaps another if and only if the regions end on the drive and the two FAT32 conditions hold |
| `FatMount.PowerTest` | software/spu32-system/bios/fatfs/ff.c:3509 | the test `csize & (csize - 1)` is 0 exactly for powers of two |
| `FatMount.FsInfoInTable` | software/spu32-system/bios/fatfs/ff.c:3516-3518 | a FAT32 boot sector with a single reserved sector that is taken, although the sector of FSInfo is the first of its table |
| `FatCodec.LoadDigits` | software/spu32-system/bios/fatfs/ff.c:610-629 | the loads take the least significant byte first, digit by digit |
| `FatCodec.PutGetSame` | software/spu32-system/bios/fatfs/ff.c:1256-1305 | a stored entry reads back as the value cut to 12, 16 or 28 bits |
| `FatCodec.PutGetOther` | software/spu32-system/bios/fatfs/ff.c:1256-1305 | every other entry reads as before, including FAT12 neighbours that share a byte |
| `FatCodec.PutTouches` | software/spu32-system/bios/fatfs/ff.c:1269-1300 | storing an entry changes no byte outside its own two or four |
| `FatCodec.PutKeepsReserved` | software/spu32-system/bios/fatfs/ff.c:1296-1299 | a FAT32 entry keeps its top four bits |
| `FatCodec.EndMarkReadsBack` | software/spu32-system/bios/fatfs/ff.c:1617 | the end mark 0xFFFFFFFF reads back as a value above every cluster number of the type |
| `FatTable.EntryFits` | software/spu32-system/bios/fatfs/ff.c:1195-1218 | the bytes of every entry lie in the table, and FAT16 and FAT32 entries do not straddle sectors |
| `FatTable.TableOnDrive` | software/spu32-system/bios/fatfs/ff.c:1195-1218 | every entry of the table from its bytes on the drive: FAT12 nibbles, FAT16 and FAT32 least significant byte first, the upper four bits of FAT32 left out |
| `FatTable.GetFat` | software/spu32-system/bios/fatfs/ff.c:1179-1246 | returns the entry of the table as a map and as the bytes of the drive give it, 1 outside [2, n_fatent); nothing changes, for FAT12 entries across two sectors as well |
| `FatTable.PutFat` | software/spu32-system/bios/fatfs/ff.c:1256-1305 | changes exactly one entry of the table as a map, and of the bytes of the table exactly those of the entry to the stated digits, with the nibble of a FAT12 neighbour and the upper bits of FAT32 kept; nothing outside the tables; an internal error changes nothing |
| `FatTable.TableFrame` | software/spu32-system/bios/fatfs/ff.c:1179-1246 | the table depends on the sectors of the first FAT only |
| `ChainSpec.ChainUnique` | software/spu32-system/bios/fatfs/ff.c:1446-1532 | the table determines the chain behind a first cluster |
| `ChainSpec.ChainFrame` | software/spu32-system/bios/fatfs/ff.c:1446-1532 | a chain does not feel changes to entries it does not contain |
| `ChainSpec.CountsClusters` | software/spu32-system/bios/fatfs/ff.c:4798-4862 | the count of free clusters is the number of entries from 2 on that are zero |
| `ChainSpec.StretchPartition` | software/spu32-system/bios/fatfs/ff.c:1617-1620 | linking one free cluster behind a tail keeps the live chains acyclic, disjoint, ended, and with the free entries a partition of all clusters |
| `ChainSpec.NewPartition` | software/spu32-system/bios/fatfs/ff.c:1617-1620 | a free cluster marked as an end adds a new one-cluster chain to the partition |
| `ChainSpec.RemovePartition` | software/spu32-system/bios/fatfs/ff.c:1470-1503 | freeing from the first cluster frees exactly that chain and keeps the partition |
| `ChainSpec.CutPartition` | software/spu32-system/bios/fatfs/ff.c:1464-1503 | ending a chain at its k-th cluster and freeing from there frees exactly the rest and keeps the partition |
| `ChainSpec.FreeWholeChain` | software/spu32-system/bios/fatfs/ff.c:1471-1503 | following and freeing a chain frees its clusters and no others |
| `ChainSpec.CutChain` | software/spu32-system/bios/fatfs/ff.c:1464-1503 | the chain that is left is the old one up to the cut |
| `FatAlloc.RemoveChain` | software/spu32-system/bios/fatfs/ff.c:1446-1532 | for every table, cyclic ones included, ends with the table that freeing link by link gives and touches nothing outside the tables; a correct free count stays correct if the cluster that becomes the end was in use |
| `FatAlloc.EndMarks` | software/spu32-system/bios/fatfs/ff.c:1617 | the mark that ends a chain is 0xFFF, 0xFFFF or 0x0FFFFFFF in the table |
| `FatAlloc.ScanFree` | software/spu32-system/bios/fatfs/ff.c:1603-1616 | the wrapping scan returns the first free entry after its start, 0 only when none of [2, n_fatent) is free, and 1 only at a reserved entry |
| `FatAlloc.PickCluster` | software/spu32-system/bios/fatfs/ff.c:1590-1616 | the neighbour of the stretched cluster if it is free, else the first free one after the last allocated |
| `FatAlloc.CreateChain` | software/spu32-system/bios/fatfs/ff.c:1541-1632 | for every table: what is returned, the one new link and end mark in the table, the cached count and the last cluster; a correct count stays correct |
| `FatAlloc.CountZeroIsFull` | software/spu32-system/bios/fatfs/ff.c:1562 | the shortcut on a cached count of 0 is right: no entry is free exactly then |
| `FatAlloc.GetFree` | software/spu32-system/bios/fatfs/ff.c:4784-4865 | a valid cached count is returned as it is; otherwise the number the scan arrives at is returned and cached, also when the FAT12 scan stops with an error at a reserved entry, and the count cached then is right if and only if the table is one the scan counts right |
| `FatAlloc.CountsRightIff` | software/spu32-system/bios/fatfs/ff.c:4798-4862 | the tables the scans count right: for FAT12 no free entry lies behind the first reserved one; for FAT16 and FAT32 neither entry 0 nor entry 1 is zero, or so few clusters are in use that the number is taken for an unknown one |
| `FatAlloc.CountsWrong` | software/spu32-system/bios/fatfs/ff.c:4798-4862 | a FAT12 and a FAT16 table with free clusters that the scans miscount into the range of valid counts |
| `FatVolume.Allocate` | software/spu32-system/bios/fatfs/ff.c:1541-1632 | on a volume in order: the next cluster of the chain, or one free cluster linked behind its end, or 0 only when none is free; the volume stays in order |
| `FatVolume.RemovedCuts` | software/spu32-system/bios/fatfs/ff.c:1446-1532 | what removing leaves of a partition: the chain cut at the given place, exactly the clusters behind it freed |
| `FatVolume.Release` | software/spu32-system/bios/fatfs/ff.c:1446-1532 | frees exactly the suffix of a chain from its start cluster; the volume stays in order |
| `FatVolume.FreeClusters` | software/spu32-system/bios/fatfs/ff.c:4784-4865 | f_getfree on a volume in order returns OK and keeps it in order if and only if the count was valid, the volume is FAT12, or the two reserved entries are not zero (or too few clusters are in use for it to matter); then the number is that of the free clusters |
| `FatFile.ReadCluster` | software/spu32-system/bios/fatfs/ff.c:3910-3926 | the cluster found for reading at a cluster start is the one under the cursor |
| `FatFile.DirectRead` | software/spu32-system/bios/fatfs/ff.c:3930-3940 | a direct multi-sector read delivers what the logical drive holds although a dirty window overlaps it |
| `FatFile.ReadPartial` | software/spu32-system/bios/fatfs/ff.c:3963-3967 | the partial read copies the bytes at the cursor through the window |
| `FatFile.ReadChunk` | software/spu32-system/bios/fatfs/ff.c:3906-3971 | one round of the read loop delivers a nonempty prefix of what remains, from any cursor position |
| `FatFile.Read` | software/spu32-system/bios/fatfs/ff.c:3883-3974 | f_read returns the bytes at the cursor of a flat byte array, as many as asked for and there are, and these are the bytes at the places of the drive that the numbers of the layout give; it leaves the rest of the buffer, the file and the drive alone |
| `FatFile.WriteCluster` | software/spu32-system/bios/fatfs/ff.c:4013-4034 | the cluster found or allocated for writing at a cluster start is the one under the cursor, at most one behind the old chain; 0 only when none is free and the chain ends at the cursor |
| `FatFile.DirectWrite` | software/spu32-system/bios/fatfs/ff.c:4051-4057 | a direct multi-sector write puts the data on the logical drive although the window holds one of the sectors; table copies stay equal |
| `FatFile.WriteSectors` | software/spu32-system/bios/fatfs/ff.c:4046-4066 | whole sectors written straight from the data replace exactly those bytes of the file |
| `FatFile.WritePartial` | software/spu32-system/bios/fatfs/ff.c:4068-4087 | part of a sector written through the window replaces exactly those bytes; a sector at the growing edge is not loaded |
| `FatFile.WriteChunk` | software/spu32-system/bios/fatfs/ff.c:4009-4092 | one round of the write loop lays a nonempty prefix of the data over the bytes at the cursor, or nothing, only on a full volume with the cursor at the end of the last cluster; it takes no cluster it does not write to |
| `FatFile.Write` | software/spu32-system/bios/fatfs/ff.c:3984-4097 | f_write lays the counted prefix of the data over the bytes at the cursor, and at the places of the drive that the numbers of the layout give; it is short only when no cluster is free and the clusters of the file are used up; no cluster is taken that is not written to, and other chains and their sectors stay |
| `FatFile.ResumeSeek` | software/spu32-system/bios/fatfs/ff.c:4489-4494 | the masked offset and the current cluster are the start of the cluster under the last byte before the cursor |
| `FatFile.SeekWalk` | software/spu32-system/bios/fatfs/ff.c:4508-4528 | following links from cluster q ends at the cluster holding the target, or behind the last one when the volume is full |
| `FatFile.SeekInside` | software/spu32-system/bios/fatfs/ff.c:4529-4534 | the cursor, cluster and sector inside the cluster that holds the target |
| `FatFile.SeekTo` | software/spu32-system/bios/fatfs/ff.c:4488-4552 | the cursor, cluster and sector after a seek to a nonzero offset are those of the offset, whichever start was used |
| `FatFile.Seek` | software/spu32-system/bios/fatfs/ff.c:4478-4553 | f_lseek puts the cursor at the offset, cut to the size for read-only files; a writable file grows to it, keeping its bytes, with no cluster more than needed, or to the end of its chain when the volume is full |
| `FatFile.CursorCluster` | software/spu32-system/bios/fatfs/ff.c:4486-4535 | for every valid file with a nonzero cursor the current cluster is element (fptr - 1) / cluster size of its chain; all of f_read, f_write, f_lseek and f_truncate keep a file valid |
| `FatFile.SyncIfCached` | software/spu32-system/bios/fatfs/ff.c:4036 | the flush before leaving the cached sector changes nothing the file system shows |
| `FatTruncate.Truncate` | software/spu32-system/bios/fatfs/ff.c:4874-4915 | f_truncate keeps the bytes before the cursor and gives back exactly the clusters they do not need |
| `FatTruncate.CutContent` | software/spu32-system/bios/fatfs/ff.c:4887-4901 | a chain cut to the clusters that n bytes need still shows those n bytes |
| `FileSpec.ContentOnDrive` | software/spu32-system/bios/fatfs/ff.c:3910-3967 | byte o of a file is byte o mod 512 of the sector data base + (c - 2) * cluster size + o / 512 mod cluster size, with c element o / (512 * cluster size) of its chain |
| `FileSpec.OtherFileKept` | software/spu32-system/bios/fatfs/ff.c:3984-4097 | files on disjoint chains do not see each other's writes |
| `FileSpec.PrefixContent` | software/spu32-system/bios/fatfs/ff.c:4013-4034 | a chain grown at its end still shows the same bytes |
| `FileSpec.OverlayContent` | software/spu32-system/bios/fatfs/ff.c:4046-4087 | replacing sectors or a part of one replaces exactly that run of the file's bytes |
| `FatSession.Perform` | software/spu32-system/bios/fatfs/ff.c:3883-4097 | each call on an open file is the step of a flat byte array with a cursor in the room of its clusters, which grows only as the cursor needs and only runs out on a full volume |
| `FatSession.ViewShown` | software/spu32-system/bios/fatfs/ff.c:3883-3974 | the bytes of a valid file are those at their places on the drive, in the clusters that the table links from the first one on |
| `FatSession.Session` | software/spu32-system/bios/fatfs/ff.c:3883-4556 | any sequence of reads, writes, seeks and truncations on several open files: each call acts on its file as on a flat byte array with a cursor and changes no byte of the others; at the end the bytes of every file are those at their places on the drive |
| `DirSpec.EntriesBind` | software/spu32-system/bios/fatfs/ff.c:2442-2513 | a name is bound exactly when some slot is its live entry, and to that entry |
| `DirSpec.EntriesInBytes` | software/spu32-system/bios/fatfs/ff.c:2479-2510 | a name is bound exactly when some slot, by its bytes, does not begin with 0 or 0xE5, has bit 3 of byte 11 clear and the name in front; and to that slot |
| `DirSpec.AddEntry` | software/spu32-system/bios/fatfs/ff.c:2604-2615 | a new entry in an unused slot adds exactly one binding and leaves no live entry behind an end mark |
| `DirSpec.NewEntryBytes` | software/spu32-system/bios/fatfs/ff.c:2608-2609 | a new entry is the name with 21 zeros behind it |
| `DirSpec.DropEntry` | software/spu32-system/bios/fatfs/ff.c:2656-2660 | marking a live entry deleted removes exactly its binding |
| `DirSpec.StretchTable` | software/spu32-system/bios/fatfs/ff.c:1787-1804 | blank slots appended do not change the map |
| `DirSpec.NothingBehind` | software/spu32-system/bios/fatfs/ff.c:2479-2510 | a search that stops at the first end mark has missed no live entry |
| `DirSpec.AllocStep` | software/spu32-system/bios/fatfs/ff.c:1834-1848 | the counter of the search is the number of unused slots in a row up to the cursor |
| `DirTable.DirClear` | software/spu32-system/bios/fatfs/ff.c:1674-1703 | every sector of the new cluster is zero afterwards, and no other sector changes |
| `DirTable.StretchedSlots` | software/spu32-system/bios/fatfs/ff.c:1787-1804 | a table with one cleared cluster more is the old table and blank slots |
| `DirTable.SlotOnDrive` | software/spu32-system/bios/fatfs/ff.c:1713-1752 | the bytes of slot n: in the static table at its sector n / 16, offset n mod 16 * 32; in a table on a chain as byte 32 n of a file; at most 65536 slots |
| `DirTable.SlotCount` | software/spu32-system/bios/fatfs/ff.c:1720-1731 | a table has sixteen slots for every sector of its clusters, or as many as the boot sector says for the static one, and at most 65536 |
| `FatDir.Sdi` | software/spu32-system/bios/fatfs/ff.c:1713-1752 | puts the cursor on a slot exactly for the offsets of the table, on static and on chained tables |
| `FatDir.Next` | software/spu32-system/bios/fatfs/ff.c:1761-1812 | moves to the next slot; at the end reports it, or stretches the table by one cleared cluster |
| `FatDir.Alloc` | software/spu32-system/bios/fatfs/ff.c:1822-1853 | ends on the last slot of the first row of slots whose first bytes are 0 or 0xE5, stretching as needed; refuses only when every row has a slot in use and there is no room |
| `FatDir.Find` | software/spu32-system/bios/fatfs/ff.c:2442-2513 | succeeds if and only if the name is bound, on a slot that by its bytes is in use, no volume label and has the name; otherwise no slot is such; nothing changes |
| `FatDir.Register` | software/spu32-system/bios/fatfs/ff.c:2523-2618 | adds exactly the one binding; a slot that began with 0 or 0xE5, or one of a cleared new cluster, holds the name and 21 zeros now and all other slots stay; or refuses, the map unchanged, when no slot begins so |
| `FatDir.Remove` | software/spu32-system/bios/fatfs/ff.c:2629-2664 | deletes exactly the binding of the entry under the cursor: the first byte of its slot becomes 0xE5, the rest of it and all other slots stay |
| `FatNames.Operate` | software/spu32-system/bios/fatfs/ff.c:3729-3744 | find, create-new and delete act on the map of names |
| `FatNames.Operations` | software/spu32-system/bios/fatfs/ff.c:2442-2664 | any sequence of operations on a directory acts on its map, step by step; everything outside its table and chain stays |
| `FatNames.DirectoryKeepsFile` | software/spu32-system/bios/fatfs/ff.c:2523-2664 | operations on a directory leave the bytes of files on other clusters |
| `FatNames.FileKeepsDirectory` | software/spu32-system/bios/fatfs/ff.c:3984-4097 | writing a file leaves directories on other clusters |
| `FatShared.FileSparesTable` | software/spu32-system/bios/fatfs/ff.c:3984-4097 | a call on a file leaves chain and slots of every directory that starts elsewhere |
| `FatShared.TableSparesFile` | software/spu32-system/bios/fatfs/ff.c:2523-2664 | an operation on a directory, which may stretch it, leaves chain and bytes of every file that starts elsewhere |
| `FatShared.TableSparesTable` | software/spu32-system/bios/fatfs/ff.c:2523-2664 | and chain and slots of every other directory, the static root table included |
| `FatShared.Work` | software/spu32-system/bios/fatfs/ff.c:2442-4915 | calls on open files and operations on directories of one volume in any order: each acts on its own file as on a byte array with a cursor, or on its own directory as on a map of names, and on nothing else; an operation is denied only for want of room; at the end the bytes of every file are those at their places on the drive |
| `PatternMatch.UpperIsLetter` | software/spu32-system/bios/fatfs/ff.c:2794-2799 | the conversion by the table gives for every code the letter it stands for in code page 437, written out |
| `PatternMatch.BlockStep` | software/spu32-system/bios/fatfs/ff.c:2832-2837 | a block of wildcards amounts to the number of its `?` and whether it holds a `*` |
| `PatternMatch.NoLater` | software/spu32-system/bios/fatfs/ff.c:2838-2846 | a comparison that failed because the name ran out fails at every later start |
| `PatternMatch.TooShort` | software/spu32-system/bios/fatfs/ff.c:2840-2846 | a name shorter than the literals before the next wildcard cannot match |
| `PatternMatch.Match` | software/spu32-system/bios/fatfs/ff.c:2812-2849 | a call with skip and inf is true exactly when some admissible rest of the name matches the rest of the pattern |
| `PatternMatch.PatternMatching` | software/spu32-system/bios/fatfs/ff.c:2812-2849 | pattern_matching(pat, nam, 0, 0) is 1 if and only if the name matches under the meaning of `?` and `*`, letter by letter of code page 437; it always ends |
| `PatternMatch.CaseBlind` | software/spu32-system/bios/fatfs/ff.c:2794-2795 | the answer does not depend on the case of ASCII letters in pattern and name |
| `Divider.DivisionTable` | cpu/div.v:25-34 | the results for a zero divisor and for the signed overflow are those of Table 7.1 of the RISC-V Unprivileged ISA |
| `Divider.QuotientAndRemainder` | cpu/div.v:25-34 | the specified quotient and remainder rebuild the dividend, with the remainder smaller and signed as it |
| `Divider.DivideStart` | cpu/div.v:49-59 | the first clock establishes the invariant for the magnitudes of the operands |
| `Divider.DivideStep` | cpu/div.v:61-84 | each clock keeps dividend = quotient * divisor + remainder under the sliding divisor, and the mask in its place |
| `Divider.AllBits` | cpu/div.v:66-67 | when the result is taken, divisornotzero has seen every bit of the divisor |
| `Divider.DivideEnd` | cpu/div.v:30-34 | the clock that latches the result latches DIV, DIVU, REM or REMU of the operands, for all operands |
| `Divider.Unit.Divide` | cpu/div.v:47-91 | the unit started on any operands holds the specified result after exactly 35 clocks |
| `Divider.Unit.Clock` | cpu/div.v:47-97 | one clock of the registers in place is one step of the model |
| `Multiplier.MultiplyStart` | cpu/mul.v:75-92 | the first clock makes accumulator + s1 * s2 the product modulo 2^64 |
| `Multiplier.MultiplyStep` | cpu/mul.v:93-101 | each further clock keeps it and halves s2; the unit is done exactly when s2 is 0 |
| `Multiplier.LowIgnoresSign` | cpu/mul.v:81-83 | for the low word the extension of the second operand does not matter |
| `Multiplier.MultiplyResult` | cpu/mul.v:54-101 | the words of the finished accumulator are MUL, MULH, MULHSU and MULHU of the operands |
| `Multiplier.DspAgrees` | cpu/muldsp.v:20-25 | the single-cycle multiplier delivers the same words |
| `Multiplier.MulUnit.Multiply` | cpu/mul.v:74-101 | the unit started on any operands holds the result after at most 66 clocks, 34 for the low word |
| `Alu.Comparisons` | cpu/alu.v:127-133 | the borrow compares unsigned; exclusive-or with the sign bits it compares signed; the difference is modulo 2^32 |
| `Alu.Stages` | cpu/shifter.v:22-27 | the five conditional stages shift right by the binary value of the count |
| `Alu.ReversedRight` | cpu/shifter.v:15-20 | a right shift between two bit reversals is a left shift |
| `Alu.Shifts` | cpu/shifter.v:11-33 | the shifter is SLL, SRL or SRA on bits by its two controls |
| `Alu.ShiftedValues` | cpu/shifter.v:11-33 | the same on numbers: product with 2^n modulo 2^32, quotient, and floor quotient of the signed number |
| `Decoder.DecodeUpper` | cpu/decoder.v:66-201 | LUI and AUIPC decode to their immediate, registers and multiplexers |
| `Decoder.JumpFields` | cpu/decoder.v:76 | the jump offset scattered over the UJ format comes together again, signed |
| `Decoder.DecodeJal` | cpu/decoder.v:66-201 | JAL decodes to its offset and link register |
| `Decoder.DecodeI` | cpu/decoder.v:66-104 | I-type words decode to their sign-extended immediate and registers |
| `Decoder.DecodeOpImm` | cpu/decoder.v:163-174 | the register-immediate operations decode to the ALU operation of the encoding |
| `Decoder.DecodeOpReg` | cpu/decoder.v:117-161 | the register operations of RV32I and M decode to the ALU operation and signedness of the encoding |
| `Decoder.DecodeBranch` | cpu/decoder.v:106-115 | the branches decode to their condition mask and offset |
| `Decoder.DecodeLoad` | cpu/decoder.v:183-190 | the loads decode to their bus operation |
| `Decoder.DecodeSave` | cpu/decoder.v:192-199 | the stores decode to their bus operation and S-type offset |
| `Decoder.DecodeFence` | cpu/decoder.v:66-201 | FENCE decodes to an instruction that writes nothing |
| `Decoder.DecodeSystem` | cpu/decoder.v:66-104 | ECALL, EBREAK and MRET decode to SYSTEM words with their numbers |
| `Decoder.DecodeCsrrw` | cpu/decoder.v:98-104 | CSRRW decodes to its register number and reads the status registers |
| `WordIsa.Immediates` | cpu/decoder.v:73-79 | the decoded immediate of every word, read as a signed number, is the I, S, B, U or J immediate as a number of the word |
| `WordIsa.ExecuteMeans` | cpu/cpu.v:314-434 | every instruction of the specification has the effect that its word means, for an independent reading of the word with numbers only: sign extension, byte order, targets, x0, results bit by bit or as products and quotients, causes and status registers |
| `WordIsa.MeansUnique` | cpu/cpu.v:314-434 | a word has one meaning in a state: that reading leaves no choice |
| `WordIsa.MeaningEncodes` | cpu/decoder.v:66-201 | every word that means something is the encoding of an instruction of the specification, which leaves none out |
| `CoreProof.FastAlu` | cpu/alu.v:118-180 | the ALU result is the operation of the ISA for every operation of one clock |
| `CoreProof.FetchStart` | cpu/cpu.v:294-312 | a fetch commits the register write of the instruction before and brings in the word at the next pc, over any number of waits |
| `CoreProof.DecodeStage` | cpu/cpu.v:314-335 | decoding reads the registers and changes nothing of the ISA state |
| `CoreProof.InterruptTaken` | cpu/cpu.v:328-333 | an interrupt with meie set replaces the instruction before it has any effect |
| `CoreProof.TrapEnds` | cpu/cpu.v:411-418 | the trap stage saves the pc and the flag and goes to the vector |
| `CoreProof.StepMemory` | cpu/cpu.v:349-356 | a load or store waits, and with its access has exactly the effect of the instruction |
| `CoreProof.StepBranch` | cpu/branch.v:20-32 | a branch goes to its target exactly under its condition |
| `CoreProof.StepJump` | cpu/cpu.v:358-363 | JAL and JALR link and jump |
| `CoreProof.MultiplyEnds` | cpu/cpu.v:257-263 | a stalled multiplication ends with the effect of the instruction |
| `CoreProof.SystemStage` | cpu/cpu.v:381-397 | ecall, ebreak and mret |
| `CoreProof.OtherSystem` | cpu/cpu.v:381-409 | SYSTEM words that are none of the supported ones go to the trap stage with cause 2 |
| `CoreProof.CsrEnds` | cpu/cpu.v:420-434 | csrrw returns the old value and writes the register unless its number is read-only |
| `CoreProof.LoadedValue` | cpu/bus.v:79-106 | incoming data is extended as the remembered bus operation asks |
| `CoreProof.ExtendedValues` | cpu/bus.v:79-106 | what becomes of incoming data, as signed and unsigned numbers |
| `CoreRefines.Simulates` | cpu/cpu.v:257-434 | every clock keeps the core in step with the ISA: it completes nothing, exactly one instruction, or an interrupt in its place, which it is if and only if the line was high and interrupts enabled in the decoding clock; clocks without a bus wait come nearer to a completion |
| `CoreRuns.RunMeans` | cpu/cpu.v:257-434 | every run of the specification does in each step what the four bytes at the program counter mean, or takes an interrupt with cause 0x1B |
| `CoreRuns.CoreRun` | cpu/cpu.v:257-434 | for every pattern of bus waits, ALU stalls and interrupt requests the clocks are a run of RV32IM steps and interrupts, each step being what the bytes at the program counter mean; a step is an interrupt exactly if the flag was set and the line high in its decoding clock, and csrrw reads the line of its own clock; every 70 clocks without a bus wait complete one |
| `CoreRuns.FromReset` | cpu/cpu.v:284-292 | reset leads to the first instruction of such a run, at address 0 with the handler at 16 and interrupts masked |
| `CoreRuns.InterruptIsPrecise` | cpu/cpu.v:328-333 | two clocks of the hardware after an instruction was fetched with the line high and the flag set: registers and memory as before, the address of that instruction saved, at the handler with interrupts masked |
| `CoreRuns.HandlerReturns` | cpu/cpu.v:389-394 | in every run, a handler that neither traps nor writes the saved address or the status register is not interrupted and its mret goes back to the displaced instruction with the flag set; if it restored registers and memory, the state is the one before the interrupt but for the trap registers |
| `CoreRuns.OnlyHandlerUnmasks` | cpu/cpu.v:423-429 | the flag is set only by mret or by a write of the status register |
| `CoreRuns.InterruptsAreMasked` | cpu/cpu.v:330-333 | between any two interrupts of a run an instruction has set the flag again |
| `CoreUnit.Spu32.FallingEdge` | cpu/cpu.v:270-434 | the falling edge on the registers in place is that of the model |
| `CoreUnit.Spu32.RisingEdge` | cpu/registers.v:24-30 | the rising edge of all units on the registers in place is that of the model |
| `CoreUnit.Spu32.Clock` | cpu/cpu.v:255-434 | a whole clock in place is that of the model |
| `CoreUnit.Spu32.Run` | cpu/cpu.v:255-434 | any number of clocks in place is a run of RV32IM steps and interrupts that means what the words in memory mean and that the interrupt line accounts for |
| `Machine.LoadStore` | cpu/bus.v:79-106 | stored words, halfwords and bytes load back |
| `Wishbone32.Placement` | bus/wishbone32.v:57-103 | every byte of an access is on its lane of the first or second bus word, selected, with its data |
| `Wishbone32.OnlyPlaced` | bus/wishbone32.v:57-78 | no other lane is selected |
| `Wishbone32.FillsPlaced` | bus/wishbone32.v:115-125 | the buffer takes each byte from its lane and keeps the others |
| `Wishbone32.StoreWord` | bus/wishbone32.v:96-114 | one more accepted request stores exactly the bytes of the access in that bus word |
| `Wishbone32.FillWord` | bus/wishbone32.v:112-125 | one more acknowledged word fills exactly the bytes of the access in it |
| `Wishbone32.AccessStep` | bus/wishbone32.v:79-137 | for every choice of stall and acknowledgement a clock either ends the access with exactly the addressed bytes written or delivered, or keeps it going, nearer to its end unless the slave hinders it |
| `Wishbone32.OnlyLawfulSteps` | bus/wishbone32.v:84 | an access under way is served right under every continuation with a gated stall line (no request but its own accepted, all of them accepted and answered when the wait line falls, bytes written or delivered, an end after enough unhindered clocks) if and only if this clock brings no stall without a request |
| `Wishbone32.StallOverruns` | bus/wishbone32.v:84 | after a stall without a request there is a continuation with a gated stall line that ends with the wait line low, one request too many accepted, and one not answered |
| `Wishbone32.StaleWrite` | bus/wishbone32.v:84-95 | a slave that stalls when a write begins stores, once it stops, the old data at the old address |
| `Wishbone32.ForeignWrite` | bus/wishbone32.v:84-95 | an example: after the read of a word, such a write of another word overwrites the bytes of the word that was read |
| `Wishbone32.Adapter.Access` | bus/wishbone32.v:79-146 | over every schedule with the stall line gated by the strobe: the wait line stays high to the end, the access then has exactly its effect, each bus word was requested once in order, and three unhindered clocks per word suffice |
| `Wishbone32.Adapter.Clock` | bus/wishbone32.v:79-139 | one clock of the registers in place is one step of the model |
| `Wishbone8.AccessStep` | bus/wishbone8.v:45-92 | as for the 32-bit adapter, byte by byte |
| `Wishbone8.OnlyLawfulSteps` | bus/wishbone8.v:50 | as for the 32-bit adapter: right under every continuation with a gated stall line if and only if this clock brings no stall without a request |
| `Wishbone8.StallOverruns` | bus/wishbone8.v:50 | after a stall without a request there is a continuation that ends with one request too many accepted and one not answered |
| `Wishbone8.ForeignWrite` | bus/wishbone8.v:50-75 | an example: after the read of a byte, a write elsewhere that begins while the slave stalls overwrites the byte that was read |
| `Wishbone8.Adapter.Access` | bus/wishbone8.v:45-103 | over every schedule with the stall line gated by the strobe one to four byte cycles have exactly the effect of the access, each requested once in order |
| `Wishbone8.Adapter.Clock` | bus/wishbone8.v:45-96 | one clock of the registers in place is one step of the model |
| `Lanes.WrittenIsStore` | cpu/bus.v:37-60 | a finished write is the store of the ISA |
| `Lanes.DeliveredIsLoad` | cpu/bus.v:79-106 | a finished read carries the loaded value in its lowest bytes |
| `Computer.RequestStays` | cpu/cpu.v:260-263 | a core that waits repeats the same request |
| `Computer.WillRepeat` | cpu/cpu.v:260-263 | a core with a request on the bus will repeat it, with address and data unchanged |
| `BusSide.Steps` | bus/wishbone8.v:45-92 | seen from the processor either adapter is a memory with a wait line: a clock of an access ends it with its whole effect or keeps it going |
| `BusSide.IdleStays` | bus/wishbone32.v:79-87 | without a strobe neither memory nor data lines change |
| `Computer.ClockRefines` | cpu/cpu.v:257-263 | a clock of core, adapter and slave is a clock of the core with an abstract memory that waits and answers |
| `Computer.SystemRun` | bus/wishbone32.v:79-146 | core, either adapter and slave together make a run of RV32IM on the slave's memory, each step being what the bytes at the program counter mean, whatever stalls, delays and interrupts do; a step is an interrupt exactly if the flag was set and the line high in its decoding clock; they complete a step in every 496 clocks (922 with the 8-bit adapter) in which the slave does not hinder an access |
| `Computer.SystemFromReset` | cpu/cpu.v:284-292 | after reset such a run begins, at the reset vector with interrupts masked |
| `UartLoopback.TxMoves` | uart/uart_wb8.v:70-98 | the transmitter shifts the frame out, one bit every baud clocks |
| `UartLoopback.RxMoves` | uart/uart_wb8.v:53-68 | the receiver shifts in the bit it samples in the middle of its own, longer, bit period |
| `UartLoopback.SamplesInBit` | uart/uart_wb8.v:53-68 | for every divisor from 25 to 1024 each sample falls into the bit it is meant for |
| `UartLoopback.PhaseStep` | uart/uart_wb8.v:41-98 | in every clock what was in flight or just written is delivered or in flight after it |
| `UartLoopback.Loopback` | uart/uart_wb8.v:41-120 | for every stream of writes and reads the bytes delivered are the bytes written, in order, but for the one on its way; if each is read before the next arrives, so are the bytes read |
| `UartLoopback.Exchange` | uart/uart_wb8.v:40-124 | the same for the unit in place: what it has received is what was written to it, but for the byte on its way |
| `UartDivisors.ReceivesAll` | uart/uart_wb8.v:41-98 | every byte is delivered after a number of clocks that depends on the divisor only, 9 * baud + baud / 2 + 14 for divisors below 1024 |
| `UartDivisors.ExactDivisors` | uart/uart_wb8.v:25 | of all divisors exactly those from 25 to 1024 let every byte through |
| `UartDivisors.MissesZero` | uart/uart_wb8.v:53-64 | with a smaller divisor the byte 0 is not received as 0 |
| `UartDivisors.NeverEnds` | uart/uart_wb8.v:82-86 | with divisor 0 or one above 1024 the ten-bit counter never reaches the end of the start bit |
| `UartDivisors.OnlyZero` | uart/uart_wb8.v:53-68 | with such a divisor no byte but 0 is received |
| `Uart.BusShows` | uart/uart_wb8.v:100-120 | the data lines by address: the received byte at 0, the receive flag at 1 and the send flag elsewhere, in bit 0 |
| `Uart.FlagsMove` | uart/uart_wb8.v:53-112 | when the two flags rise and fall |
| `Uart.Unit.Clock` | uart/uart_wb8.v:40-124 | one clock of the registers in place is one step of the model, with the byte or status flag that the bus reads |
| `Strcmp.ZeroTestIs` | software/spu32-system/libtinyc/libtinyc.c:287 | the test `(v - 0x01010101) & ~v & 0x80808080` is nonzero if and only if a byte of the word is zero |
| `Strcmp.BorrowedLanes` | software/spu32-system/libtinyc/libtinyc.c:287 | below the lowest zero byte the subtraction borrows nothing |
| `Strcmp.Strcmp` | software/spu32-system/libtinyc/libtinyc.c:242-293 | for all contents and all alignments, the sign of the comparison byte by byte up to the first difference or the end; words are loaded at multiples of 4 only |
| `Strcmp.ComparisonUnique` | software/spu32-system/libtinyc/libtinyc.c:242-293 | that sign is determined by the strings |
| `Strcmp.EqualStrings` | software/spu32-system/libtinyc/libtinyc.c:242-293 | it is 0 exactly for equal strings |
| `Strcmp.DifferentWords` | software/spu32-system/libtinyc/libtinyc.c:261-285 | two different words decide the comparison by their first byte that differs or ends both strings |
| `Circle.TrackingStep` | software/spu32-system/apps/vgadraw/vgadraw.c:228-233 | the step keeps d = x^2 - x + y^2 - r^2, and -2x <= d <= 0 wherever a point is drawn |
| `Circle.RoundedRoot` | software/spu32-system/apps/vgadraw/vgadraw.c:203-207 | the points of the octant are those with x the square root of r^2 - y^2, rounded |
| `Circle.OctantUnique` | software/spu32-system/apps/vgadraw/vgadraw.c:207-234 | there is one such x for each y |
| `Circle.NoMorePoints` | software/spu32-system/apps/vgadraw/vgadraw.c:207 | when the loop ends no point of the octant is missing |
| `Circle.CloseToCircle` | software/spu32-system/apps/vgadraw/vgadraw.c:217-226 | for every offset drawn dx^2 + dy^2 differs from r^2 by at most the larger of abs(dx) and abs(dy) |
| `Circle.AddressInjective` | software/spu32-system/apps/vgadraw/vgadraw.c:52-53 | pixels of the screen have bytes of their own, at base + 320 * y + x |
| `Circle.StepFits` | software/spu32-system/apps/vgadraw/vgadraw.c:228-233 | no assignment in the loop truncates for a radius up to 16383 |
| `Circle.Screen.DrawCircle` | software/spu32-system/apps/vgadraw/vgadraw.c:201-235 | exactly the bytes of the clipped pixels on the circle take the colour, all others stay |

## Left out

- Disk errors and loss of power between two writes: drive operations succeed. `disk_write` in
  `diskio_spu32.c:90-105` has no return on success; success is what is modelled.
- Finding the volume on the drive (`find_volume`): the boot sector and its place are inputs of `FatMount`.
- Path walking, `create_name`, the lock table, `f_open` modes other than the creation of a new name, and
  the field-by-field content of entries: an entry is 32 bytes, of which name and attributes matter.
- Code that the configuration disables: exFAT, long names, fast seek, formatting, string functions.
- The chains of a volume are a ghost field of the file system object that `FatVolume` updates; the
  original has them in the table alone, and `ChainSpec.ChainUnique` shows that the table determines them.
- FatFile.Seek: bytes that a seek past the end exposes are left open, as the original leaves them.
- FatShared.Work: does not carry the FSInfo invariant (`InfoOk`) through calls on files and directories;
  the allocator under them marks FSInfo as due whenever it changes a cached number (`FatWindow.FatFs.Noted`).
- FatDir.Register: requires that the name is not bound yet, which its callers check with `dir_find`.
- DirSpec names: the first byte is neither 0 nor 0xE5, as `create_name` makes them.
- Instructions that are not in RV32I, M, MRET and CSRRW, with the traps they raise, and jumps to
  addresses that are not multiples of 4: `CoreRuns.CoreRun` requires programs that avoid them
  (`SupportedFrom`).
- CoreUnit.Spu32.Clock: the registers of the two clock edges are two record fields of the object.
- The reset inputs of the bus adapters, and reset in the middle of a run.
- Uart.Unit.Clock: an access to the data register in the clock of an arrival or during a transmission is
  modelled, but `Loopback` requires software that looks at the status first.
- Circle.Screen.DrawCircle: larger radii, where values are cut to 16 bits, are not followed up.
- Registers are numbers below 2^32 and bits are sequences of booleans; unknown values of uninitialised
  registers are arbitrary values.
- `bus/memory16.v`, VGA, audio, timers, the serial boot protocol, the shell, applications and host tools.
