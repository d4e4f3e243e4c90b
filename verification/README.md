# FrostByteOS core, modelled in Dafny

This project models six parts of the FrostByteOS kernel and proves what they promise:

- the FAT32 driver: FAT entries and their copies, the cluster allocator, file reads and writes, directories and file names
- descriptors and pipes: the reference-counted open-file table, the per-process tables and the 4096-byte ring
- processes: the 64-slot table, parent and child lists, wait queues
- the scheduler: the choice of the next process and the states around it
- FAT16 reads and writes through a handle that remembers its place in the cluster chain
- paths: normalisation, mount lookup and resolution with symbolic links

`dafny verify dfyconfig.toml` checks all of it.

## How it is built

Code that changes things in place is a class whose methods change it in place, with loops.
A method is proved against a function or predicate of the old state, and the theorems are about those.

| files | content |
|---|---|
| `Fat32Disk` | the device as bytes; FAT entries, their reserved bits and copies, clusters |
| `Fat32Chains`, `Fat32Files`, `Fat32Run` | cluster chains, allocation and freeing; file contents along a chain; whole histories |
| `Fat32Volume`, `Fat32Session` | the driver: FAT access, allocation, freeing, file reads and writes; any sequence of writes and deletions on the device |
| `Fat32Names`, `Fat32Long` | 8.3 names; long names from the name to the bytes on disk and back |
| `Fat32Dir`, `Fat32DirOps`, `Fat32Unlink` | a directory as a sequence of slots; finding, creating and deleting on the device |
| `Fat32Named`, `Fat32ReadBack` | files by name: creating, writing with the update of the entry, deleting; when every entry keeps a chain of its own; writing, finding again and reading back |
| `Fat32Layout` | the FAT32 format in literal bytes: what the fields, kinds and names of the model are on the disk |
| `Descriptors`, `PipeRing`, `PipeWaits` | open files, descriptors and pipe ends; the ring buffer; processes that wait on a pipe |
| `Lists`, `ProcTable`, `ProcTree`, `WaitQueues`, `Scheduler`, `ProcManager`, `ProcSleep`, `ProcScenarios` | intrusive lists; the process table and everything that edits it; sleeping over any run of timer interrupts; short runs from boot that reach problem states |
| `Fat16Disk`, `Fat16Volume`, `Fat16Read`, `Fat16Write` | the FAT16 device and its views; entries, allocation and clusters; reads with the cached position; writes |
| `VfsPath`, `VfsResolve` | path normalisation; mounts and resolution |
| `Basics` | types shared by the models |

The device is a byte array whose reads and writes succeed. The geometry of a volume is valid: its
FATs cover its clusters, they and the data region lie on the device, and byte addresses fit in 32 bits.
Clock values, memory exhaustion in `process_create` and the answers of `finddir` and `readlink` are parameters.
A ghost parameter `ch` names the cluster chain of a file; the code never sees it. FAT16 links are shown with their
markers moved to where FAT32 has them, so that chains and their growth are the same for both.
Operations are atomic, except that a system call on a pipe can be preempted between its check, its going to sleep and
its move of bytes: the system call gate leaves interrupts on (src/syscall.c:218-219, src/interrupts/irq.c:51-58).

## Where a promise fails

Each of these is kept as the code has it, with the exact condition under which the promise holds.

- A hint just past the last cluster costs the allocator one probe, so it can miss a free last cluster: input in `Fat32Chains.HintHidesLastCluster`; exact condition in `Fat32Chains.PickSucceeds` and `Fat32Volume.Volume.WriteThenRead`.
- A long name is written last chunk first and read back in disk order: input in `Fat32Long.FourteenLost`; exact condition in `Fat32Long.LongLookup`.
- A name ending in a dot, or starting with byte 0xE5, is created but not found: input in `Fat32DirOps.DottedLost`, `Fat32DirOps.MarkedLost`; exact condition in `Fat32DirOps.CreatedFound`.
- A delete marks the first slot with the same 11 bytes, which may be the volume label or another entry, while it frees the clusters of the entry found by name: input in `Fat32Unlink.DeleteTakesLabel`, `Fat32Unlink.LabelledFile`; exact condition in `Fat32Unlink.UnlinkedIff`.
- A delete that marks another slot leaves the entry with clusters that are free: exact condition in `Fat32Named.DeleteOwnedIff`.
- A write by name enters the new first cluster and size in the first slot with the same 11 bytes: input in `Fat32Named.WriteEntersLabel`; exact condition in `Fat32Named.WriteOwnedIff`.
- Deleting an entry whose long slots start in the cluster before leaves orphans: input in `Fat32Unlink.DeleteLeavesOrphan`; exact condition in `Fat32Dir.DeleteKeepsIff`.
- The kernel process is live with sixteen zero descriptors, so from boot on open file 0 has more descriptors than references: input in `Descriptors.BootUncounted`; exactly which file in `Descriptors.CountsInEveryRun`.
- The child of a fork loses the terminal slot it was first given: `Descriptors.ForkLeaksTerminal`; exact condition in `Descriptors.ForkExactIff`.
- A process can sleep on a pipe though it need not, and nobody is on the way to wake it: input in `PipeWaits.SecondReaderStranded`, `PipeWaits.WakeUpMissed`; exact condition in `PipeWaits.ReaderStrandedIff`, `PipeWaits.WriterStrandedIff`.
- A read can return 0, as at the end of the file, while a writer is there: input in `PipeWaits.FalseEnd`; exact condition in `PipeWaits.WordBrokenIff`.
- A write that starts after the read end of its pipe was closed sleeps for good instead of failing: `PipeWaits.ClosedReaderBlocks`.
- Destroying a process that has children breaks the tree: input in `ProcScenarios.ParentOfOne`; exact condition in `ProcTree.DestroyNeedsChildless`.
- Waiting while still on a wait queue, which a wake-up by a signal leads to, breaks the queues: input in `ProcScenarios.WokenStillQueued`; exact condition in `WaitQueues.EnqueueNeedsUnqueued`.
- `schedule` leaves a blocked process current only if slot 0 blocks and nothing can run: input in `ProcScenarios.KernelBlocks`; exact condition in `ProcManager.Processes.Schedule`.
- A sleep lasts as many ticks as asked exactly when the 32-bit tick counter does not wrap on the way: input in `ProcSleep.SleepsForever` (a sleep that never ends, and one that ends at the first tick); exact condition in `ProcSleep.SleepsExactly`.
- A FAT32 read is clipped to the clusters of the file and not to its size: input in `Fat32ReadBack.ReadsPastEnd`; exact condition in `Fat32ReadBack.ReadClippedIff`.
- A FAT16 read is clipped to the file only if offset plus size does not wrap in 32 bits: input in `Fat16Read.ClipWraps`; exact condition in `Fat16Read.ClipIsExact`.
- The FAT16 search for a free cluster can return an entry past the last cluster: input in `Fat16Volume.SpareEntryFound`; exact condition in `Fat16Volume.SearchIsExact`.
- A FAT16 write whose last byte fills a cluster needs one cluster more, and reports failure without it: input in `Fat16Write.FullClusterRefused`; exact condition in `Fat16Write.StoredIff`.
- A FAT16 handle on a file that was opened empty remembers a wrong cluster after the first write: input in `Fat16Write.WriteToEmpty`; exact condition in `Fat16Write.Write`.
- Paths that lose segments past the 32nd, or keep one past 63 characters, lose their meaning: input in `VfsPath.DeepPathFails`; exact condition in `VfsPath.NormalPathMeaningIff`.
- A mount on `/` does not cover every path: input in `VfsResolve.RootMountMissed`; exact condition in `VfsResolve.RootCovers`.

Where comments and code differ, the model follows the code: the comment on `fat32_extract_lfn` speaks of extracting
the file name, but over several entries it yields the chunks in reverse (src/fs/fat32.c:417-435); the comment in
`vfs_find_mount` says that `/` matches everything, but the boundary test lets it match only `/` and paths that begin
with two slashes (src/fs/vfs.c:382-391); the comment in `pipe_close` says that writers are woken to observe the closed
reader, but they find that they cannot write and sleep again (src/fd.c:287-288, src/syscall.c:551-560).

## Model

| member | source | states |
|---|---|---|
| `Fat32Disk.SetEntryViews` | src/fs/fat32.c:261-301 | Writing one entry to every FAT copy changes exactly that link. All reserved top bits, all data clusters and the agreement of the copies are kept. |
| `Fat32Disk.WriteClusterViews` | src/fs/fat32.c:389-399 | Writing a cluster changes exactly its bytes: no other cluster, no FAT entry in any copy. |
| `Fat32Layout.LinkBytes` | src/fs/fat32.c:233-258 | The link of cluster c is the low 28 bits of the little-endian word at byte 4c of the first FAT. |
| `Fat32Layout.ClusterBytesAt` | src/fs/fat32.c:222-230 | The contents of cluster c are the bytes from its address behind the FATs on, counting from cluster 2. |
| `Fat32Volume.Volume.constructor` | src/fs/fat32.c:129-190 | A mounted volume shows the links on the device and the FSInfo values read from it. |
| `Fat32Volume.Volume.GetFatEntry` | src/fs/fat32.c:233-258 | Returns the 28-bit link of a cluster in range and the bad-cluster marker otherwise. |
| `Fat32Volume.Volume.SetFatEntry` | src/fs/fat32.c:261-301 | Replaces one link and nothing else in any copy; out of range it refuses and the device is unchanged. |
| `Fat32Volume.Volume.WriteEntry` | src/fs/fat32.c:266-298 | The patched sector goes to every copy of the FAT. |
| `Fat32Volume.Volume.WriteToAllCopies` | src/fs/fat32.c:287-298 | The same sector goes to every copy of the FAT. |
| `Fat32Volume.Volume.PatchEntry` | src/fs/fat32.c:266-285 | Builds the FAT sector with the link replaced and the top four bits kept. |
| `Fat32Volume.Volume.ReadCluster` | src/fs/fat32.c:376-386 | Returns the bytes of the cluster; clusters below 2 are refused. |
| `Fat32Volume.Volume.WriteCluster` | src/fs/fat32.c:389-399 | Replaces one cluster, keeps the FAT and all other clusters; clusters below 2 are refused. |
| `Fat32Volume.Volume.AllocateCluster` | src/fs/fat32.c:304-344 | Takes the first free cluster in probing order from the hint, links it to 0x0FFFFFFF, puts the hint behind it and takes one off a known count; 0 leaves everything unchanged. |
| `Fat32Volume.Volume.SearchFree` | src/fs/fat32.c:309-339 | The wrapping probe loop finds the first free cluster in probing order. |
| `Fat32Chains.PickSucceeds` | src/fs/fat32.c:304-344 | Allocation succeeds exactly when a cluster is free, or when two are if the hint is the one that hides the last cluster. |
| `Fat32Layout.PickIsNext` | src/fs/fat32.c:309-339 | With a usable hint the cluster picked is the free one nearest after it, around the table. |
| `Fat32Layout.PickFromStart` | src/fs/fat32.c:309-313 | Without one the search starts at cluster 2. |
| `Fat32Layout.ChainMarkers` | src/fs/fat32.h:89-92 | Links from 0x0FFFFFF8 on end a chain and no others do. |
| `Fat32Chains.HintHidesLastCluster` | src/fs/fat32.c:309-339 | A volume with one free cluster on which allocation fails. |
| `Fat32Chains.ChainUnique` | src/fs/fat32.c:347-364 | The chain from a first cluster is determined by the FAT. |
| `Fat32Chains.ChainAcyclic` | src/fs/fat32.c:347-364 | A chain that ends visits no cluster twice. |
| `Fat32Chains.ChainBound` | src/fs/fat32.c:1050-1055 | No chain is longer than the volume has clusters, so the loop limits of create and delete never fire on one. |
| `Fat32Chains.AppendKeeps` | src/fs/fat32.c:785-799 | Linking a new cluster to the tail gives a longer chain made of a cluster that was free, and changes no link outside it. |
| `Fat32Chains.AppendCounts` | src/fs/fat32.c:304-344 | An allocation takes exactly one free cluster; an exact free count stays exact. |
| `Fat32Chains.GrowToKeeps` | src/fs/fat32.c:720-804 | Growing a file keeps it a chain, continues it by clusters that were free, and touches no other link. |
| `Fat32Chains.GrowToSucceeds` | src/fs/fat32.c:720-804 | Growing succeeds exactly when enough clusters are free (one more if the hint hides one); an exact free count stays exact. |
| `Fat32Chains.FreeWalkChain` | src/fs/fat32.c:347-373 | Freeing a chain zeroes exactly its links and counts exactly its clusters. |
| `Fat32Chains.FreeWalkStep` | src/fs/fat32.c:351-364 | On any FAT, cyclic or cross-linked, each step frees a cluster that was taken or meets a free one: the walk ends. |
| `Fat32Chains.FreeWalkClears` | src/fs/fat32.c:347-373 | On any FAT the walk only clears links. |
| `Fat32Volume.Volume.FreeClusterChain` | src/fs/fat32.c:347-373 | Terminates on every FAT; clears the links of the walk, adds the freed clusters to a known count unless the walk left the volume. |
| `Fat32Volume.Volume.ClearChain` | src/fs/fat32.c:350-364 | The loop clears what the walk over the links clears, on any FAT, and counts it. |
| `Fat32Run.GrowKeepsOther` | src/fs/fat32.c:720-804 | Growing one file neither changes another file's chain nor takes its clusters. |
| `Fat32Run.FreeKeepsOther` | src/fs/fat32.c:347-373 | Freeing one file leaves the others' chains. |
| `Fat32Run.StepKeeps` | src/fs/fat32.c:304-373 | On any volume, whatever FSInfo says, creating, growing and deleting files keep all chains ending and disjoint and conserve clusters; an exact free count stays exact and an unknown one unknown. |
| `Fat32Run.RunKeeps` | src/fs/fat32.c:233-373 | The same over every run, and every chain stays acyclic: free clusters plus clusters in files never change. |
| `Fat32Session.WriteTo` | src/fs/fat32.c:720-804 | A file write grows the chain to the clusters it needs and does nothing else to the FAT. |
| `Fat32Session.PerformOne` | src/fs/fat32.c:233-373 | One write or deletion on the device is one step of the run. |
| `Fat32Session.Perform` | src/fs/fat32.c:233-373 | Any sequence of writes and deletions on the device: chains in range, acyclic, end-marked and disjoint, clusters conserved, every FAT copy equal to the first if it was, and no reserved bit changed. |
| `Fat32Volume.Volume.ReadFileData` | src/fs/fat32.c:668-717 | Returns the file's bytes at the offset, as many as asked and present; -1 past the end, 0 for size 0, -1 without a first cluster. |
| `Fat32Volume.Volume.Locate` | src/fs/fat32.c:679-685 | Following links reaches the cluster with that number in the chain, or reports that the chain ends first. |
| `Fat32Volume.Volume.CopyOut` | src/fs/fat32.c:691-716 | The copy loop returns the slice of the file from its starting point. |
| `Fat32Volume.Volume.NextOrAllocate` | src/fs/fat32.c:785-799 | Moves to the next cluster of the chain, or adds and links one; reports a full volume. |
| `Fat32Volume.Volume.WalkAllocating` | src/fs/fat32.c:730-752 | Reaches the cluster of the offset, allocating the missing ones, also for a file that had none. |
| `Fat32Volume.Volume.CopyIn` | src/fs/fat32.c:758-804 | Writes the bytes cluster by cluster, reading a cluster first when only part of it changes, and says how many reached the device when the volume fills up. |
| `Fat32Volume.Volume.CopyCluster` | src/fs/fat32.c:758-785 | One turn replaces part of one cluster; the bytes it does not replace are read first. |
| `Fat32Volume.Volume.WriteFileData` | src/fs/fat32.c:720-804 | The file afterwards is the file before with the bytes spliced in at the offset; its chain is the old one grown; no other cluster or link changes; exact result on a full volume. |
| `Fat32Files.WrittenReadsBack` | src/fs/fat32.c:668-804 | After a write the range holds the bytes written and the file before and after the range is unchanged. |
| `Fat32Files.WrittenSparesOthers` | src/fs/fat32.c:720-804 | A write leaves the contents of every file that shares no cluster. |
| `Fat32Volume.Volume.WriteThenRead` | src/fs/fat32.c:668-804 | A write that reports its size is read back byte for byte, and it succeeds exactly when the missing clusters are available. |
| `Fat32Names.NeedsLfn` | src/fs/fat32.c:865-891 | True exactly for names with several dots, lower case, blanks, a base over 8 or an extension over 3. |
| `Fat32Names.NameTo83` | src/fs/fat32.c:894-919 | Base and extension in upper case, padded with blanks, split at the last dot. |
| `Fat32Names.ShortToName` | src/fs/fat32.c:438-459 | The non-blank bytes of both fields with a dot between them if there is an extension. |
| `Fat32Names.ShortDisplay` | src/fs/fat32.c:438-459 | What a name without long form is shown as. |
| `Fat32Names.ShortRoundTrip` | src/fs/fat32.c:865-919 | A name without long form survives the 8.3 coding exactly when it does not end in a dot. |
| `Fat32Names.GenerateLong` | src/fs/fat32.c:922-998 | The 13-character chunks of the name as units, last chunk first, terminated and padded. |
| `Fat32Names.LongRoundTrip` | src/fs/fat32.c:418-435 | Reading the slots in disk order gives the chunks of the name in reverse order. |
| `Fat32Names.OneSlotSurvives` | src/fs/fat32.c:922-998 | Names up to 13 characters survive. |
| `Fat32Names.TwoSlots` | src/fs/fat32.c:938-941 | Names of 14 to 26 characters survive exactly when their two parts commute; different first characters are enough to lose the name. |
| `Fat32Long.LongSlotUnits` | src/fs/fat32.c:942-994 | The 32 bytes of a long slot give back its 13 units. |
| `Fat32Long.GenerateEntries` | src/fs/fat32.c:922-998 | The 32-byte slots of a name with order, attribute, checksum and characters; none when more than 20 are needed. |
| `Fat32Long.CollectedIs` | src/fs/fat32.c:547-560 | What the iterator has collected after each long slot: the chunks so far, in disk order, in a zeroed buffer. |
| `Fat32Long.LongEntryName` | src/fs/fat32.c:568-591 | After long slots an entry goes by the reversed chunks if the checksum is its own, else by its short name. |
| `Fat32Long.LongGoesBy` | src/fs/fat32.c:513-596 | In any well-formed directory, an entry with its long slots goes by the reversed chunks and by nothing else. |
| `Fat32Long.GeneratedIsLong` | src/fs/fat32.c:922-998 | The generated slots followed by their entry are such a directory. |
| `Fat32Long.LongLookup` | src/fs/fat32.c:513-633 | In any well-formed directory, the entry is found under the name its slots were made from exactly when reversing the chunks gives that name, ignoring case, and no earlier entry goes by it. |
| `Fat32Long.OneSlotLookup` | src/fs/fat32.c:513-633 | With up to 13 characters, exactly when no earlier entry goes by it. |
| `Fat32Long.FourteenLost` | src/fs/fat32.c:513-633 | A directory with one file of a 14-character name, written as the driver does, in which a lookup of the name finds nothing. |
| `Fat32Dir.FindStateless` | src/fs/fat32.c:547-560 | Leftovers of an earlier long name do not influence later lookups. |
| `Fat32Dir.LookupFirst` | src/fs/fat32.c:599-633 | A lookup finds the first entry that goes by the name, and nothing exactly when no entry does. |
| `Fat32Dir.FoundAfter` | src/fs/fat32.c:599-633 | Searching on from an entry finds something exactly when another entry goes by the name. |
| `Fat32Dir.CreateLookup` | src/fs/fat32.c:1001-1138 | An entry in the first free slot is found under its absent name, and every other lookup is unchanged. |
| `Fat32Dir.CreateKeeps` | src/fs/fat32.c:1001-1138 | Creating keeps a directory well-formed: nothing live after an end marker, no orphaned or unmarked long slots. |
| `Fat32Dir.GrowKeeps` | src/fs/fat32.c:1113-1131 | Adding an empty cluster changes no lookup and keeps the directory well-formed. |
| `Fat32Dir.DeleteLookup` | src/fs/fat32.c:1141-1269 | Deleting an entry with its long slots changes only lookups that found it; those go on to what follows. |
| `Fat32Dir.DeleteKeeps` | src/fs/fat32.c:1141-1269 | Deleting an entry with all its long slots keeps the directory well-formed. |
| `Fat32Dir.DeleteKeepsIff` | src/fs/fat32.c:1217-1229 | Marking backwards from an entry keeps the directory well-formed exactly when it reaches the start of the long name. |
| `Fat32Dir.DeadSlot` | src/fs/fat32.c:541-544 | A deleted slot in the place of the first free one changes no lookup. |
| `Fat32Dir.CreateDeleteRestores` | src/fs/fat32.c:1001-1269 | Creating an entry and deleting it again restores every lookup. |
| `Fat32DirOps.FindBySweep` | src/fs/fat32.c:513-596 | Searching a directory cluster by cluster is searching the whole sequence of slots. |
| `Fat32DirOps.SearchCluster` | src/fs/fat32.c:513-596 | One cluster's share of a lookup: the slot, the end of the directory, or the state to go on with. |
| `Fat32DirOps.LoadNext` | src/fs/fat32.c:518-536 | The next cluster of the directory and its bytes, or 0 at the end of its chain. |
| `Fat32DirOps.FindInDir` | src/fs/fat32.c:599-633 | Returns the first entry of the whole directory that goes by the name, long or short; `Fat32Layout.LookupIgnoresCase` says which names are one. |
| `Fat32Layout.SameNameIff` | src/fs/fat32.c:611-620 | Two names are the same exactly when they have one length and each pair of bytes is equal or an ASCII letter in its two cases. |
| `Fat32Layout.LookupIgnoresCase` | src/fs/fat32.c:599-633 | Names that differ only in the case of ASCII letters go to the same entry of every directory. |
| `Fat32Layout.ReadmeFound` | src/fs/fat32.c:599-633 | The entry README.TXT is found as readme.txt, and not by a part of its name. |
| `Fat32Layout.ShortIgnoresCase` | src/fs/fat32.c:894-919 | Names that differ only in case have the same 11 bytes. |
| `Fat32Layout.NeedsLongIff` | src/fs/fat32.c:865-891 | A name without a final dot gets a long form exactly when it has several dots or would not read back from its 11 bytes. |
| `Fat32Layout.DisplayBound` | src/fs/fat32.c:438-466 | What the 11 bytes show is never longer than the name, has no small letters and no blanks, and loses characters past 8 and 3. |
| `Fat32Layout.ChecksumTurns` | src/fs/fat32.c:402-408 | Each byte of the short name is added, modulo 256, to the sum so far with its eight bits turned right by one place. |
| `Fat32Layout.ReadmeChecksum` | src/fs/fat32.c:402-408 | The checksum of `README  TXT` is 0x73. |
| `Fat32Layout.SlotKinds` | src/fs/fat32.c:541-566 | A slot is free by the first bytes 0x00 and 0xE5, long by attribute 0x0F, a label, a directory or the start of a long name by bits 3, 4 and 6. |
| `Fat32Layout.KindsByAttribute` | src/fs/fat32.h:80-86 | Attribute 0x10 makes a directory, 0x20 a file, 0x08 a label, 0x0F a part of a long name. |
| `Fat32Layout.EntryFields` | src/fs/fat32.h:52-65 | The first cluster is in bytes 26, 27, 20 and 21, the size in bytes 28 to 31. |
| `Fat32Layout.NewEntryFields` | src/fs/fat32.c:1085-1099 | A new entry byte by byte: name, archive attribute, the five time stamps, no cluster, no size. |
| `Fat32Layout.UpdatedBytes` | src/fs/fat32.c:1661-1673 | An update replaces attribute, first cluster, size and write time, and no other byte. |
| `Fat32Layout.LongSlotFields` | src/fs/fat32.h:68-77 | A long slot byte by byte: order, attribute, checksum and the 13 units in their three fields. |
| `Fat32Layout.LongSlotOrder` | src/fs/fat32.c:938-946 | The slots of a name number down to 1, the first on disk with bit 6 set, and there are as many as its length needs. |
| `Fat32Layout.ExtractIs` | src/fs/fat32.c:411-435 | A slot shows its units up to the first 0 or 0xFFFF, with a question mark for those past ASCII. |
| `Fat32Layout.NameBound` | src/fs/fat32.c:568-585 | No entry goes by more than 255 characters. |
| `Fat32Layout.LongNameIff` | src/fs/fat32.c:922-931 | Long slots and the iterator hold exactly the ASCII names of 1 to 255 characters. |
| `Fat32DirOps.FreeIn` | src/fs/fat32.c:1066-1075 | The first free slot of a cluster. |
| `Fat32DirOps.FindSlot` | src/fs/fat32.c:1044-1075 | The first free slot of the whole directory, or its last cluster if it is full. |
| `Fat32DirOps.LinkCluster` | src/fs/fat32.c:1113-1123 | A full directory gets one more cluster at the tail of its chain. |
| `Fat32DirOps.AddCluster` | src/fs/fat32.c:1113-1131 | The added cluster is empty and nothing else changes; on a full volume nothing changes. |
| `Fat32DirOps.PutFirst` | src/fs/fat32.c:1077-1109 | The entry goes to the first slot of the new cluster. |
| `Fat32DirOps.PutInPlace` | src/fs/fat32.c:1077-1109 | One slot of the directory changes and nothing else on the volume. |
| `Fat32DirOps.AppendSlot` | src/fs/fat32.c:1113-1131 | Growing a full directory: old slots, then the new entry, then empty slots. |
| `Fat32DirOps.PlaceEntry` | src/fs/fat32.c:1044-1138 | The entry lands in the first free slot, or in a new cluster of a full directory; it fails exactly when both are full. |
| `Fat32DirOps.CreateShort` | src/fs/fat32.c:1001-1138 | Creating a file under an 8.3 name: the new empty entry at the first free slot, all else as it was. |
| `Fat32DirOps.CreatedLookup` | src/fs/fat32.c:1001-1138 | On the device, also when the directory grew: an absent name finds the new entry, other names find what they found, the directory stays well-formed. |
| `Fat32DirOps.CreatedFound` | src/fs/fat32.c:1001-1138 | A new file is found under its name, as the new empty entry, exactly when the name neither ends in a dot nor starts with the mark of deleted slots. |
| `Fat32DirOps.DottedLost` | src/fs/fat32.c:894-919 | `A.` created in an empty directory is not found. |
| `Fat32DirOps.MarkedLost` | src/fs/fat32.c:1044-1138 | Neither is a name whose first byte is the mark of deleted slots. |
| `Fat32DirOps.CreateThenFind` | src/fs/fat32.c:599-1138 | Creating an absent name, then looking it up, on the device. |
| `Fat32Unlink.MatchIn` | src/fs/fat32.c:1196-1217 | Scans a cluster for a live slot with the same 11 bytes, up to the end marker. |
| `Fat32Unlink.FindMatch` | src/fs/fat32.c:1176-1217 | The first slot of the directory that shares the short name; the one found by name guarantees there is one. |
| `Fat32Unlink.MarkRun` | src/fs/fat32.c:1217-1229 | Marks the slot and exactly the run of long slots before it in its cluster. |
| `Fat32Unlink.MarkEntry` | src/fs/fat32.c:1176-1250 | On the device, those slots of the directory are marked and nothing else changes. |
| `Fat32Unlink.FreeFile` | src/fs/fat32.c:1259-1265 | Frees the file's clusters if it has any. |
| `Fat32Unlink.DeleteFile` | src/fs/fat32.c:1141-1269 | Refuses missing names and directories without change; otherwise marks the entry and frees the chain of the entry found. |
| `Fat32Unlink.UnlinkedLookup` | src/fs/fat32.c:1141-1269 | If no earlier slot shares the short name and the long slots lie in one cluster, the directory stays well-formed and exactly the lookups of that entry change. |
| `Fat32Unlink.WrongSlot` | src/fs/fat32.c:1196-1229 | Marking an earlier slot that shares the short name leaves the entry findable, or orphans. |
| `Fat32Unlink.UnlinkedIff` | src/fs/fat32.c:1141-1269 | A successful delete hides the entry and keeps the directory well-formed exactly when no earlier slot shares its short name and its long slots lie in its cluster. |
| `Fat32Unlink.UnlinkedGone` | src/fs/fat32.c:1141-1269 | And then the name is gone exactly when no other entry goes by it. |
| `Fat32Unlink.DeleteTakesLabel` | src/fs/fat32.c:1206-1219 | A volume label with the same 11 bytes is deleted in place of the file, which is still found. |
| `Fat32Unlink.LabelledFile` | src/fs/fat32.c:1206-1219 | A file and a name to which that applies. |
| `Fat32Unlink.DeleteLeavesOrphan` | src/fs/fat32.c:1222-1229 | A long slot at the end of the cluster before is left behind. |
| `Fat32Unlink.AfterFreeKeeps` | src/fs/fat32.c:1259-1265 | Freeing the file keeps the directory's chain and an exact free count. |
| `Fat32Unlink.DeleteNamed` | src/fs/fat32.c:1141-1269 | On the device: the entry is hidden and the directory well-formed exactly if it was clean, and then the name is gone exactly if no other entry goes by it; a refused delete changes nothing. |
| `Fat32Unlink.DeleteThenFind` | src/fs/fat32.c:599-1269 | Deleting a name, then looking it up, on the device: not found exactly when no other entry goes by it, for a clean entry. |
| `Fat32Named.CreateOwned` | src/fs/fat32.c:1001-1138 | Creating keeps every entry the head of a chain of its own, disjoint from the others and the directory's; the cluster the directory may grow by was nobody's. |
| `Fat32Named.DeleteOwnedIff` | src/fs/fat32.c:1141-1269 | After a delete by name every entry has a chain of its own, for any way to assign them, exactly if the slot marked is the entry's or the file had no clusters. |
| `Fat32Named.UpdatedFields` | src/fs/fat32.c:1672-1684 | The updated slot keeps its short name and has the new first cluster, size and attribute. |
| `Fat32Named.UpdateEntry` | src/fs/fat32.c:1611-1708 | On the device, the first slot that shares the short name is updated and nothing else changes. |
| `Fat32Named.WriteBytes` | src/fs/fat32_vfs.c:50-55 | The data part of a write spares the directory; the bytes read back from the grown chain. |
| `Fat32Named.WriteNamed` | src/fs/fat32_vfs.c:50-91 | Finding a file by name and writing to it: the grown chain, the bytes in place, and the entry updated if its size or first cluster changed; `Fat32ReadBack.WrittenEntry` says what the entry then holds. |
| `Fat32ReadBack.WrittenEntry` | src/fs/fat32_vfs.c:57-86 | After a write whose slot is its own, the entry covers the bytes written, is no shorter than before, is one of these two sizes, heads the grown chain, and no other slot changed. |
| `Fat32ReadBack.StillFound` | src/fs/fat32_vfs.c:80-81 | The updated entry is found under the same names. |
| `Fat32ReadBack.AfterWrite` | src/fs/fat32_vfs.c:50-91 | After such a write the name leads to the same slot, which covers the bytes and heads the chain that holds them. |
| `Fat32ReadBack.WriteAndReadBack` | src/fs/fat32_vfs.c:38-91 | Writing by name, finding the name again and reading as many bytes as the entry says returns the bytes written, and the size is the larger of the old one and the end of the write. |
| `Fat32ReadBack.ReadNamed` | src/fs/fat32_vfs.c:38-47 | Reading by name returns the bytes of the chain from the offset on, as many as asked for and stored; nothing for a file without clusters; an error for a missing name, a directory and an offset past the clusters. |
| `Fat32ReadBack.ReadClippedIff` | src/fs/fat32_vfs.c:38-47 | A read returns as many bytes as the file has there exactly when it asks for no more, the file fills its clusters, or it has none. |
| `Fat32ReadBack.ReadsPastEnd` | src/fs/fat32_vfs.c:38-47 | A read of 512 bytes of a 100-byte file returns 512. |
| `Fat32Named.WriteOwnedIff` | src/fs/fat32_vfs.c:50-91 | After a write by name every entry heads the chain it should exactly if no update was due or the slot updated is its own. |
| `Fat32Named.WriteEntersLabel` | src/fs/fat32.c:1661-1684 | A volume label with the same 11 bytes becomes an entry with the file's clusters, and the file stays empty. |
| `Fat32Named.StepKeepsOrder` | src/fs/fat32.c:1001-1708 | Each creation under a new short name, write or deletion keeps the directory in order: chains and short names of their own. |
| `Fat32Named.RunInOrder` | src/fs/fat32.c:1001-1708 | So does every run of them. |
| `Descriptors.FdTables.constructor` | src/process.c:23-45 | The tables at boot: nothing open, the kernel process live with sixteen zero descriptors, all other slots dead. |
| `Descriptors.BootUncounted` | src/process.c:23-45 | At boot the kernel names a free slot; after the first process opens the terminal, nineteen descriptors share its three references. |
| `Descriptors.FdTables.OfAlloc` | src/fd.c:13-25 | The first free slot of the open-file table gets the node and one reference; -1 when full. |
| `Descriptors.FdTables.OfDrop` | src/fd.c:35-45 | One reference less; the last one closes the node and frees the slot. |
| `Descriptors.FdTables.FindFreeFdSlot` | src/fd.c:49-56 | The first free descriptor from 3 on, or -1. |
| `Descriptors.FdTables.FdAlloc` | src/fd.c:69-86 | The lowest closed descriptor from 3 on names the lowest free slot, which holds the node once, and nothing else changes; without either, -1 and nothing is opened. |
| `Descriptors.AllocOpens` | src/fd.c:69-86 | The same of the function the method refines. |
| `Descriptors.AllocFailsIff` | src/fd.c:69-86 | Opening fails exactly when all 256 open files are in use or all descriptors from 3 to 15 are. |
| `Descriptors.FdTables.FdClose` | src/fd.c:98-107 | Clears the descriptor and drops its reference. |
| `Descriptors.FdTables.BindFd` | src/fd.c:142-148 | A descriptor is set to a slot, which gains a reference. |
| `Descriptors.FdTables.InitProcess` | src/fd.c:109-135 | Three descriptors share one terminal slot with three references, or none without a terminal. |
| `Descriptors.FdTables.FdCopyOnFork` | src/fd.c:137-149 | The child's table becomes the parent's and every slot gains a reference per copy. |
| `Descriptors.FdTables.FdCloseAllFor` | src/fd.c:151-161 | Every descriptor of the process is closed in turn. |
| `Descriptors.FdTables.FdDup` | src/fd.c:163-179 | A second descriptor for the slot, one more reference. |
| `Descriptors.FdTables.FdDup2` | src/fd.c:181-201 | The target is closed first, then names the slot; duplicating onto itself changes nothing. |
| `Descriptors.FdTables.FdPipe` | src/fd.c:321-359 | The two lowest closed descriptors name the read and the write end of a new pipe with both ends open; no other descriptor, process or open file changes. |
| `Descriptors.PipeOpens` | src/fd.c:321-359 | The same of the function the method refines. |
| `Descriptors.PipeSucceedsIff` | src/fd.c:341-355 | A pipe can be had exactly when two open files and two descriptors from 3 to 15 are free. |
| `Descriptors.CloseKeeps` | src/fd.c:98-107 | Closing keeps the invariant: counts equal descriptors, but for leaked terminal files, and pipe flags agree with the open ends. |
| `Descriptors.AllocKeeps` | src/fd.c:69-86 | Opening keeps it, also when it fails. |
| `Descriptors.DupKeeps` | src/fd.c:163-179 | So does `dup`. |
| `Descriptors.Dup2Keeps` | src/fd.c:181-201 | So does `dup2`, also when closing the target frees its slot. |
| `Descriptors.ForkKeeps` | src/process.c:341-343 | So does giving a child stdio and then overwriting its table by the parent's. |
| `Descriptors.TeardownKeeps` | src/fd.c:151-161 | So does closing everything when a process dies. |
| `Descriptors.OpenPipeKeeps` | src/fd.c:321-359 | So does making a pipe. |
| `Descriptors.RunKeeps` | src/fd.c:13-201 | From boot on, in every state of every run of these operations by any user processes, the invariant holds of all descriptors but the kernel's, which never change. |
| `Descriptors.StepUsers` | src/fd.c:13-201 | What user processes do does not depend on the kernel's descriptors and leaves them alone. |
| `Descriptors.CountsInEveryRun` | src/fd.c:13-201 | In every run each count equals the user descriptors or is a leaked terminal's; counting the kernel's zeros too, it falls short for open file 0 and no other. |
| `Descriptors.PipeEndsInEveryRun` | src/fd.c:281-301 | In every run, an end of a pipe is open exactly when some process not yet destroyed, a zombie included, holds a descriptor for it, and the buffer is freed once, when neither end is held. |
| `Descriptors.ForkLeaksTerminal` | src/fd.c:137-149 | After a fork with a terminal, the child's first slot keeps three references that no descriptor holds. |
| `Descriptors.ForkIs` | src/fd.c:137-149 | A fork in one step: the parent's table, a reference more per copied descriptor, and the child's first slot with its three. |
| `Descriptors.ForkExactIff` | src/process.c:341-343 | A fork keeps exact counts exact precisely when it cannot open the terminal for the child. |
| `PipeRing.Pipe.constructor` | src/fd.c:219-231 | A new pipe is empty with both ends open. |
| `PipeRing.Pipe.Read` | src/fd.c:234-255 | Takes the oldest bytes, as many as asked and present; bytes delivered followed by the contents stay the bytes accepted. |
| `PipeRing.Pipe.Write` | src/fd.c:258-278 | Appends as many bytes as fit; -1 when the read end is closed; the same invariant with the positions it implies. |
| `PipeRing.Pipe.PutByte` | src/fd.c:268-272 | One byte goes to the write position and the position wraps. |
| `PipeRing.Pipe.TakeByte` | src/fd.c:245-249 | One byte comes from the read position and the position wraps. |
| `PipeRing.Pipe.Close` | src/fd.c:281-301 | Closing an end changes the flags as the descriptor tables see them, and releases the buffer with the last end; the contents stay. |
| `PipeRing.Pipe.CanRead` | src/fd.c:371-375 | Reading need not wait exactly when there are bytes or no writer. |
| `PipeRing.Pipe.CanWrite` | src/fd.c:377-382 | Writing need not wait exactly when there is a reader and space. |
| `PipeRing.Pipe.ReadInRun` | src/fd.c:234-255 | In any state of any run, a reader waits exactly while the pipe is empty and some process holds a write descriptor, and sees end of file exactly when it is empty and none does. |
| `PipeWaits.StepKeeps` | src/fd.c:234-301 | Every step keeps the contents within the ring, each process in one place, and the sides of a closed end empty. |
| `PipeWaits.StepStrandsReader` | src/syscall.c:690-701 | Exactly these steps leave a reader asleep on a pipe with bytes, or without writers, and nobody coming: sleeping after the wake-up has gone by, and being the only one on the way and leaving bytes behind or vanishing. |
| `PipeWaits.StepStrandsWriter` | src/syscall.c:551-560 | The same for writers and room. |
| `PipeWaits.ReaderStrandedIff` | src/syscall.c:690-701 | In every run such a reader comes up exactly if such a step occurs. |
| `PipeWaits.WriterStrandedIff` | src/syscall.c:551-560 | And such a writer. |
| `PipeWaits.SomebodyComes` | src/fd.c:250-276 | Unless one is stranded, readers and writers of an open pipe never all sleep. |
| `PipeWaits.SecondReaderStranded` | src/fd.c:273-276 | Two readers sleep, a write wakes one, which leaves a byte: the other sleeps on. |
| `PipeWaits.WakeUpMissed` | src/syscall.c:692-698 | A write between the check and the sleep of a reader wakes nobody. |
| `PipeWaits.StepKeepsWord` | src/syscall.c:690-701 | A reader past its check finds bytes or the end of the file, unless another read empties the pipe first: exactly those steps. |
| `PipeWaits.WordBrokenIff` | src/syscall.c:690-701 | The same over every run. |
| `PipeWaits.FalseEnd` | src/fd.c:239-242 | A run after which a read will return 0 although a writer is there. |
| `PipeWaits.ClosedReaderBlocks` | src/syscall.c:551-560 | A write that starts after the read end was closed sleeps, and in every run stays asleep until its process is destroyed. |
| `PipeWaits.SleepReader` | src/fd.c:384-388 | Going to sleep on the readers' queue of the process table is that step. |
| `PipeWaits.SleepWriter` | src/fd.c:390-394 | Going to sleep on the writers' queue is that step. |
| `PipeWaits.ReadAndWake` | src/fd.c:234-255 | The read with its wake-up, on the ring and the process table, is that step. |
| `PipeWaits.WriteAndWake` | src/fd.c:258-278 | The write with its wake-up is that step. |
| `PipeWaits.CloseEnd` | src/fd.c:281-301 | Closing an end, which wakes everybody on the other side, is that step. |
| `ProcTable.FreePidExists` | src/process.c:87-107 | With a free slot some pid from 1 to 63 is unused, by pigeonhole. |
| `ProcTable.LeastFreePidFound` | src/process.c:87-107 | So the pid search finds one and never falls back. |
| `ProcManager.Processes.constructor` | src/process.c:23-70 | The kernel process runs, there is no other, and all invariants hold. |
| `ProcManager.Processes.GetNextPid` | src/process.c:87-107 | The least unused pid, or the counter when there is none. |
| `ProcManager.Processes.PidInUse` | src/process.c:90-96 | Whether a live process has the pid. |
| `ProcManager.Processes.GetByPid` | src/process.c:113-122 | The only live process with that pid, or none. |
| `ProcManager.Processes.ReapZombies` | src/process.c:125-136 | Exactly the orphaned zombies other than the current process are cleared; all invariants are kept. |
| `ProcManager.Processes.Create` | src/process.c:138-351 | After reaping, fails exactly without memory or a slot among 1 to 63; else the exact table: the lowest free slot, the least free pid, first among its creator's children, slice 10, level 3 and weight 160 for a user process or 0 and 256 for a kernel one, all others as they were. |
| `ProcManager.Processes.FindFreeSlot` | src/process.c:144-151 | The lowest free slot from 1 on, if there is one. |
| `ProcManager.Processes.Populate` | src/process.c:160-351 | Fills the slot, leaving all others but the creator's list head, or gives it back. |
| `ProcManager.Processes.LinkNewChild` | src/process.c:329-333 | The child goes to the front of its parent's list. |
| `ProcManager.CreateKeeps` | src/process.c:138-351 | Creating keeps pids, tree, queues and scheduling state consistent. |
| `ProcTree.AddChildKeeps` | src/process.c:329-333 | Prepending a new child keeps every list acyclic and holding exactly the live children, with `ppid` agreeing. |
| `ProcTree.AdoptKeeps` | src/process.c:420-433 | Each step of reparenting keeps the tree with the remaining children still loose. |
| `ProcTree.RemoveKeeps` | src/process.c:387-399 | Unlinking a childless process keeps the tree. |
| `ProcTree.DestroyNeedsChildless` | src/process.c:387-403 | Destroying leaves some consistent tree exactly when the process has no children. |
| `ProcManager.Processes.FindPred` | src/process.c:391-394 | The sibling before a process in its parent's list. |
| `ProcManager.Processes.FindInQueue` | src/process.c:360-367 | The place of a process in its wait queue. |
| `ProcManager.Processes.LeaveQueue` | src/process.c:356-371 | A waiting process leaves its queue and the others keep their order. |
| `ProcManager.Processes.ClearSlot` | src/process.c:387-403 | The process leaves its parent's list and the slot is blank. |
| `ProcManager.Processes.Destroy` | src/process.c:353-404 | All invariants are kept; the process leaves its queue, its parent and the table; the orders of the rest stay. |
| `ProcManager.RemoveKeepsAll` | src/process.c:353-404 | Removing a childless process keeps pids, tree, queues and scheduling state consistent. |
| `ProcManager.Processes.LetChildrenGo` | src/process.c:418-419 | The exiting process lets go of its children. |
| `ProcManager.Processes.AdoptNext` | src/process.c:420-433 | The next child moves to the front of init's list, or gets no parent. |
| `ProcManager.Processes.AdoptAll` | src/process.c:420-433 | All children move. |
| `ProcManager.Processes.ReparentChildren` | src/process.c:416-433 | Init's list becomes the children in reverse order before its own; also when init itself exits. |
| `ProcManager.ExitKeeps` | src/process.c:413-436 | Becoming a zombie after reparenting keeps all invariants. |
| `ProcManager.Processes.WakeParent` | src/process.c:438-449 | A sleeping parent becomes runnable. |
| `ProcManager.Processes.BeginExit` | src/process.c:413-449 | Reparenting, death and waking the parent: the process is a zombie, its children and no others belong to init, its parent is runnable if it slept, and no other state changes. |
| `ProcManager.Processes.Exit` | src/process.c:413-461 | The kernel does not exit. Any other process is left a childless zombie and its children go to init. In the table the scheduler then chooses from, a parent that slept is runnable. The best runnable process runs, else the kernel. |
| `ProcManager.ExitIs` | src/process.c:413-449 | The state and parent of every process after a death, field by field. |
| `ProcManager.Processes.Sleep` | src/process.c:463-470 | The process sleeps until (now + ticks) modulo 2^32; the best runnable process runs, else the kernel; no other process changes but as `schedule` does. |
| `ProcManager.Processes.Wake` | src/process.c:472-483 | Only a sleeping process becomes runnable; its queue is not touched. |
| `ProcManager.Processes.JoinQueue` | src/process.c:573-578 | The current process sleeps at the head of the queue. |
| `ProcManager.Processes.WaitOn` | src/process.c:568-581 | Afterwards the caller is on the queue, asleep unless it is the kernel with nothing to run; the best runnable process runs, else the kernel. |
| `ProcManager.Processes.WakeNext` | src/process.c:588-594 | One process is taken off and readied. |
| `ProcManager.Processes.WakeAll` | src/process.c:583-596 | The queue is empty and exactly its members are readied and unlinked. |
| `ProcManager.Processes.WakeOne` | src/process.c:598-609 | Exactly the head leaves the queue and is readied. |
| `WaitQueues.EnqueueKeeps` | src/process.c:573-578 | Joining keeps queues acyclic and holding exactly the processes that name them. |
| `WaitQueues.EnqueueNeedsUnqueued` | src/process.c:573-578 | Joining leaves some consistent queues exactly when the process was on none. |
| `WaitQueues.QueuesDisjoint` | src/process.c:556-609 | No process is on two queues. |
| `WaitQueues.UnqueueKeeps` | src/process.c:356-371 | Taking out any element keeps the queues and the order of the rest. |
| `WaitQueues.WakeLoose` | src/process.c:588-594 | Each step of waking all keeps the queues with the rest still loose. |
| `Scheduler.BeatsIsBefore` | src/scheduler.c:111-122 | The cross-multiplied comparison is the order by (base priority - aging) / weight, then pid, negative scores included. |
| `Scheduler.BeforeTransitive` | src/scheduler.c:111-122 | That order is transitive. |
| `Scheduler.PriorityLevels` | src/scheduler.c:61-68 | Setting a level clamps it to 7 and gives the weight of that level, in literal numbers. |
| `Scheduler.BestUnique` | src/scheduler.c:102-127 | With distinct pids the best process is unique, so the choice does not depend on where the scan starts. |
| `Scheduler.PickNext` | src/scheduler.c:102-127 | From any starting slot the scan returns the best runnable process, or none if there is none. |
| `ProcManager.Processes.MakeRunnable` | src/scheduler.c:46-55 | State, slice and aging of a readied process; all invariants kept. |
| `ProcManager.Processes.SwitchTo` | src/scheduler.c:138-151 | The old process becomes runnable and ages by one up to 32 if it was running; the new one runs with slice 10 and no age; no other slot changes. |
| `ProcManager.Processes.Schedule` | src/scheduler.c:90-179 | Every slot afterwards, field by field; the best runnable process is current, else the one that was running, else slot 0; exactly when a blocked process stays current. |
| `ProcManager.DispatchIs` | src/scheduler.c:90-151 | What scheduling does to each slot: orphaned zombies are cleared, the new process runs, the old one can run, the rest keep every field but queue links. |
| `ProcManager.TickKeeps` | src/scheduler.c:185-197 | A tick keeps aging in 0..32, slices in 0..10 and all other invariants. |
| `ProcManager.Processes.Tick` | src/scheduler.c:181-221 | Slot by slot: a sleeper before its deadline or without one is unchanged, a due one is runnable with a slice and no deadline, a waiting one ages by one up to 32, the running one counts down its slice and gets a new one of 10; preemption is due exactly when it is used up and another can run. |
| `ProcManager.Processes.WakeAndAge` | src/scheduler.c:185-197 | The walk over the table, slot by slot: due sleepers are runnable without a deadline, waiting processes age, and no other slot changes. |
| `ProcSleep.SleepsExactly` | src/process.c:463-470 | A sleep of k ticks from tick n is over after k ticks and not before, exactly when n modulo 2^32 plus k stays below 2^32, or n is the last value before the wrap and k at least 2; one of no ticks ends at the next tick unless the counter is 0 or about to wrap. |
| `ProcSleep.SleepsForever` | src/scheduler.c:187 | A sleep whose end falls on a counter of 0 never ends, and one of 100 ticks shortly before the wrap ends at the first. |
| `ProcSleep.RunTimer` | src/scheduler.c:181-221 | Over any run of timer interrupts, with the scheduler running whenever a tick asks for it or a process gives way, a sleeper that nothing else wakes is asleep after every tick before its deadline, runnable after the first that is due, and awake from then on. |
| `ProcSleep.SleepFor` | src/process.c:463-470 | A process that sleeps k ticks is asleep after each of the first k - 1 interrupts and runnable after the k-th, if the counter does not wrap on the way. |
| `ProcSleep.TickAt` | src/scheduler.c:185-197 | The timer interrupt as one slot sees it. |
| `ProcSleep.ScheduleAt` | src/scheduler.c:90-151 | The scheduler wakes no process but the kernel and puts none to sleep. |
| `ProcManager.Processes.OtherRunnable` | src/scheduler.c:205-212 | Whether a process other than the current one can run. |
| `ProcScenarios.KernelBlocks` | src/scheduler.c:129-138 | From boot, the kernel sleeps with nothing to run and stays current, asleep. |
| `ProcScenarios.WokenStillQueued` | src/syscall.c:1537-1543 | From boot, a process waits, is woken without leaving its queue and runs again; waiting once more would break the queues. |
| `ProcScenarios.ParentOfOne` | src/process.c:353-404 | From boot, a process creates another; destroying it would leave no consistent tree. |
| `Fat16Read.ClipIsExact` | src/fs/fat16.c:585-588 | The size is clipped to the rest of the file exactly when offset plus size does not wrap. |
| `Fat16Read.ClipWraps` | src/fs/fat16.c:585-588 | A request for almost 4 GiB at byte 10 of 100 is not clipped. |
| `Fat16Volume.Volume16.GetNextCluster` | src/fs/fat16.c:422-439 | The 16-bit link, or the bad-cluster marker out of range. |
| `Fat16Volume.Volume16.ReadSectors` | src/fs/fat16.c:678-709 | A non-empty slice of the device, by whole sectors or through the bounce sector. |
| `Fat16Volume.Volume16.ReadChunk` | src/fs/fat16.c:672-709 | A non-empty slice of one cluster from an offset in it. |
| `Fat16Read.File16.constructor` | src/fs/fat16.c:441-478 | A newly opened handle, also on a file without clusters: the cache is valid for it. |
| `Fat16Read.File16.Seek` | src/fs/fat16_vfs.c:357-358 | Moving the offset keeps the handle valid: the cache describes its own offset. |
| `Fat16Read.File16.Locate` | src/fs/fat16.c:639-670 | From the cache or from the first cluster, it arrives at the same cluster as the plain walk. |
| `Fat16Read.File16.CopyChunk` | src/fs/fat16.c:672-723 | One chunk is the next slice of the file and the cache moves along. |
| `Fat16Read.File16.StepOn` | src/fs/fat16.c:710-723 | At the end of a cluster the walk follows the link; the place is remembered unless the chain ends. |
| `Fat16Read.File16.CopyFrom` | src/fs/fat16.c:672-724 | The loop returns the slice of the file. |
| `Fat16Read.File16.Read` | src/fs/fat16.c:578-724 | Over any seeks and reads: exactly the bytes a walk from the first cluster gives, and the cache stays valid. |
| `Fat16Disk.SetLinkViews` | src/fs/fat16.c:782-811 | Setting a link changes exactly that link, keeps both copies of the FAT equal, and touches no data and no spare entry. |
| `Fat16Disk.LinkBytes16` | src/fs/fat16.c:422-439 | The entry of cluster c is the little-endian word at byte 2c of the first FAT: a link below 0xFFF7, the end of a chain from 0xFFF8 on. |
| `Fat16Disk.ClusterBytesAt16` | src/fs/fat16.c:673 | The contents of cluster c are the bytes from its address in the data region on, counting from cluster 2. |
| `Fat16Disk.PutDataViews` | src/fs/fat16.c:1030-1047 | Writing part of a cluster changes exactly those bytes and no link. |
| `Fat16Volume.SearchIsExact` | src/fs/fat16.c:759-780 | The search gives the lowest free cluster, or 0 if there is none, exactly when one is free or no spare entry of the FAT looks free. |
| `Fat16Volume.SpareEntryFound` | src/fs/fat16.c:759-780 | A volume with one cluster, taken, for which the search returns a number past it. |
| `Fat16Volume.Volume16.FindFreeCluster` | src/fs/fat16.c:759-780 | The scan over all sectors of the FAT finds the first entry that looks free, its number cut to 16 bits. |
| `Fat16Volume.Volume16.SetClusterValue` | src/fs/fat16.c:782-811 | On the device: one link changes; data, agreement of the copies and spare entries stay. |
| `Fat16Volume.Volume16.WriteEntry16` | src/fs/fat16.c:782-811 | The patched sector goes to the first FAT, and to the second if there is one. |
| `Fat16Volume.Volume16.PutInSector` | src/fs/fat16.c:1030-1047 | Reading, changing and writing back a sector replaces exactly those bytes of the cluster. |
| `Fat16Write.Claim` | src/fs/fat16.c:1015-1016 | The free cluster taken is the one a growing chain of the FAT32 model would take. |
| `Fat16Write.NextOrNew` | src/fs/fat16.c:1012-1022 | The next cluster of the chain, or a new one linked to it. |
| `Fat16Write.FirstOrNew` | src/fs/fat16.c:997-1004 | A file without clusters gets one. |
| `Fat16Write.WalkTo` | src/fs/fat16.c:1010-1023 | Reaches the cluster of the offset, allocating on the way. |
| `Fat16Write.Place` | src/fs/fat16.c:997-1023 | The cluster of the offset for any file, or the number at which the volume was full. |
| `Fat16Write.PutPiece` | src/fs/fat16.c:1030-1047 | One sector's share of the bytes is in place, and all bytes written before still are. |
| `Fat16Write.PutTurn` | src/fs/fat16.c:1030-1060 | One turn of the loop with offset and size kept up to date. |
| `Fat16Write.PutAll` | src/fs/fat16.c:1025-1075 | The loop: all bytes in place, or those that fit before the volume was full. |
| `Fat16Write.Write` | src/fs/fat16.c:982-1086 | The grown chain, the spliced contents and the new size; the remembered place is untouched and right for the grown chain exactly unless the file had no cluster. |
| `Fat16Write.StoredIff` | src/fs/fat16.c:982-1086 | A write succeeds exactly when the clusters it lacks are free, counting the one after a last byte that fills its cluster; no link outside the chain changes. |
| `Fat16Write.FullClusterRefused` | src/fs/fat16.c:1057-1067 | On a full volume a write that exactly fills a file's one cluster stores all its bytes and reports failure. |
| `Fat16Write.WriteThenRead` | src/fs/fat16.c:578-1086 | Through one handle, a write that reports all its bytes reads back, with the exact condition for success. |
| `Fat16Write.WriteToEmpty` | src/fs/fat16.c:441-1004 | A file opened without clusters and written: the handle remembers a cluster that is not one of its chain. |
| `VfsPath.PushSeg` | src/fs/vfs.c:313-322 | Pushes a segment cut to 63 characters; a full stack ignores it. |
| `VfsPath.ParseInto` | src/fs/vfs.c:324-341 | Folds the components of a string onto the stack. |
| `VfsPath.NormalizePath` | src/fs/vfs.c:343-369 | The normal path if it fits the buffer, an error otherwise. |
| `VfsPath.WriteOut` | src/fs/vfs.c:354-368 | Writes the segments with slashes, or reports that they do not fit. |
| `VfsPath.SplitConcat` | src/fs/vfs.c:324-341 | Parsing two strings one after the other is parsing them joined by a slash. |
| `VfsPath.NormalPathIsNormal` | src/fs/vfs.c:343-369 | The result is absolute, without empty, `.` or `..` components, and spelled canonically. |
| `VfsPath.NormalPathIdempotent` | src/fs/vfs.c:343-369 | Normalising again is the identity, against any base. |
| `VfsPath.RelativeIsJoined` | src/fs/vfs.c:343-369 | A relative path against an absolute base gives what the joined string gives. |
| `VfsPath.BaseMayBeNormal` | src/fs/vfs.c:343-369 | Normalising the base first makes no difference. |
| `VfsPath.NormalPathMeaning` | src/fs/vfs.c:313-369 | Within the limits it is the stack meaning of `.` and `..`. |
| `VfsPath.NormalPathMeaningIff` | src/fs/vfs.c:313-369 | For every path it is that meaning exactly when no dropped segment is missing in the end and every surviving one has at most 63 characters. |
| `VfsPath.FoldBeside` | src/fs/vfs.c:313-341 | The bounded stack beside the unbounded one: shorter by the lost segments while any are lost, else the same segments, cut. |
| `VfsPath.DeepPathFails` | src/fs/vfs.c:313-322 | Thirty-three names and one `..` leave thirty-one segments instead of thirty-two. |
| `VfsPath.OwnNormalForm` | src/fs/vfs.c:313-369 | An absolute path made of names is its own normal form exactly when it has at most 32 of them, none longer than 63 characters. |
| `VfsPath.NormalPathShorter` | src/fs/vfs.c:343-369 | The normal form of an absolute path is no longer than the path. |
| `VfsResolve.BestIsLongest` | src/fs/vfs.c:372-394 | The mount chosen covers the path, none that covers it is longer, and it is the first of its length; none is chosen exactly when none covers the path. |
| `VfsResolve.FindMount` | src/fs/vfs.c:372-394 | The scan with a running best finds that mount. |
| `VfsResolve.RootCovers` | src/fs/vfs.c:382-391 | A mount on `/` covers exactly the path `/` and paths that begin with two slashes. |
| `VfsResolve.RootMountMissed` | src/fs/vfs.c:382-391 | With a file system mounted on `/`, `/a` is still looked up from the root node, or nowhere without one. |
| `VfsResolve.CoversIsPrefix` | src/fs/vfs.c:382-391 | Among normal paths a mount point covers exactly those that its components begin. |
| `VfsResolve.EntrySplits` | src/fs/vfs.c:579-605 | The walk starts at the mount root with the components of the path after those of the mount point. |
| `VfsResolve.Vfs.Close` | src/fs/vfs.c:224-240 | Gives back one reference. |
| `VfsResolve.Vfs.Descend` | src/fs/vfs.c:648-718 | The parent's reference is exchanged for one on the child, or given back. |
| `VfsResolve.Vfs.Enter` | src/fs/vfs.c:579-605 | One reference on the mount root or root, and the rest of the path. |
| `VfsResolve.Vfs.ComponentEnd` | src/fs/vfs.c:609-611 | The end of the component that starts here. |
| `VfsResolve.Vfs.Advance` | src/fs/vfs.c:608-723 | One component of the walk: the answer is decided, or the walk goes on from the child with the same meaning left. |
| `VfsResolve.Vfs.Follow` | src/fs/vfs.c:662-704 | Behind a link the answer is that of the path `Redirected` gives, one level deeper, which `LinkTarget` identifies; the link's reference is given back on every way out. |
| `VfsResolve.ComposedIsCut` | src/fs/vfs.c:670-696 | For every length, the path composed in fixed buffers is the first 1023 characters of the whole one: directory, slash, text, slash, rest, or text, slash, rest for an absolute link. |
| `VfsResolve.LinkTarget` | src/fs/vfs.c:662-704 | Where nothing is cut, a relative link leads to the normal form, against the directory it lies in, of its text and the rest, and an absolute one to that of its text and the rest against the root. |
| `VfsResolve.LinkLeads` | src/fs/vfs.c:662-704 | For every length, a link leads to the normal form of the first 1023 characters of that whole, its text cut to 511; it never fails to fit. |
| `VfsResolve.LinkInDirectory` | src/fs/vfs.c:662-704 | The link /a/l with text b leads to /a/b, and with text /b to /b. |
| `VfsResolve.LinkMeaning` | src/fs/vfs.c:654-704 | What a path through a link means in every case: the link itself at the end if it is not to be followed there, nothing after nine links or when unreadable, the walk on from it when it has no reader, else the path it leads to, one level deeper. |
| `VfsResolve.ResolveThroughLink` | src/fs/vfs.c:654-704 | In an unchanging tree, resolving a path whose walk meets a link gives what the normal form of directory, text and rest means one level deeper, with one reference on the result. |
| `VfsResolve.SelfLinkFails` | src/fs/vfs.c:656-661 | A link to itself leads nowhere, at any depth. |
| `VfsResolve.Vfs.SkipSlashes` | src/fs/vfs.c:671-672 | The rest of the path without its leading slashes. |
| `VfsResolve.Vfs.Cross` | src/fs/vfs.c:654-705 | Whether a found child is followed, kept or refused, with references balanced in each case. |
| `VfsResolve.Vfs.Resolve` | src/fs/vfs.c:567-726 | Terminates for every behaviour of `finddir` and `readlink`, follows at most nine links, and leaves one new reference on the result and no other; in an unchanging tree the answer is the meaning of the path. |
| `VfsResolve.PlainMeaning` | src/fs/vfs.c:607-725 | In a tree without links that meaning is the plain walk of the components from the best mount. |
| `VfsResolve.NormalPathWalk` | src/fs/vfs.c:567-726 | In a tree without links, a normal path leads where its components after the mount point lead. |
| `VfsResolve.DeeperAgrees` | src/fs/vfs.c:654-703 | The limit on links only loses answers: one found with fewer links left is the one found with more. |

## Left out

- Fat32Volume.Volume.constructor: the geometry is given; parsing the boot sector and computing the cluster count are not modelled.
- Fat32Volume.Volume.ReadCluster: clusters of the volume only, as every caller passes; the code computes an address for any number.
- Fat32Volume.Volume.WriteCluster: clusters of the volume only, as every caller passes.
- Fat32Long.GenerateEntries: ASCII names; the driver stores other bytes as they are and reads them back as `?`.
- Fat32Names.GenerateLong: the units only; the other bytes of the slots are in `Fat32Long.GenerateEntries`.
- Fat32DirOps.CreateShort: only names that need no long form; inserting several slots at once, basis names and directories (src/fs/fat32.c:831-862, 1272-1608) are not modelled.
- Fat32Named.WriteNamed: regular files, opened for one write.
- Fat32ReadBack.WriteAndReadBack: an entry whose slot is the first in use with its 11 bytes; what a write does otherwise is `Fat32Named.WriteOwnedIff`.
- Fat32Named.RunInOrder: creations in the sense of `Fat32DirOps.PlaceEntry`, one slot each; subdirectories' own entries `.` and `..` share chains and are left out.
- Fat32DirOps.CreateThenFind: 8.3 names without NUL bytes, which C strings cannot hold.
- Descriptors.FdTables.FdPipe: only when both slots and descriptors are free, which is `Descriptors.PipeSucceedsIff`; its failure paths are not modelled.
- Descriptors.OpenPipeKeeps: only pipe calls that succeed.
- Descriptors.RunKeeps: the kernel process itself makes no system calls and is never destroyed; pipe calls succeed.
- Descriptors.CountsInEveryRun: the same runs.
- Descriptors.PipeEndsInEveryRun: the same runs.
- PipeRing.Pipe.ReadInRun: the same runs.
- PipeRing.Pipe.Close: the flags and the buffer; the wake-ups are in `PipeWaits.CloseEnd`.
- ProcManager.Processes.Destroy: not for slot 0 or the current process, which no caller passes, nor for a process with children; it excludes closing the descriptors (src/process.c:374) and the pipe waiters in other slots that this can wake, which are `Descriptors.TeardownKeeps` and `PipeWaits.CloseEnd`.
- ProcManager.Processes.ClearSlot: only for a process without children.
- ProcManager.Processes.MakeRunnable: only for live processes that are not zombies, as its callers in this model pass.
- ProcSleep.RunTimer: a process other than the kernel; what else may run between interrupts is the scheduler, not wake-ups, signals or exits.
- ProcSleep.SleepFor: the same runs.
- ProcManager.RemoveKeepsAll: only for a process without children; `ProcTree.DestroyNeedsChildless` says what happens otherwise.
- ProcManager.Processes.JoinQueue: needs a process that is on no queue.
- ProcManager.Processes.WaitOn: needs a process that is on no queue; what happens otherwise is `WaitQueues.EnqueueNeedsUnqueued`.
- Fat16Write.Write: not when the volume fills up while spare entries of the FAT look free, where the search leaves the volume (`Fat16Volume.SearchIsExact`); the update of the directory entry is not modelled.
- Fat16Write.WriteThenRead: under the same condition, for a file that has a cluster.
- Fat16Write.WriteToEmpty: under the same condition.
- Fat16Read.File16.Locate: the fallback read of one sector (src/fs/fat16.c:726-753), which only a wrong remembered cluster leads to, is not modelled.
- Fat16Read.File16.constructor: files whose chain covers their size.
- Fat16Read.File16.Read: without read-ahead, which is compiled out by default, and for files whose chain covers their size.
- VfsResolve.Vfs.Close: the count of references only; the close callback and freeing the node at zero are not modelled.
- VfsResolve.Vfs.Resolve: node open and close callbacks, permission checks, which are off by default, and metadata overrides; a successful `finddir` yields a node that carries a reference of its own, as reference balance needs.
- Starvation: saturated aging is broken by pid, so no such promise is made.
- Return values of 2^31 and more, which C turns negative.
- Offsets, flags and append mode of open files; reads and writes of a pipe that do not block; signals that wake a process out of a pipe's queue; preemption inside an operation other than a system call on a pipe, and inside the copy loops of the ring.
- Long names over 255 characters, for which the iterator's buffer is too small, and characters outside ASCII.
- Failing device reads and writes, mounting, FSInfo write-back, timestamps.
- Context switching, page directories, kernel memory, interrupts.
- Device drivers, procfs, devfs, tmpfs, initramfs, the system call layer, user programs.
