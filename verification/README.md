# Hackers-OS kernel: verified model

A Dafny model of the state-changing core of an AArch64 hobby kernel: physical pages, translation tables, the ELF
loader, the kernel heap, the FAT32 driver, TCP, the Internet checksum, the receive virtqueue, DNS messages, the process
table and the round-robin scheduler.

Most components come as a pair. A module of values (`PageTable`, `Heap`, `Fat32`, `Tcp`, `VirtioNet`, `Scheduler`,
`Processes`) defines what each operation does and proves what every run of operations keeps. A class beside it
(`Mmu.PageTables`, `Heap.KernelHeap`, `FatVolume.Driver`, `TcpSocket.TcpConnection`, `VirtioRx.RxQueue`,
`ProcessTables.ProcessTable`) performs the operations on bytes, rings, bitmaps and linked headers, and each method is
proved to do what the value says.

| file | models |
|---|---|
| `Machine.dfy` | fixed-width integers, bit operations, little-endian words |
| `Pages.dfy` | bitmap page allocator |
| `PageTable.dfy`, `Mmu.dfy` | three-level translation tables, as values and in RAM |
| `TableCost.dfy` | how many pages a series of mappings takes |
| `Elf.dfy` | segment loading |
| `Exec.dfy` | load_and_exec as a whole: image, stacks and process |
| `Heap.dfy` | first-fit heap with splitting and merging |
| `Fat32.dfy`, `FatVolume.dfy` | cluster chains, as values and on disk sectors |
| `FatName.dfy`, `FatDir.dfy`, `FatPath.dfy` | 8.3 names, directories, paths |
| `Checksum.dfy` | the checksum of RFC 1071 |
| `Tcp.dfy`, `TcpConnection.dfy`, `TcpWire.dfy` | one connection as a state machine, in place, and on the wire |
| `TcpLife.dfy` | connections from opening to closing, and what a retransmission repeats |
| `VirtioNet.dfy`, `VirtioRx.dfy` | receive queue protocol, and receive beside a running device |
| `Scheduler.dfy`, `Process.dfy`, `ProcessTable.dfy` | round robin, kernel stacks, the process table |
| `Dns.dfy` | names and replies of RFC 1035 |

Inputs that come from outside are parameters: the segments that arrive and whether the link takes one, clock ticks, the
device's steps, the addresses of allocated pages for the receive queue, the sectors of the disk.

Seven places where the code does less than its interface suggests are stated exactly, each with an input that shows it.

- A heap request above 2^64-8 wraps and is served by a smaller block: `Heap.MallocServesIff`, `Heap.HugeRequestIsGranted`.
- The ELF loader ignores a mapping that found no page for a table, so it may report success for an image the program
  cannot see. `Elf.LoadSegments` and `Elf.LoadImage` say for which number of free pages it reports success and for which
  number the image is complete; `Elf.MissedPage` is a load where they differ. No process comes of such a load, but one may
  come without its stack: `Exec.LoadAndExec`, `Exec.StacklessProcess`.
- A DNS label longer than its length byte can say passes the test of the room left: `Dns.EncodeFitsIff`,
  `Dns.LongLabelOverruns`.
- Destroying pid 0 can find an unused slot and free its old stack a second time: `Processes.DestroyKeepsIff`, and
  `Processes.DestroyZeroCanHit` for a run from boot that gets there.
- A process that was destroyed while it runs still ends, and its slot takes back a stack that is no longer its own:
  `Processes.ExitKeepsIff`, and `ProcessTables.DestroyedCanEnd` for a run from boot that gets there.
- TCP takes a FIN whatever its sequence number, so a stream may end early without notice: `Tcp.StreamCompleteIff`,
  `Tcp.EarlyFinTruncates`.
- TCP saves a sent chunk under a sequence number one chunk too low. A chunk sent when everything before it is
  acknowledged is never sent again, and what is sent again goes out under other numbers: `TcpLife.ResendIs`,
  `TcpLife.ChunkIsForgotten`, `TcpLife.ResendIsMisplaced`.

## Model

| member | source | states |
|---|---|---|
| `Pages.PageAllocator.constructor` | src/mm/pages.cpp:31-48 | after init exactly the pages below the kernel's end are in use, and free_pages is their complement's size |
| `Pages.BitmapUpdate` | src/mm/pages.cpp:17-27 | changing one bit of one byte changes the state of one page and of no other |
| `Pages.PageAllocator.BitmapSet` | src/mm/pages.cpp:17-19 | the byte operation sets the bit of this page only |
| `Pages.PageAllocator.BitmapClear` | src/mm/pages.cpp:21-23 | the byte operation clears the bit of this page only |
| `Pages.PageAllocator.BitmapTest` | src/mm/pages.cpp:25-27 | the masked byte is non-zero exactly when the page is in use |
| `Pages.PageAllocator.AllocPage` | src/mm/pages.cpp:50-62 | takes the lowest free page, zeroes exactly that page, and fails exactly when no page is free; free_pages stays the number of clear bits |
| `Pages.PageAllocator.FreePage` | src/mm/pages.cpp:64-71 | clears one page if the address lies in this memory and changes nothing otherwise; freeing twice does not count twice |
| `Pages.PageAllocator.AllocPages` | src/mm/pages.cpp:73-95 | takes the lowest run of `count` free pages, zeroes exactly that run, and fails exactly when there is no such run or count is 0 |
| `Pages.CountFreeUpdate` | src/mm/pages.cpp:50-71 | changing one page changes the free count by exactly that page |
| `Pages.CountFreeZero` | src/mm/pages.cpp:50-62 | the free count is 0 exactly when every page is in use |
| `PageTable.MapPageRefines` | src/mm/mmu.cpp:32-44 | mapping refines the update of a finite map: one virtual page of one table gets the new descriptor, every other translation of every table stays, the tables keep their tree shape, and if the missing tables cannot be allocated no translation changes; also how many pages it takes |
| `PageTable.MapPrepares` | src/mm/mmu.cpp:23-44 | the tables missing on the path are allocated zeroed and linked without changing any translation, at either level |
| `PageTable.GraftKeepsInv` | src/mm/mmu.cpp:23-30 | linking a fresh zeroed table into an empty slot keeps the tree |
| `PageTable.GraftKeepsWalks` | src/mm/mmu.cpp:23-30 | linking a fresh zeroed table changes no translation |
| `PageTable.StoreWalks` | src/mm/mmu.cpp:43 | writing a leaf changes exactly the translation whose three indices lead to it |
| `PageTable.FindPath` | src/mm/mmu.cpp:23-44 | every table walk follows one of five kinds of path |
| `PageTable.WalkAlong` | src/mm/mmu.cpp:32-44 | the hardware walk gives what the path says |
| `PageTable.CreateTableRefines` | src/mm/mmu.cpp:133-146 | a new user table translates like the kernel's, all other tables as before, and fails exactly when no page is free |
| `PageTable.InitEstablishesInv` | src/mm/mmu.cpp:48-76 | the tables built at boot satisfy the invariant, or no page was free |
| `PageTable.RamIsIdentityMapped` | src/mm/mmu.cpp:56-76 | in every reachable state every table maps every RAM address to itself through a 2MB block, with access flag, normal memory, inner shareable, kernel only and never executable by a user |
| `PageTable.DevicesAreIdentityMapped` | src/mm/mmu.cpp:51-54 | every table maps the first gigabyte to itself as device memory that nobody executes |
| `PageTable.RunRefinesMap` | src/mm/mmu.cpp:133-151 | over any run of table creations and mappings, with the rest of the kernel taking, writing and freeing other pages in between, each translation is the last one mapped, or the original one |
| `PageTable.RunIsolates` | src/mm/mmu.cpp:133-151 | over any such run, the kernel table and every user table not named in a mapping keep all their translations |
| `TableCost.MapShowsIff` | src/mm/mmu.cpp:23-44 | a mapping that would change a translation does so exactly if the tables it lacks are at most the free pages |
| `TableCost.MapMissing` | src/mm/mmu.cpp:23-44 | after a mapping an address lacks no table if it shares the 2MB stretch, at most the lower one if it shares the gigabyte, and what it lacked before otherwise |
| `TableCost.FailedMissing` | src/mm/mmu.cpp:23-44 | a mapping that fails leaves no page free and a table lacking |
| `TableCost.FreshTables` | src/mm/mmu.cpp:23-44 | mapping any list of addresses into a fresh table takes one table for each distinct gigabyte and one for each distinct 2MB stretch |
| `Mmu.IndexFields` | src/mm/mmu.cpp:33-35 | the shifted and masked address bits are the three table indices |
| `Mmu.ViewWritten` | src/mm/mmu.cpp:23-44 | eight bytes stored in RAM change one descriptor and no other |
| `Mmu.PageTables.GetOrCreateTable` | src/mm/mmu.cpp:23-30 | the byte-level code performs the table operation on descriptors, with its failure |
| `Mmu.PageTables.MapPageInTable` | src/mm/mmu.cpp:32-44 | the byte-level code performs the mapping on descriptors |
| `Mmu.PageTables.MapUserPage` | src/mm/mmu.cpp:148-151 | as MapPageRefines, on RAM and bitmap |
| `Mmu.UserAttributes` | src/mm/mmu.h:25 | the descriptor of a user page lets a user read, write and execute normal memory |
| `Mmu.PageTables.CreateUserPageTable` | src/mm/mmu.cpp:133-146 | the copy loop yields the new table of CreateTableRefines |
| `Mmu.PageTables.Init` | src/mm/mmu.cpp:48-76 | boot-time construction reaches the initial tables and their invariant; without a free page only the device block is entered and nothing else changes |
| `Elf.LoadSegments` | src/elf/elf.cpp:66-104 | success is reported exactly if the free pages before the load cover the image pages and the tables lacking for all but the last; if they also cover the last one, every byte of every PT_LOAD segment reads through the table as the file's byte, or as zero beyond filesz; with no image page mapped before, the image is visible exactly then; every other translation of every table and every page in use stay |
| `Elf.LoadImage` | src/elf/elf.cpp:58-104 | on a fresh table: success exactly if 1 + EnoughToReport pages were free, and the image visible exactly if 1 + EnoughToSee were, both read off the file: its pages, the distinct gigabytes and the distinct 2MB stretches they touch; also the pages left and the tables any other address then lacks |
| `Elf.FreshNeed` | src/elf/elf.cpp:58-104 | on a fresh table the pages a load takes are those two numbers |
| `Elf.FaultHidesImage` | src/elf/elf.cpp:66-104 | one page without a translation makes the image invisible |
| `Elf.ZeroPageNeeds` | src/elf/elf.cpp:82-88 | an image of one page needs one page to be reported and three to be seen |
| `Elf.MissedPage` | src/elf/elf.cpp:82-88 | from boot on a machine with five pages: success is reported and the image is not visible |
| `Exec.LoadAndExec` | src/elf/elf.cpp:58-119 | a process comes out exactly if there is a slot and both stacks fit in the pages the image leaves, whose number is given; it is ready, its page table is the loaded one and unlike any before, its entry point is bytes 24 to 31 of the file, its user stack is USER_STACK_BASE and its empty context sits on top of the lowest free run; its image is then complete even where the loader alone would have missed a page, its stack is mapped exactly if EnoughToRun pages were free and faults otherwise, and every table that existed before translates as before |
| `Exec.LaunchAndDispatch` | src/process/scheduler.cpp:19-62 | when the scheduler dispatches the loaded process from another one, the table it switches to is the one through which the image is visible |
| `Exec.DispatchLoads` | src/process/scheduler.cpp:50-61 | a dispatched process is running and its table is switched to unless it has none or the same one |
| `Exec.StackKeepsImage` | src/elf/elf.cpp:106-107 | allocating and mapping the stacks leaves the loaded image visible |
| `Exec.StacklessProcess` | src/process/process.cpp:79-123 | from boot on a machine with eleven pages: create_user returns a process, and every page of its stack faults |
| `Elf.LoadSegment` | src/elf/elf.cpp:75-103 | the pages of one segment join those already loaded; with the pages accounted for exactly, and a failure only once no page is free |
| `Elf.LoadPage` | src/elf/elf.cpp:81-103 | one page is allocated, mapped and filled exactly if a page and the tables it lacks are free, otherwise its translation stays; earlier pages stay loaded; fails exactly when no page is free |
| `Elf.TakePage` | src/elf/elf.cpp:82-88 | allocation followed by mapping changes this translation exactly if enough pages are free, takes exactly those, and leaves all other translations and data pages alone |
| `Elf.TakeOutcome` | src/elf/elf.cpp:82-88 | the page is seen afterwards exactly if the tables it lacks are fewer than the free pages, and the tables other addresses lack afterwards follow |
| `Elf.FillPage` | src/elf/elf.cpp:91-102 | the copied bytes and the zeroes left by the allocator are the segment's bytes of this page |
| `Elf.LoadedIsVisible` | src/elf/elf.cpp:66-104 | pages loaded with the right bytes are read back byte for byte through the hardware walk |
| `Elf.ImageIsSeen` | src/elf/elf.cpp:66-104 | a visible image in terms of the bytes of the file, at the offsets the ELF64 format gives to e_phoff, e_phentsize, e_phnum and the fields of a program header |
| `Elf.ReadIsWalk` | src/mm/mmu.cpp:32-44 | a byte is read at a virtual address exactly if three little-endian descriptors in RAM, selected by bits 38-30, 29-21 and 20-12, lead one to the next and to the page that holds it |
| `PageTable.DataKeepsTables` | src/elf/elf.cpp:98-101 | taking, writing and freeing pages that carry no table changes no table and no translation |
| `Heap.RoundedBounds` | src/mm/heap.cpp:45-47 | rounding gives a multiple of 8, at least 16, and covers the request exactly when it is at most 2^64-8; larger requests wrap to 16 |
| `Heap.RoundedIsLeast` | src/mm/heap.cpp:45-47 | up to 2^64-8 it is the least multiple of 8 that is at least the request and 16 |
| `Heap.MallocFailsIff` | src/mm/heap.cpp:42-78 | null exactly for size 0 or when no free block holds the rounded size; then nothing changes |
| `Heap.MallocFailsOnlyWhenFull` | src/mm/heap.cpp:42-78 | for a request up to 2^64-8: null exactly if every free block is smaller than the request |
| `Heap.MallocIsFirstFit` | src/mm/heap.cpp:50-75 | the pointer is behind the header of the first free block that is large enough; less than 48 bytes are given beyond the rounded size, the rest is a free block right behind, and the other blocks stay |
| `Heap.MallocServesIff` | src/mm/heap.cpp:42-78 | the block handed out is at least as large as the request if and only if the request is at most 2^64-8 |
| `Heap.HugeRequestIsGranted` | src/mm/heap.cpp:42-78 | a request of 2^64-1 bytes gets a block of 16 |
| `Heap.TakeLive` | src/mm/heap.cpp:53-72 | an allocation adds one live block and keeps the others |
| `Heap.ReleaseLive` | src/mm/heap.cpp:80-105 | a release removes one live block and keeps the others |
| `Heap.FreeUndoesMalloc` | src/mm/heap.cpp:42-105 | kfree of what kmalloc returned restores the exact block list |
| `Heap.LivePayloads` | src/mm/heap.cpp:42-105 | live payloads lie in the region, are 8-aligned and disjoint from every other block |
| `Heap.Accounting` | src/mm/heap.cpp:107-125 | used bytes, free bytes and headers add up to the heap size |
| `Heap.NothingLive` | src/mm/heap.cpp:80-105 | with nothing live the heap is the single initial block |
| `Heap.RunKeepsInvariant` | src/mm/heap.cpp:24-105 | over any run of kmalloc and kfree of live pointers: the blocks tile the region, no two neighbours are free, and every live pointer still has room for its request of up to 2^64-8 bytes |
| `Heap.RunReturnsToInitial` | src/mm/heap.cpp:24-105 | after any run from boot, everything is freed exactly when the heap is the single initial block |
| `Heap.SplitLinked` | src/mm/heap.cpp:55-66 | the pointer updates of a split keep next and prev consistent with the split list |
| `Heap.MergeLinked` | src/mm/heap.cpp:90-102 | the pointer updates of a merge keep next and prev consistent with the merged list |
| `Heap.KernelHeap.constructor` | src/mm/heap.cpp:32-36 | one free block over the whole region |
| `Heap.KernelHeap.Kmalloc` | src/mm/heap.cpp:42-78 | the linked list and the result are those of first fit with splitting |
| `Heap.KernelHeap.Kfree` | src/mm/heap.cpp:80-105 | the linked list is that of release with both merges |
| `Heap.KernelHeap.GetTotal` | src/mm/heap.cpp:107-125 | the walk over the list adds up the used or the free sizes |
| `Fat32.SetEntryValues` | src/fs/fat32.cpp:308-321 | one entry changes, the copies stay identical |
| `FatVolume.ReplacedBits` | src/fs/fat32.cpp:317 | the masked update keeps the top four bits and stores the low 28 |
| `Fat32.FreeIsOutside` | src/fs/fat32.cpp:324-346 | a free cluster is in no chain |
| `Fat32.ExtendChain` | src/fs/fat32.cpp:382-388 | linking a free cluster behind a chain keeps all chains acyclic and disjoint |
| `Fat32.AppendKeeps` | src/fs/fat32.cpp:380-388 | extending the file keeps every other chain, entry and data cluster, takes only a cluster that was free, and fails exactly when none is |
| `Fat32.DeleteFreesChain` | src/fs/fat32.cpp:466-472 | exactly the file's chain is freed, the free count rises by its length, the other chains and all data stay |
| `Fat32.FreeChainExact` | src/fs/fat32.cpp:466-472 | on any table with in-range links, cyclic ones included, the loop ends and zeroes exactly the entries that links lead to from its start |
| `Fat32.FreeChainKeeps` | src/fs/fat32.cpp:466-472 | freeing never touches data, reserved bits or the agreement of the copies |
| `FatVolume.ViewEntry` | src/fs/fat32.cpp:308-321 | one FAT sector written changes one entry of one copy |
| `FatVolume.ViewData` | src/fs/fat32.cpp:390-398 | one data sector written changes one sector of one cluster |
| `FatVolume.OnDisk` | src/fs/fat32.cpp:73-86 | where the entries and clusters of a volume lie on the disk: byte 4c of each table copy, and sector dataStart + (c - 2) * spc + j |
| `FatVolume.FileOnDisk` | src/fs/fat32.cpp:267-288 | which sector of the disk holds the t-th 512 bytes of a file |
| `FatVolume.Driver.NextCluster` | src/fs/fat32.cpp:77-86 | reads the low 28 bits of the entry |
| `FatVolume.Driver.SetFatEntry` | src/fs/fat32.cpp:308-321 | updates the entry in every copy |
| `FatVolume.Driver.AllocCluster` | src/fs/fat32.cpp:324-346 | takes the lowest free cluster, ends its chain and zeroes its sectors, or returns 0 if none is free |
| `Fat32.AllocMeans` | src/fs/fat32.cpp:324-346 | 0 exactly if no entry is 0; otherwise the lowest such cluster, marked 0x0FFFFFF8, all its bytes 0, and no other entry or cluster changed |
| `FatVolume.Driver.WriteFile` | src/fs/fat32.cpp:373-408 | successful or not, the chains stay well formed and everything else untouched; it succeeds exactly when chain and free clusters can hold the data, which the chain then holds; it takes no more clusters than needed |
| `FatVolume.Driver.ReadFile` | src/fs/fat32.cpp:267-288 | copies the chain's bytes up to the smaller of size and buffer, and nothing beyond |
| `FatVolume.Driver.DeleteFile` | src/fs/fat32.cpp:466-476 | the loop on disk is the freeing of the chain |
| `FatName.NameRoundTrip` | src/fs/fat32.cpp:349-364 | a lower-case 8.3 name survives the way through its 11-byte form |
| `FatName.FormRoundTrip` | src/fs/fat32.cpp:93-109 | a canonical 11-byte form survives the way through its string |
| `FatName.FatNameToString` | src/fs/fat32.cpp:93-109 | the loops compute the name |
| `FatName.StringToFatName` | src/fs/fat32.cpp:349-364 | the loops compute the form |
| `FatName.StoredBytes` | src/fs/fat32.cpp:349-364 | the eleven bytes of a name: base and extension in capital letters, each padded with blanks |
| `FatDir.FindAgreesWithListing` | src/fs/fat32.cpp:119-145 | lookup returns exactly the first entry a listing shows under the name, or nothing if it shows none |
| `FatDir.ListedIsFound` | src/fs/fat32.cpp:119-258 | however short a listing is cut, looking up a name it shows finds the first of its own rows with that name |
| `FatDir.VisibleDependsOnData` | src/fs/fat32.cpp:119-145 | what a directory shows depends on its own clusters only |
| `FatDir.FindInDir` | src/fs/fat32.cpp:119-145 | the three nested loops return the first entry that counts and whose name is the one asked for, or nothing if there is none; said on the raw bytes of the directory as ShownAt and Finds: no entry so far starts with 0, its own first byte is not 0xE5 and its volume bit is clear |
| `FatDir.ListDir` | src/fs/fat32.cpp:229-258 | the rows are, in order, those of exactly the entries that count, up to the limit; each gives the name, bit 4 of the attribute, the first cluster from bytes 20, 21, 26 and 27 and the size from bytes 28 to 31 |
| `FatDir.VisibleIsShown` | src/fs/fat32.cpp:131-134 | the entries both loops go by are exactly the raw entries that count, in order |
| `FatDir.EntryIsRaw` | src/fs/fat32.cpp:126-131 | entry n is the 32 bytes at offset 32n of the directory, across sectors and clusters |
| `FatDir.InfoIsRow` | src/fs/fat32.cpp:246-251 | the fields of a row, byte by byte |
| `FatDir.LookupFinds` | src/fs/fat32.cpp:119-145 | the lookup meets that description on every directory |
| `FatDir.CanonicalIsFound` | src/fs/fat32.cpp:93-145 | the first entry stored under a lower-case 8.3 name is what looking up that name returns, file or directory |
| `FatDir.StoredUnderName` | src/fs/fat32.cpp:93-145 | a canonical entry shows a name exactly if it is stored under it |
| `FatPath.ResolvePath` | src/fs/fat32.cpp:148-182 | walks the components through the directories, with every failure |
| `FatPath.ResolveIff` | src/fs/fat32.cpp:148-182 | a path resolves to an entry exactly if there are entries leading there: each the one found under its component, each but the last with the directory bit, the next directory starting at its first cluster |
| `FatPath.ComponentsOfParts` | src/fs/fat32.cpp:162-170 | a path of parts between slashes, with or without one behind, has those parts, cut to 127 bytes, as its components |
| `FatPath.LeadingSlash` | src/fs/fat32.cpp:151-152 | one leading slash makes no difference |
| `FatPath.ResolveStable` | src/fs/fat32.cpp:148-182 | growing one file changes no lookup that does not go through it |
| `FatPath.OpenFile` | src/fs/fat32.cpp:263-265 | a path opens exactly if it resolves to something that is not a directory |
| `FatPath.WritePath` | src/fs/fat32.cpp:366-408 | write_file by path: untouched volume if the path does not open, otherwise as WriteFile, with the clusters taken bounded |
| `FatPath.ReadPath` | src/fs/fat32.cpp:260-288 | read_file by path: untouched buffer if the path does not open, otherwise as ReadFile |
| `FatPath.DeletePath` | src/fs/fat32.cpp:456-477 | delete_file by path: untouched volume if the path does not open, otherwise the chain is freed, reserved bits and the agreement of the copies kept |
| `FatPath.PathOkAfterWrite` | src/fs/fat32.cpp:366-408 | after the write the path still opens the same file, now with the longer chain |
| `FatPath.WriteThenRead` | src/fs/fat32.cpp:260-408 | what was written is read back, also when the chain was extended in between; it fails exactly when the path does not open or the disk is too full |
| `Checksum.SumFits` | src/net/net.cpp:24-38 | up to 131074 bytes the 32-bit sum cannot overflow |
| `Checksum.SumLimitIsTight` | src/net/net.cpp:24-38 | one word more can overflow it |
| `Checksum.FoldIsResidue` | src/net/net.cpp:34-36 | folding the carries ends at the representative modulo 65535, and at 0 only for an empty sum |
| `Checksum.FoldsAreSwapped` | src/net/net.cpp:24-38 | little-endian and network-order sums fold to byte-swapped values, odd lengths included |
| `Checksum.WireBytesAgree` | src/net/net.cpp:24-38 | the two bytes stored are those RFC 1071 defines |
| `Checksum.SumIsWeighted` | src/net/net.cpp:24-38 | the sum of RFC 1071 adds each byte 256 times at even and once at odd positions |
| `Checksum.FilledFieldVerifies` | src/net/net.cpp:24-38 | storing the result in its zeroed field makes the check give 0 |
| `Checksum.InetChecksum` | src/net/net.cpp:24-38 | the loops compute the checksum, with 32-bit wrap-around outside the safe length |
| `Checksum.TcpChecksum` | src/net/tcp.cpp:11-35 | tcp_checksum is inet_checksum of the pseudo-header followed by the segment |
| `Tcp.StepKeeps` | src/net/tcp.cpp:112-245 | no arriving segment, read, write, close or retransmission check breaks the connection's invariant, in any state |
| `Tcp.ArrivesKeeps` | src/net/tcp.cpp:174-245 | every branch of the state machine keeps received bytes a prefix of the peer's stream |
| `Tcp.PieceContinues` | src/net/tcp.cpp:199 | a segment accepted by its 32-bit sequence number starts exactly where the stream was left, across wrap-around |
| `Tcp.ActiveConnectionIsSafe` | src/net/tcp.cpp:289-301 | from connect on, whatever is lost, duplicated or reordered: bytes returned by recv followed by the ring are a prefix of the peer's stream; rcv_nxt, every acknowledgement and every window sent are exact while established; snd_nxt counts SYN, FIN and new bytes from 1000; every frame fits |
| `Tcp.PassiveConnectionIsSafe` | src/net/tcp.cpp:145-165 | the same from an incoming SYN on; that the connection gets on is PassiveLife |
| `Tcp.TakenIff` | src/net/tcp.cpp:191-212 | while established, a data segment that carries the peer's stream from position k extends what was received exactly if k is where it ended, and then by as much of the stream as the ring has room for |
| `Tcp.FinMeansAllIff` | src/net/tcp.cpp:191-195 | when the peer's FIN arrives, everything was received if and only if the number of the FIN itself, behind the bytes it carries, is rcv_nxt |
| `Tcp.StreamCompleteIff` | src/net/tcp.cpp:174-245 | whatever happens after the FIN, what was received is the whole stream if and only if that held |
| `Tcp.EarlyFinTruncates` | src/net/tcp.cpp:191-195 | a FIN that overtakes the only byte leads to CLOSE_WAIT with nothing received |
| `Tcp.InOrderIsDelivered` | src/net/tcp.cpp:191-212 | a stream arriving in order in pieces the ring can hold is delivered completely, whether or not the acknowledgements get through |
| `Tcp.RunAdvances` | src/net/tcp.cpp:174-281 | over any run the connection's state only moves on; a state once left never comes back |
| `TcpLife.PassiveLife` | src/net/tcp.cpp:145-281 | a peer connects, sends its stream in pieces and closes, then this side closes: the states are SYN_RECEIVED, ESTABLISHED, CLOSE_WAIT, LAST_ACK and CLOSED with the slot free, everything is delivered, and the segments sent are exactly the SYN-ACK, one acknowledgement of all bytes so far per non-empty piece, that of the FIN, and the FIN |
| `TcpLife.ActiveLife` | src/net/tcp.cpp:174-301 | the mirror: connect, SYN_SENT, ESTABLISHED, FIN_WAIT_1, FIN_WAIT_2 and TIME_WAIT, or straight to TIME_WAIT if the peer closes with its acknowledgement, with every segment sent |
| `TcpLife.ArrivalMoves` | src/net/tcp.cpp:174-245 | which segment moves which state, which are answered and which are ignored |
| `TcpLife.AckTaken` | src/net/tcp.cpp:174-245 | which arriving acknowledgements become snd_una, and that a closed slot ignores everything |
| `TcpLife.CloseElsewhere` | src/net/tcp.cpp:277-280 | closing in any other state frees the slot and sends nothing |
| `TcpLife.WriteSaves` | src/net/tcp.cpp:62-71 | an accepted chunk is saved with its deadline, under a number one chunk below the one it was sent with |
| `TcpLife.ResendIs` | src/net/tcp.cpp:78-110 | one check exactly: the chunk is dropped if and only if snd_una has reached its first byte, otherwise nothing happens before the deadline, the connection is closed once the count is 5, or the rest of the chunk sent at snd_una with the count and deadline that follow |
| `TcpLife.ChunkIsForgotten` | src/net/tcp.cpp:84-88 | a chunk sent when all before it is acknowledged is dropped by the next check, whether or not it arrived |
| `TcpLife.ResendIsMisplaced` | src/net/tcp.cpp:96-103 | no byte is ever sent again under the sequence number it had |
| `Tcp.AckedInside` | src/net/tcp.cpp:84-98 | what is retransmitted lies inside the saved bytes although the comparisons wrap |
| `Tcp.ChecksKeeps` | src/net/tcp.cpp:78-110 | a retransmission leaves snd_nxt where it was, acknowledges what was received and may close the connection |
| `Tcp.ChunkExtendsOrder` | src/net/tcp.cpp:358-365 | an accepted chunk carries the next bytes at the next sequence numbers |
| `Tcp.QuietKeepsOrder` | src/net/tcp.cpp:367-371 | segments arriving and retransmissions in between send nothing new and keep the place |
| `TcpSocket.RingPush` | src/net/tcp.cpp:203-206 | a byte written at the head is appended to the ring's contents |
| `TcpSocket.RingPop` | src/net/tcp.cpp:393-396 | the byte at the tail is the oldest of the ring's contents |
| `TcpSocket.TcpConnection.SendTcpSegment` | src/net/tcp.cpp:37-75 | the bytes that go out are laid out as section 3.1 of RFC 9293 says, with the old snd_nxt, rcv_nxt, the flags, the free space of the ring and the data; their checksum verifies; saves payload and tick, advances snd_nxt; nothing changes if the link refuses |
| `TcpSocket.TcpConnection.TcpInput` | src/net/tcp.cpp:174-245 | the block changes as the state machine says, whose moves PassiveLife, ActiveLife and ArrivalMoves state |
| `TcpSocket.TcpConnection.EstablishedInput` | src/net/tcp.cpp:191-212 | in-order bytes go into the ring as far as they fit, then the acknowledgement |
| `TcpSocket.TcpConnection.CheckRetransmits` | src/net/tcp.cpp:78-110 | the block changes as the retransmission step says |
| `TcpSocket.TcpConnection.Shutdown` | src/net/tcp.cpp:266-281 | FIN and state change of close() |
| `TcpSocket.TcpConnection.StartConnect` | src/net/tcp.cpp:296-301 | the start state of an active connection |
| `TcpSocket.TcpConnection.StartPassive` | src/net/tcp.cpp:149-165 | the start state of a passive connection, whatever the slot held |
| `TcpSocket.TcpConnection.Send` | src/net/tcp.cpp:348-374 | the new segments of one call carry data[0..sent] at consecutive sequence numbers from snd_nxt, each at most 1460 bytes, through any arrivals and retransmissions in between, and all of data if the link takes every chunk; the call is a run of the state machine |
| `TcpSocket.TcpConnection.Recv` | src/net/tcp.cpp:376-399 | the bytes returned extend what was delivered before; the call is a run of the state machine ending in a read |
| `TcpWire.ParseUndoesBuild` | src/net/tcp.cpp:41-53 | the fields tcp_input reads are those that were sent |
| `TcpWire.BuildSegment` | src/net/tcp.cpp:37-56 | each field stands at its place in network order, data offset 5, bits 0, 1, 3 and 4 of byte 13 are FIN, SYN, PSH and ACK and the others clear, urgent pointer 0, then the payload; the words of pseudo-header and segment add up to 0xFFFF as RFC 1071 asks; the bytes parse back |
| `TcpWire.BuiltIsLaid` | src/net/tcp.cpp:41-53 | the layout of the header, byte by byte |
| `TcpWire.ParseReads` | src/net/tcp.cpp:115-123 | what is read from a segment and where, for any header length |
| `TcpWire.PeerAgrees` | src/net/tcp.cpp:37-56 | a peer that sums the bytes by RFC 1071 accepts the segment |
| `VirtioNet.StepKeeps` | src/net/virtio_net.cpp:201-234 | no step of driver or device breaks: every buffer is in exactly one place, live ring slots hold what was put there, unread completions are intact |
| `VirtioNet.RunKeeps` | src/net/virtio_net.cpp:201-234 | the same over every interleaving |
| `VirtioNet.IdleConservation` | src/net/virtio_net.cpp:201-234 | between calls each buffer is with the device, or completed and unread, or was dropped by a short completion; avail.idx - rx_last_used is the pool size less the dropped ones, modulo 2^16; what was dropped is exactly the short completions |
| `VirtioNet.CopyIsSafe` | src/net/virtio_net.cpp:213-217 | while receive copies, the device neither holds nor can take the buffer, and the bytes are those it completed |
| `VirtioNet.PickReads` | src/net/virtio_net.cpp:207-209 | what the driver reads from the used ring is the oldest completion not seen yet |
| `VirtioNet.PickEnabled` | src/net/virtio_net.cpp:205 | the comparison of 16-bit indices finds a completion exactly when there is one |
| `VirtioNet.CompleteKeepsSlots` | src/net/virtio_net.cpp:201-234 | when the device raises its index, every unread used slot holds its own completion |
| `VirtioNet.RecordKeepsSlots` | src/net/virtio_net.cpp:201-234 | the device never overwrites a used slot the driver has yet to read |
| `VirtioNet.WriteKeepsContents` | src/net/virtio_net.cpp:213-217 | what the device writes changes no buffer whose completion the driver has yet to copy |
| `VirtioNet.AddKeeps` | src/net/virtio_net.cpp:85-101 | a buffer joins the pool while the device runs |
| `VirtioNet.StageKeeps` | src/net/virtio_net.cpp:224-225 | the driver never overwrites an available slot the device has yet to take |
| `VirtioRx.RxQueue.PopulateRxQueue` | src/net/virtio_net.cpp:85-101 | buffers are published up to the first failed allocation, with descriptors for whole pages, while the device already takes and completes them |
| `VirtioRx.RxQueue.AddBuffer` | src/net/virtio_net.cpp:86-99 | one buffer is described, put into its slot and published, in this order, whatever the device does in between |
| `VirtioRx.RxQueue.ReadUsed` | src/net/virtio_net.cpp:207-208 | id and length belong to the same completion however the device acts between the reads |
| `VirtioRx.RxQueue.CopyPacket` | src/net/virtio_net.cpp:213-218 | the bytes copied are the completed packet's, whatever the device does between them |
| `VirtioRx.RxQueue.Recycle` | src/net/virtio_net.cpp:220-228 | the buffer goes back: slot first, index after it |
| `VirtioRx.RxQueue.Receive` | src/net/virtio_net.cpp:201-234 | completions are delivered in order, once each: the bytes behind the first 10, as many as the caller has room for; those of 10 bytes or less are dropped and reported as nothing; whatever the device does meanwhile |
| `Scheduler.SchedulesReady` | src/process/scheduler.cpp:19-62 | a ready process is dispatched if there is one and then it alone runs; otherwise nothing changes |
| `Scheduler.ChosenOrCloser` | src/process/scheduler.cpp:30-38 | a ready process is chosen or the choice comes strictly closer to it |
| `Scheduler.BoundedWaiting` | src/process/scheduler.cpp:19-62 | a process that stays ready until it runs is dispatched within its distance, at most 64 calls, whatever the other slots do |
| `ProcessTables.ProcessTable.Init` | src/process/process.cpp:30-44 | slot 0 runs, all others are unused, and the invariant holds |
| `ProcessTables.ProcessTable.Schedule` | src/process/scheduler.cpp:19-62 | current, current_index and states change as the round-robin choice says, and the page table switched to is the next process's if it differs, always a user table that exists |
| `ProcessTables.ProcessTable.FindNext` | src/process/scheduler.cpp:30-38 | the do-while loop finds the first ready slot going round |
| `Processes.StepKeeps` | src/process/process.cpp:46-156 | creation, exit, scheduling, destroy and reap keep all live kernel stacks disjoint and in use, destroy and exit under their exact conditions |
| `Processes.RunKeepsStacks` | src/process/process.cpp:20-156 | the same over every run of such steps, with the rest of the kernel taking and freeing pages in between |
| `Processes.ThreadsRestoreBitmap` | src/process/process.cpp:46-156 | over any run of kernel-thread operations, when the same stacks are live again the bitmap is the same again |
| `Processes.CreateExitReap` | src/process/process.cpp:46-156 | creating, exiting and reaping one thread restores bitmap and table while others live on |
| `Processes.DestroyKeepsIff` | src/process/process.cpp:125-139 | destroy keeps the live stacks intact if and only if it does not find an unused slot whose old stack a live process holds by now |
| `Processes.LivePidIsNotStale` | src/process/process.cpp:125-139 | for a non-zero pid that never happens |
| `Processes.DestroyZeroCanHit` | src/process/process.cpp:125-139 | for pid 0 it can: a run of creations, destructions and other page use from boot ends where destroy(0) breaks the invariant |
| `Processes.ExitKeepsIff` | src/process/process.cpp:20-23 | exit keeps the live stacks intact if and only if the slot is live, or the stack it still names is in use and in no live stack |
| `Processes.ReapKeeps` | src/process/process.cpp:141-156 | reaping frees the zombies' stacks and no other page |
| `Processes.CreateStarts` | src/process/process.cpp:57-74 | a new thread is ready with its name, entry and wrapper, without page table, and starts with its stack pointer at the end of four pages that were free and are now in use |
| `Processes.RunKeepsPids` | src/process/process.cpp:20-156 | over any such run before next_pid wraps, live processes have distinct pids or the 0 that destroy leaves; all pids are non-zero unless a destroyed process ended |
| `Processes.DestroyIsExact` | src/process/process.cpp:125-139 | then destroy of a non-zero pid clears exactly the process with the pid |
| `ProcessTables.ProcessTable.CreateThread` | src/process/process.cpp:46-77 | the lowest free slot gets the lowest free run of four pages, or nothing changes |
| `ProcessTables.ProcessTable.CreateUserProcess` | src/process/process.cpp:79-123 | a slot is returned exactly if the table has one and two runs of four pages exist; it is the lowest and holds a ready process with this pid, name, page table and entry point, USER_STACK_BASE, and an empty context whose stack pointer is the top of its kernel stack; the stacks are the first and the second run, and each page of the user stack is mapped exactly if the pages left cover the tables lacking; every other translation of every table and every page in use stay; the failure path gives back one page of four |
| `ProcessTables.ProcessTable.MapUserStack` | src/process/process.cpp:101-106 | the four pages below USER_STACK_BASE are mapped to the run exactly if the free pages cover the tables they lack, and keep their translation otherwise; no other translation of any table and no page in use is touched |
| `ProcessTables.UserStackExact` | src/process/process.cpp:85-106 | the same condition in terms of the pages free before create_user |
| `ProcessTables.ProcessTable.DestroyPid` | src/process/process.cpp:125-139 | the first slot with the pid is cleared and its stack freed; the whole invariant survives exactly if that slot was not stale or no page of its old stack is in a live stack or carries a table by now |
| `ProcessTables.StaleOutcome` | src/process/process.cpp:125-139 | freeing the stack of an unused slot keeps tables and stacks intact exactly if no page of it is needed |
| `ProcessTables.ProcessTable.Exit` | src/process/process.cpp:20-23 | the current process becomes a zombie; stacks, tables and the only running slot stay consistent exactly if the slot is live, or the stack it still names is in use, in no live stack and carries no table |
| `ProcessTables.KernelRunKeeps` | src/process/process.cpp:20-156 | over any run of creations, destructions, reaps, exits and scheduler calls, destructions and exits under their exact conditions, stacks stay apart and only the current slot is running |
| `ProcessTables.DestroyedCanEnd` | src/process/process.cpp:20-139 | create, schedule and destroy from boot lead to a current process whose exit breaks the invariant |
| `ProcessTables.ProcessTable.ReapZombies` | src/process/process.cpp:141-156 | all zombies are cleared and their stacks freed |
| `ProcessTables.ProcessTable.Get` | src/process/process.cpp:160-168 | the first live slot with the pid, or none exactly if there is none |
| `Dns.SkipNameSkips` | src/net/dns.cpp:49-57 | skip_name lands just past any name made of labels, compressed or not |
| `Dns.EncodeIsWire` | src/net/dns.cpp:28-46 | a host name is encoded as its labels in wire format |
| `Dns.EncodeFitsIff` | src/net/dns.cpp:28-46 | the output stays inside the buffer if and only if the buffer is not empty and no label of the name overruns it, which is said of the name alone: it starts at t, has n bytes, and t + 1 + n mod 256 is below the size but t + 1 + n is not |
| `Dns.ShortLabelsFit` | src/net/dns.cpp:28-46 | labels below 256 bytes never overrun |
| `Dns.LongLabelOverruns` | src/net/dns.cpp:37-41 | a label of 600 bytes and a buffer of 500: 602 bytes are written |
| `Dns.SkipUndoesEncode` | src/net/dns.cpp:28-57 | skip_name lands just past encode_name's output, whatever surrounds it |
| `Dns.QuestionsSkipped` | src/net/dns.cpp:142-148 | the loop passes any list of questions exactly |
| `Dns.AnswersParsed` | src/net/dns.cpp:150-166 | the loop returns the first A record with 4 bytes of any list of records, or none |
| `Dns.ReplyParsed` | src/net/dns.cpp:134-166 | a message built from any id, flags, questions and records, all written out, yields the first address record if the id is the one asked for, the QR bit is set and RCODE is 0, and nothing otherwise |
| `Dns.AnswerIsReply` | src/net/dns.cpp:132-166 | for every message: an answer means at least 12 bytes, the id asked for, QR set, RCODE 0, a non-zero answer count, and four bytes of data behind a record header of type 1 and length 4 |
| `Dns.EncodeName` | src/net/dns.cpp:28-46 | whenever the output fits, the loop writes the encoding and nothing else |
| `Dns.SkipNameLoop` | src/net/dns.cpp:49-57 | the loop computes the position, stopping at the end |
| `Dns.ParseReply` | src/net/dns.cpp:132-166 | header checks and both loops compute the answer for every message, of which AnswerIsReply and ReplyParsed say what it is |

## Left out

- TcpWire.BuildSegment: headers of up to 20 bytes without options only, as the kernel sends; the parser's behaviour for a header length beyond the segment (the subtraction wraps) is not modelled.
- TcpSocket.TcpConnection.CheckRetransmits: does not state that unacknowledged bytes are resent at their own sequence numbers or that the back-off grows, because neither is true of the code: the saved start is computed before snd_nxt advances, and each accepted resend resets the count. What it does instead is `TcpLife.ResendIs`.
- TcpSocket.TcpConnection.SendTcpSegment: does not model that resolving a hardware address polls the device and may process segments in the middle of a send.
- TcpSocket.TcpConnection.Send: does not model that the slot can be taken by another connection after the retransmission limit closed this one in the middle of a call.
- Tcp.ActiveConnectionIsSafe: leaves out a stream of 2^32 bytes or more, and one of 2^32 - 1 if the peer sends data along with its SYN.
- TCP connection lookup, accept, ports, TIME_WAIT expiry; ticks are unbounded rather than 64-bit.
- Elf.LoadSegments: requires page-aligned, page-disjoint segments in private L1 slots whose file bytes are present; a segment with an unaligned address loses the data of its first page. The header check (validate) and reading the file are not part of it. On a table where image pages are already mapped it promises visibility one way only, because an old translation may show the right bytes by chance.
- Exec.LoadAndExec: promises image and stack only for an image that does not lie where the user stack goes, because the stack is then mapped over it; which pages the load takes is given by their number only. The file is given as it was read.
- Mmu.PageTables.MapUserPage: requires an L1 index of 2 or more, because below that the code cannot tell a block descriptor from a table; map_page and map_range on the kernel table are left out for the same reason.
- PageTable.MapPageRefines: requires an L1 index of 2 or more, as MapUserPage does; so does MapPrepares.
- Mmu.PageTables.GetOrCreateTable: requires a table descriptor to lead into this memory, as those the code writes do; so does MapPageInTable.
- Mmu.PageTables.Init: writes the disjoint fields of the block descriptors as sums instead of ORs; the system registers, TLB and cache instructions are left out.
- Heap.KernelHeap.constructor: takes the base address as given; the failure of the page allocation at boot leaves no heap to speak of.
- Heap.KernelHeap.Kfree: requires a live pointer or null, as the code trusts its caller.
- FatVolume.Driver.WriteFile: requires a file whose first cluster is 2 or more on a volume with well-formed chains; for first cluster 0 the code starts a chain that no directory entry names. Failing sector reads and writes are left out.
- FatVolume.Driver.DeleteFile: requires links inside the table, because the code would read a FAT sector that is not there.
- FatDir.FindInDir: requires a directory chain without a cycle, because on a cyclic one the loop of the code need not end.
- FatDir.ListDir: requires a directory chain without a cycle, as FindInDir does.
- FatPath.ResolvePath: requires chains without cycles for the directories on the path.
- FatPath.WriteThenRead: requires the recorded size to cover the data, because write_file does not update directory entries.
- FAT32 create_file: the directory sector is edited in the buffer that the cluster allocation overwrites, so the entry it promises is not the one it writes. Mounting and the boot sector.
- VirtioRx.RxQueue.Receive: assumes a device that only completes buffers it holds and a queue of 16 entries; poll, which calls it until the ring is empty, need not end. The transmit queue and the block device.
- Dns.EncodeName: requires that no label overruns the buffer, as an array cannot be written past its end; what then happens to the caller's stack is not modelled. Positions are unbounded rather than 32-bit.
- Processes.StepKeeps: states nothing about the pages of user stacks, which are never given back, or about the three pages lost when create_user fails half-way.
- ProcessTables.ProcessTable.Schedule: the context switch itself, interrupts and the system calls that end a process.
- UDP, ARP, ICMP and DHCP, the socket layer, the shell, the UART, the timer, the interrupt controller and the Linux system call layer: input and output or simpler repeats of the above.
