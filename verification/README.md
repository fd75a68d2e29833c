# Verified models of ucore's image builder, allocator, protocols and text tools

Each module models one part of the repository and proves what that part is for, for every input,
every buffer size, every way the kernel may answer, or every interleaving of any number of
processes.

- **mksfs**, the program that builds an SFS disk image (`SfsIndex`, `SfsState`, `SfsTree`,
  `SfsSource`, `SfsBuilder`, `SfsDisk`, `SfsImage`). The builder is a class whose methods update its
  tables in place. `SfsDisk` has the layout of every kind of block down to bytes and a reader that
  sees only the blocks. The main result, `SfsImage.CreateImg`, covers a whole run: the image reads
  back as exactly the tree that mksfs reads, takes exactly the blocks the tree needs, and is
  consistent in every respect a file-system checker would look at, or the program has given up for
  one of four named reasons, each of which then really holds. With a source that does not fail it
  succeeds exactly on the trees that fit.
- **The typed K&R allocator** (`FreeList`, `Allocator`) with its two nested locks (`ForkLock`).
  Memory is a heap of headers indexed by unit address. Every unit the kernel ever granted is in
  exactly one free or live block of its own type. What a thread does between the locks is what the
  allocator's own methods do, and which headers it writes is what they write. Processes that a fork
  has separated see one header wherever a block lies in memory from `sys_shmem`.
- **libbio** (`BufferedReader`, `BufferedWriter`): any legal run of calls answers exactly as an
  unbuffered cursor over the file would, however reads are cut short.
- **Concurrent programs as step machines**: writer-priority readers and writers
  (`ReadersWriters`), the shared-memory pipe (`SharedPipe`), the prime pipeline (`PrimePipeline`,
  `PrimeProgress`). A step is one semaphore operation or one access to shared memory. Safety holds over
  every interleaving, and so does what the programs are for: every reader and writer gets into its
  section, reads and writes move bytes, and the first 1000 primes come.
- **cleanname** (`CleanName`), in place on an array, against a specification that is proved
  normal, idempotent and location-preserving.
- **pc2line and line2addr** (`PcLine`), two decoders of one compressed table, with the 32- and
  64-bit wrap-around of the code, against an encoder of the format.

## What turned out to be false, and when it does hold

- A malloc is not always safe when the search asks the kernel twice. `MallocLocked` keeps every
  invariant unless the second region ends exactly at the node after which the first was put and
  has its type (`SwallowsStop`); then the block handed out is still on the free list and `freep`
  is off it. `Derailment` is a run of five calls, from the empty allocator and with whole pages of
  user memory granted, that ends so. `BrkNeverDerails` shows that memory from `sys_brk` cannot do it,
  and `TopDownNeverDerails` that shared memory cannot as long as it is placed below the shared blocks
  there are, so it takes a hole left by an unmapping. The first request is harmless wherever its
  region lands.
- A fork therefore does not always copy a well-formed free list. It does as long as no malloc before
  it was derailed, and does not if the last one was (`ForkCopiesConsistentMemory`, `CallKeeps`).
- Nor does the copy stay well formed whatever the other process does. The locks are copied, but the
  headers in memory from `sys_shmem` are shared. `ChildFreeSpoilsParent` is a run, `shmem_malloc`,
  `fork` and `free` in the child, after which the parent's memory is ill formed and the parent's own
  `free` would leave no list. Memory stays well formed as long as no other process changes a header
  it has in common with this one (`FineUnless`, `RunInv`). A call that works below everything shared
  changes none (`BelowDisturbsNobody`): calls on memory from `sys_brk` do, and calls on shared memory
  granted after the fork, which is common to nobody (`NewPagesAreOwn`), when it is placed below.
  `FreeSpoilsExactly` and `MallocSpoilsExactly` say exactly which first call after a fork spoils the
  other process. A shared block taken whole does not, but then both processes use it.
- A malloc has room for what was asked exactly if `size + 63` does not wrap
  (`RoomExactlyWithoutWrap`).
- mksfs takes names of up to 255 bytes, but writes 256 bytes of a 260-byte entry: a name reads back
  exactly if and only if it has at most 252 bytes (`NameReadsExactly`).
- mksfs knows a regular file by its inode number alone. A second file with the number of an earlier one,
  from another file system, shows the data of that one; the image shows the source exactly if files
  with one number have the same data (`CanonShowsSource`).
- New index blocks are filed in hash chain 0 and searched for in the chain of their own number
  (`SearchWouldMiss`). The image is right because no search ever happens (`AppendBlock`).
- `Bseek` trusts `gbuf`, which `Bgetc` widens even when it meets the end of the file. After that end
  has been cleared a seek can land on bytes left over from an earlier refill (`StaleSeek`). What
  follows a `Bseek` is vouched for exactly unless it stays in the buffer and goes back past the bytes
  that are retained; the bytes found there may still be the right ones by luck.
- `Brdline` and `Brdstr` skip bytes when more than a buffer is pending, which takes ungetting, and no
  delimiter is among them: the line then begins after the excess (`Brdline`, `Brdstr`).
- `pc2line` starts at `firstinstr` and `line2addr` at `txtstart`. `SkewDisagrees` shows them
  disagree, `Pc2LineBySkew` says what `pc2line` answers for any distance between the two, and
  `DecodersAgree` at which rows they agree for a given distance.

## Model

| member | source | states |
|---|---|---|
| SfsImage.CreateImg | ucore/src/ht-mksfs/mksfs.c:239-271 | whole run, together with create_img: when done, the image's bytes read back from the root as exactly the tree mksfs reads, super block and free map agree with the blocks written, link counts and sizes are right, no block is shared and none is lost, and next_ino is exactly where the tree's blocks take it; the super block gives as many whole blocks as the image file holds, at most 524288 and modulo 16 TB, and the free map has as many blocks as a bit for each of those takes; if no call on the source fails it is done exactly when those blocks fit, the tree is within the limits and no directory is met twice; each way of giving up has its reason; the tree read is the source exactly if regular files with one number have the same data |
| SfsImage.CapacityIsWholeBlocks | ucore/src/ht-mksfs/mksfs.c:243-247 | the number of blocks used is the one number of whole blocks in the image file, at most 524288; from 16 TB on, where the uint32 wraps, that of the size modulo 16 TB |
| SfsImage.MapIsJustEnough | ucore/src/ht-mksfs/mksfs.c:248-248 | the blocks reserved for the free map have a bit for every block, and one fewer would not |
| SfsImage.CanonShowsSource | ucore/src/ht-mksfs/mksfs.c:482-490 | the tree read, every regular file as the first one met with its number, looks like the source exactly if files with one number have the same data |
| SfsSource.CanonIsRead | ucore/src/ht-mksfs/mksfs.c:482-490 | for every source whose regular files have numbers of their own, that tree is what the builder reads: a file it has met is entered without being looked at, and any other is the first with its number |
| SfsImage.IsFaithful | ucore/src/ht-mksfs/mksfs.c:575-590 | every state the builder can finish in, once closed, is such an image |
| SfsImage.ShowsTree | ucore/src/ht-mksfs/mksfs.c:499-545 | a reader going any depth past the bottom of the tree sees, from block 1, exactly the entries of the source in order, without hidden and special ones |
| SfsDisk.EntryShows | ucore/src/ht-mksfs/mksfs.c:506-541 | an entry of the source shows, at its place in the order, exactly unless its name begins with a dot or it is neither file nor link nor directory |
| SfsImage.EnoughRoom | ucore/src/ht-mksfs/mksfs.c:248-251 | create_sfs accepts exactly the images of four blocks or more |
| SfsImage.CloseSfs | ucore/src/ht-mksfs/mksfs.c:329-366 | afterwards exactly the blocks below next_ino are written, each once (WriteBlock demands a block not written before): files as they were, every cached index block and inode, the super block, and the free map |
| SfsImage.WriteFreeMap | ucore/src/ht-mksfs/mksfs.c:334-351 | writes exactly the blocks create_sfs reserved, each with the right bits |
| SfsImage.FreeMapBlock | ucore/src/ht-mksfs/mksfs.c:335-349 | bit j is set exactly if block i + j is free, for every next_ino and ninos |
| SfsImage.FillBits | ucore/src/ht-mksfs/mksfs.c:346-348 | in place on the zeroed words, sets exactly the bits from start to end |
| SfsImage.FlushBlocks | ucore/src/ht-mksfs/mksfs.c:319-322 | every cached index block is written once, to its own number, and nothing else is |
| SfsImage.FlushInodes | ucore/src/ht-mksfs/mksfs.c:324-327 | the same for inodes |
| SfsImage.FreeMapReads | ucore/src/ht-mksfs/mksfs.c:334-351 | read back from the bytes of the image, block b is marked free exactly if it is not used |
| SfsImage.FreeCount | ucore/src/ht-mksfs/mksfs.c:248-258 | the number of blocks marked free is ninos - next_ino, which is unused_blocks |
| SfsImage.SuperReads | ucore/src/ht-mksfs/mksfs.c:352-352 | magic, size and free count read back from the super block |
| SfsImage.LinksAreRight | ucore/src/ht-mksfs/mksfs.c:231-237 | on the closed image a file's nlinks is the number of entry blocks naming it, at least one; a directory but the root is named once and its nlinks is two more than its subdirectories; all modulo 65536 |
| SfsImage.SizesRight | ucore/src/ht-mksfs/mksfs.c:443-458 | blocks equals slots for a directory and the size rounded up to blocks for the rest |
| SfsImage.NothingShared | ucore/src/ht-mksfs/mksfs.c:181-188 | no block is found at two positions of files, and no index block is referred to by two inodes |
| SfsImage.NothingLost | ucore/src/ht-mksfs/mksfs.c:414-441 | every data and entry block is found at some position of some inode, every index block is referred to by some inode |
| SfsBuilder.Builder.constructor | ucore/src/ht-mksfs/mksfs.c:239-271 | a fresh image, only the root, with every invariant |
| SfsBuilder.Builder.AllocIno | ucore/src/ht-mksfs/mksfs.c:181-188 | succeeds exactly while a block is left, and keeps unused_blocks in step |
| SfsBuilder.Builder.UpdateCache | ucore/src/ht-mksfs/mksfs.c:399-412 | searches exactly if the pointer is neither zero nor the cached block; every cached block stays filed in chain 0, so a search succeeds exactly for a cached block whose number hashes to 0 |
| SfsBuilder.Builder.AppendBlock | ucore/src/ht-mksfs/mksfs.c:414-441 | never searches; succeeds exactly if the file is below the limit and the index blocks it needs fit on the disk; otherwise the disk is full |
| SfsBuilder.SearchWouldMiss | ucore/src/ht-mksfs/mksfs.c:190-198 | zero hashes to chain 0 and block 3 to chain 874, so there are blocks a search would miss |
| SfsBuilder.Builder.AppendNew | ucore/src/ht-mksfs/mksfs.c:443-458 | allocating, writing and appending a block keeps every invariant, touches no other file and takes exactly the blocks the longer file has more; why it fails, if it does |
| SfsIndex.AppendCost | ucore/src/ht-mksfs/mksfs.c:414-441 | an append allocates exactly the index blocks a file one block longer has more |
| SfsState.GrownNext | ucore/src/ht-mksfs/mksfs.c:443-458 | so next_ino moves by the difference of the two files' costs |
| SfsBuilder.Builder.NewInode | ucore/src/ht-mksfs/mksfs.c:209-237 | a new inode keeps every invariant, link counts included |
| SfsBuilder.Builder.AddEntry | ucore/src/ht-mksfs/mksfs.c:460-469 | one block more for the directory, holding target and name whatever the static buffer held before; one link more for the target; nothing else changes |
| SfsBuilder.Builder.OpenFile | ucore/src/ht-mksfs/mksfs.c:547-561 | the file holds exactly the bytes of the source, however reads fall short without the program giving up; fails only for size, space or a failing read |
| SfsBuilder.Builder.OpenLink | ucore/src/ht-mksfs/mksfs.c:563-573 | the same for link targets, which must have 1 to 4095 bytes |
| SfsBuilder.Builder.AddFile | ucore/src/ht-mksfs/mksfs.c:482-490 | an entry for the file; one whose number has been met is entered again, neither read nor copied |
| SfsBuilder.Builder.AddLink | ucore/src/ht-mksfs/mksfs.c:492-497 | an entry for a new link inode holding the target |
| SfsBuilder.Builder.AddDir | ucore/src/ht-mksfs/mksfs.c:471-480 | an entry for a new directory that lists exactly the subtree; gives up exactly on a directory met before |
| SfsBuilder.Builder.AddOne | ucore/src/ht-mksfs/mksfs.c:505-543 | one directory entry of the source is skipped or added |
| SfsBuilder.Builder.OpenDir | ucore/src/ht-mksfs/mksfs.c:499-545 | the directory lists the source's entries in order, regular files as the builder reads them, everything finished before is undisturbed, next_ino moves by exactly the blocks the subtree needs; ends as done only for trees within the limits that repeat no directory, and otherwise for a reason that holds |
| SfsDisk.TreeReads | ucore/src/ht-mksfs/mksfs.c:324-327 | round trip: reading the bytes at an inode that holds tree t gives t |
| SfsDisk.EntriesRead | ucore/src/ht-mksfs/mksfs.c:460-469 | the entries of a directory read back in order with names and contents |
| SfsDisk.FileReads | ucore/src/ht-mksfs/mksfs.c:547-561 | the bytes of a file read back, whatever its length |
| SfsDisk.LocateReads | ucore/src/ht-mksfs/mksfs.c:414-441 | following direct, indirect and double-indirect pointers on disk finds the i-th block appended |
| SfsDisk.InodeReads | ucore/src/ht-mksfs/mksfs.c:134-150 | every field of an inode reads back from its block, direct blocks modulo 2^32 |
| SfsDisk.NameReadsExactly | ucore/src/ht-mksfs/mksfs.c:461-466 | an entry's name reads back exactly if and only if it has at most 252 bytes |
| SfsDisk.WordsRoundTrip | ucore/src/ht-mksfs/mksfs.c:304-317 | little-endian words read back modulo 2^32 |
| SfsState.StoredReadsBack | ucore/src/ht-mksfs/mksfs.c:462-464 | what the static entry buffer held before does not show, and at most 252 bytes of the name do |
| SfsState.FreshValid | ucore/src/ht-mksfs/mksfs.c:239-271 | the fresh image has every invariant |
| SfsState.NewValid | ucore/src/ht-mksfs/mksfs.c:209-237 | allocating an inode keeps: one owner per block, every index resolving, link counts, parents |
| SfsState.GrownValid | ucore/src/ht-mksfs/mksfs.c:414-458 | appending a block keeps them, for the file and for every other file |
| SfsState.EnteredValid | ucore/src/ht-mksfs/mksfs.c:460-469 | making an entry keeps them |
| SfsIndex.AppendIndexed | ucore/src/ht-mksfs/mksfs.c:414-441 | the three-level index is a flat sequence: after an append every earlier position resolves as before and the new one to the new block |
| SfsIndex.Ready | ucore/src/ht-mksfs/mksfs.c:399-412 | the pointer followed next is zero or is the cached block |
| SfsIndex.AppendConfined | ucore/src/ht-mksfs/mksfs.c:414-441 | an append changes index blocks of its own file only and allocates at most two, numbered on from next_ino |
| SfsIndex.AppendReferenced | ucore/src/ht-mksfs/mksfs.c:414-441 | no index block is ever lost: each stays where its inode looks for it |
| SfsIndex.OtherIndexed | ucore/src/ht-mksfs/mksfs.c:414-441 | the index of every other file resolves as before |
| SfsTree.RepresentsGrows | ucore/src/ht-mksfs/mksfs.c:471-497 | what has been finished stays finished, whatever is built later |
| Allocator.Allocator.MallocLocked | ucore/src/libs-user-ucore/malloc.c:79-119 | at most two requests to the kernel, none exactly if something fits, two exactly under AsksAgain; without a request the block comes from the first that fits, going round from the one after freep; the new heap, list and freep, and the headers written, are those of the grants made followed by a cut from a block that fits; the block is new and of the right size and type, every live block keeps its header, and list, live blocks and grants stay in order unless a second region swallows the node stood on; then the cut is made from that node, which is off the list |
| Allocator.Allocator.SearchFit | ucore/src/libs-user-ucore/malloc.c:96-118 | the search ends, at a block that fits reached from its list predecessor, the first such if the kernel was not asked, or refused by the kernel; heap, list and headers written are those of the grants made, and live blocks keep their headers |
| Allocator.Allocator.AskKernel | ucore/src/libs-user-ucore/malloc.c:111-117 | the search can go on from the node it stands on although the list has changed |
| Allocator.Allocator.MallocThenFree | ucore/src/libs-user-ucore/malloc.c:90-148 | malloc and at once free restores the list, header by header |
| Allocator.Allocator.FreeLocked | ucore/src/libs-user-ucore/malloc.c:121-148 | the block goes back between its address neighbours, merged with those of its type; every invariant kept; its header and that of the node before are all it writes |
| Allocator.Allocator.FindSlot | ucore/src/libs-user-ucore/malloc.c:125-129 | the search ends at the node the block belongs behind, wherever freep points |
| Allocator.Between | ucore/src/libs-user-ucore/malloc.c:125-127 | round the list the stopping test holds at one node only |
| Allocator.Allocator.PutBackBy | ucore/src/libs-user-ucore/malloc.c:131-147 | the list surgery amounts to PutBack |
| Allocator.Allocator.Cut | ucore/src/libs-user-ucore/malloc.c:98-108 | unlinking or splitting amounts to TakeHeap |
| Allocator.Allocator.MorecoreLocked | ucore/src/libs-user-ucore/malloc.c:45-77 | a granted region joins the free list and the account, and live blocks keep their headers |
| Allocator.Allocator.constructor | ucore/src/libs-user-ucore/malloc.c:26-27 | the empty allocator |
| Allocator.FreeSound | ucore/src/libs-user-ucore/malloc.c:121-148 | free keeps blocks apart and every granted unit in exactly one block of its type |
| Allocator.TakeSound | ucore/src/libs-user-ucore/malloc.c:97-110 | so does handing a block out |
| Allocator.GrantSound | ucore/src/libs-user-ucore/malloc.c:45-77 | so does a new region |
| Allocator.RoomExactlyWithoutWrap | ucore/src/libs-user-ucore/malloc.c:90-90 | room for the bytes asked for exactly if the size_t sum does not wrap, less than a unit too much then, and a bare header otherwise |
| Allocator.ResumeFirst | ucore/src/libs-user-ucore/malloc.c:111-117 | after a first region the only blocks that fit are at freep or next to it, even if the node stood on has been swallowed |
| Allocator.ResumeSecond | ucore/src/libs-user-ucore/malloc.c:111-117 | after a second region the next block fits, or the one at freep does, or the node stood on was swallowed |
| Allocator.SwallowedExactly | ucore/src/libs-user-ucore/malloc.c:131-134 | a node is swallowed exactly by a region of its type that ends at it |
| Allocator.TakeDerailed | ucore/src/libs-user-ucore/malloc.c:97-110 | cutting from a node off the list leaves the list as it was, the block handed out still on it |
| Allocator.BrkNeverDerails | ucore/src/libs-user-ucore/malloc.c:45-63 | whatever sys_brk answers, two regions got through the static brk never swallow the node |
| Allocator.BrkGoesUp | ucore/src/libs-user-ucore/malloc.c:45-63 | a region from sys_brk begins where the last ended, is memory never had from it before, and moves brk to its end; when there is one |
| Allocator.ShmemIsEnough | ucore/src/libs-user-ucore/malloc.c:65-77 | a region from sys_shmem is whole pages, as large as asked for and less than a page larger |
| Allocator.TopDownNeverDerails | ucore/src/kern-ucore/mm/vmm.c:476-495 | nor do two shared regions if the first is placed below every shared block on the list |
| Allocator.Derailment | ucore/src/libs-user-ucore/malloc.c:79-148 | a run of the allocator from the start, every grant whole pages of user memory, after which the block returned is still on the list and freep is off it |
| FreeList.PutBackKeepsList | ucore/src/libs-user-ucore/malloc.c:131-145 | the list stays circular, ascending with one wrap, disjoint and fully merged |
| FreeList.TakeKeepsList | ucore/src/libs-user-ucore/malloc.c:98-107 | so it does when a block is cut off |
| FreeList.PutBackUnits | ucore/src/libs-user-ucore/malloc.c:131-145 | the free units gain exactly the block's |
| FreeList.TakeUnits | ucore/src/libs-user-ucore/malloc.c:98-107 | the free units lose exactly the block's |
| FreeList.TakeThenPutBack | ucore/src/libs-user-ucore/malloc.c:97-148 | putting back what was just cut off restores order and headers |
| ForkLock.RunInv | ucore/src/libs-user-ucore/malloc.c:33-43 | over every run: one holder of fork_lock, only it holds mem_lock, and outside malloc_locked and free_locked memory is well formed as long as the process is fine: no call was derailed or illegal, and no other process has changed a common header |
| ForkLock.Perform | ucore/src/libs-user-ucore/malloc.c:79-148 | malloc_locked and free_locked end, leave memory as the step machine takes them to, and write the headers it takes them to write |
| ForkLock.CallKeeps | ucore/src/libs-user-ucore/malloc.c:79-148 | a call on well-formed memory leaves it well formed exactly unless it was derailed, and then freep is on no list that starts at base |
| ForkLock.FineUnless | ucore/src/libs-user-ucore/malloc.c:79-148 | a process stays fine through every step but these: it begins an illegal call, it returns from a derailed one, another process changes a header the two have in common |
| ForkLock.RunShared | ucore/src/kern-ucore/mm/vmm.c:433-459 | over every run, two processes see the same header wherever the memory is common, and all shared memory is accounted for |
| ForkLock.CallWrites | ucore/src/libs-user-ucore/malloc.c:79-148 | no header changes but those a call is said to write |
| ForkLock.CallStaysBelow | ucore/src/libs-user-ucore/malloc.c:79-148 | a call on memory below an address writes headers below it only |
| ForkLock.PrivateWorksBelow | ucore/src/libs-user-ucore/malloc.c:150-178 | malloc, and free of what it gave, work below every shared unit when memory from sys_brk lies below them |
| ForkLock.BelowDisturbsNobody | ucore/src/kern-ucore/mm/vmm.c:433-459 | a call that works below everything its process shares with another leaves that one as it is, at every step |
| ForkLock.NewPagesAreOwn | ucore/src/kern-ucore/mm/vmm.c:338-359 | shared memory granted after a fork is common to nobody |
| ForkLock.FreeSpoilsExactly | ucore/src/libs-user-ucore/malloc.c:121-148 | free in one process just after a fork leaves the other well formed exactly if the free block before is not shared and the block is not shared or does not merge upwards |
| ForkLock.MallocSpoilsExactly | ucore/src/libs-user-ucore/malloc.c:97-110 | malloc from a free block just after a fork does so exactly if the free block before is not shared and the block is not shared or taken whole |
| ForkLock.ChildFreeSpoilsParent | ucore/src/kern-ucore/mm/vmm.c:445-453 | a run from the start, every call legal and none derailed, that leaves a parent's memory ill formed, and no list after its own free |
| ForkLock.ForkCopiesConsistentMemory | ucore/src/libs-user-ucore/ulib.c:28-35 | what a child starts from has mem_lock clear, a well-formed list if its parent is fine, and none if the last malloc was derailed; all shared memory is common to the two; the child ends with both locks free |
| ForkLock.MemLockUncontended | ucore/src/libs-user-ucore/malloc.c:33-43 | mem_lock is free whenever a thread comes to take it |
| ForkLock.ThreadsReach | ucore/src/libs-user-ucore/ulib.c:187-196 | a process of any number of threads can come about by clone |
| ForkLock.SomeThreadAdvances | ucore/src/libs-user-ucore/lock.h:26-45 | no deadlock: in every process of every reachable world some thread gets on, the holder of fork_lock if there is one, because the allocator's methods end; unless that one is inside a call on memory no longer known to be well formed |
| BufferedReader.Transcript | go/src/libbio/binit.c:83-117 | whole runs: any file, buffer size and cutting of reads, any legal sequence of Bgetc, Bungetc, Bread, Brdline, Brdstr, Bseek, Boffset gives the answers of an unbuffered cursor |
| BufferedReader.Perform | go/src/libbio/bgetc.c:30-79 | one call of such a run |
| BufferedReader.Reader.Bgetc | go/src/libbio/bgetc.c:30-67 | the byte at the cursor or the end; four bytes stay ungettable across a refill |
| BufferedReader.Reader.Bungetc | go/src/libbio/bgetc.c:69-79 | steps the cursor back; the byte there is the file's exactly if one was still retained |
| BufferedReader.Reader.Refill | go/src/libbio/bgetc.c:51-65 | the refill keeps the cursor and what can be ungot |
| BufferedReader.Reader.Bread | go/src/libbio/bread.c:30-71 | exactly the next bytes of the file, short only at its end; and what a single refill leaves in the buffer |
| BufferedReader.Reader.RefillPlain | go/src/libbio/bread.c:48-61 | the refill keeps the cursor |
| BufferedReader.Reader.Brdline | go/src/libbio/brdline.c:30-113 | the line up to the first delimiter, or no line, the cursor put and a full buffer or the rest of the file without delimiter; what happens to bytes pending beyond a buffer |
| BufferedReader.LineReply | go/src/libbio/brdline.c:30-113 | with at most a buffer pending a line is returned exactly if its delimiter is among the next bsize bytes, and otherwise the count of pending bytes is that of the bytes there are |
| BufferedReader.Reader.Extend | go/src/libbio/brdline.c:72-112 | the part that reads on behind the pending bytes |
| BufferedReader.Reader.Brdstr | go/src/libbio/brdstr.c:27-60 | exactly the bytes up to and including the next delimiter, or the rest of the file, from the cursor on unless more than a buffer is pending without a delimiter, when the excess is skipped |
| BufferedReader.Reader.Bseek | go/src/libbio/bseek.c:43-92 | to a target that exists it reports success, and what follows is vouched for as the file exactly unless the seek stays in the buffer and goes back past what is retained; a target before the start, with gbuf exact, leaves offset -1 |
| BufferedReader.StaleSeek | go/src/libbio/bgetc.c:51-58 | a run of calls after which a seek lands on the wrong byte |
| BufferedReader.Reader.Bflush | go/src/libbio/bflush.c:50-56 | buffered bytes are forgotten: the cursor jumps to the kernel's position |
| BufferedReader.Reader.Boffset | go/src/libbio/boffset.c:41-44 | the cursor |
| BufferedReader.Reader.constructor | go/src/libbio/binit.c:83-117 | the cursor at the start |
| BufferedWriter.Session | go/src/libbio/bwrite.c:30-64 | whole runs of Bputc, Bwrite and Bflush: the file is everything put if nothing was refused, and always a prefix of it; nothing is refused by a kernel that takes a buffer at a time |
| BufferedWriter.Writer.Bwrite | go/src/libbio/bwrite.c:30-64 | file and buffer together gain exactly the data, or the writer stops with a prefix written; it succeeds exactly if the kernel takes in full each of the writes of a buffer that the data fill |
| BufferedWriter.Writer.Bputc | go/src/libbio/bputc.c:30-46 | the same for a byte, exactly if the buffer has room or the kernel takes it in full; a stopped writer still accepts bytes exactly while ocount is not zero |
| BufferedWriter.Writer.Bflush | go/src/libbio/bflush.c:35-48 | the file becomes everything put, or a prefix of it; it returns 0 exactly if the writer is active and the kernel takes all that is in the buffer |
| BufferedWriter.Writer.Boffset | go/src/libbio/boffset.c:46-48 | the length of everything put |
| BufferedWriter.Writer.constructor | go/src/libbio/binit.c:83-117 | nothing put yet |
| CleanName.CleanInPlace | go/src/lib9/cleanname.c:34-78 | in place, the array becomes the cleaned path with its terminator, nothing beyond the old one is touched but the room for "." |
| CleanName.CleanIsNormal | go/src/lib9/cleanname.c:34-78 | no empty or "." elements, ".." only leading an unrooted path, single separators |
| CleanName.CleanIdempotent | go/src/lib9/cleanname.c:34-78 | cleaning twice is cleaning once |
| CleanName.CleanSameLocation | go/src/lib9/cleanname.c:34-78 | leads to the same place as the original from every directory |
| CleanName.OneElem | go/src/lib9/cleanname.c:50-73 | one pass of the loop keeps the write pointer behind the read pointer and the elements kept right |
| CleanName.Parent | go/src/lib9/cleanname.c:55-66 | ".." drops the last element, is kept, or vanishes at the root |
| CleanName.Backtrack | go/src/lib9/cleanname.c:58-59 | stops exactly before the last element kept |
| CleanName.PushParent | go/src/lib9/cleanname.c:60-65 | a kept ".." fits into what has been read |
| CleanName.CopyElem | go/src/lib9/cleanname.c:67-72 | an element is copied down, the unread rest intact |
| CleanName.CopyRun | go/src/lib9/cleanname.c:70-71 | the copying loop, source and target overlapping |
| CleanName.ElemsJoin | go/src/lib9/cleanname.c:34-78 | joining proper elements and splitting again gives them back |
| CleanName.KeepAllNormal | go/src/lib9/cleanname.c:50-73 | the elements kept are always in normal form |
| PcLine.FindLine | go/src/libmach/sym.c:1343-1391 | line2addr then pc2line: the address of the lowest row in range at the least distance from the line, one exactly if some row in range is at or past the line; the line read back is that row's with one start, and that of the row so far back otherwise |
| PcLine.Pc2Line | go/src/libmach/sym.c:1302-1334 | the line of the first row at or past pc, -1 outside the text; the rows are those meant by the entries the table encodes |
| PcLine.Line2Addr | go/src/libmach/sym.c:1343-1391 | the first nearest candidate row, if some candidate reaches the line, with 32-bit distances; the rows are those meant by the entries the table encodes |
| PcLine.TableDecodes | go/src/libmach/sym.c:1319-1332 | round trip: the rows decoded from the encoding of any entries, of 1 to 127 instructions skipped, 1 to 64 lines up or down, or any int32 step, are the rows they mean |
| PcLine.EveryTableIsEncoded | go/src/libmach/sym.c:1319-1332 | and every table that ends at an entry boundary is such an encoding |
| PcLine.EncodedLines | go/src/libmach/sym.c:1302-1334 | a table written for any marks, line changes at rising instructions with int32 steps, gives at every instruction the line of the last mark at or before it |
| PcLine.RowsRise | go/src/libmach/sym.c:1319-1332 | addresses rise along the table |
| PcLine.Pc2LineBySkew | go/src/libmach/sym.c:1311-1333 | what pc2line answers for any distance between the two decoders' starts |
| PcLine.DecodersAgree | go/src/libmach/sym.c:1302-1391 | what pc2line answers at every row of line2addr, for any distance between the starts; they agree where that distance is less than the gap to the row before, and everywhere when it is zero |
| PcLine.ReachOwn | go/src/libmach/sym.c:1319-1332 | when a row's own address, looked up a distance away, still finds the row |
| PcLine.SkewDisagrees | go/src/libmach/sym.c:1312-1315 | a table on which the decoders disagree |
| ReadersWriters.RunInv | ucore/src/user-ucore/sem_wf.c:66-114 | over every run of any number of readers and writers: each semaphore is accounted for by the processes between its wait and post, and the counters by the processes counted |
| ReadersWriters.StepInv | ucore/src/user-ucore/sem_wf.c:66-114 | every step of every process keeps it |
| ReadersWriters.MutualExclusion | ucore/src/user-ucore/sem_wf.c:92-114 | a writer in its section is alone |
| ReadersWriters.QuiescentStateIsClean | ucore/src/user-ucore/sem_wf.c:33-47 | whenever all processes are idle check_sem_value passes |
| ReadersWriters.OneReaderNearRead | ucore/src/user-ucore/sem_wf.c:69-78 | at most one reader waits for or holds sem_read |
| ReadersWriters.WriterPriority | ucore/src/user-ucore/sem_wf.c:92-114 | while the writers hold sem_read the number of readers admitted, past sem_post(sem_read) and not yet out of their section, never grows |
| ReadersWriters.NoNewReaders | ucore/src/user-ucore/sem_wf.c:69-78 | so the readers in their section are at most those that were there and one that was on its way in |
| ReadersWriters.WritingImpliesPriority | ucore/src/user-ucore/sem_wf.c:95-101 | a writer in its section means the writers hold sem_read |
| ReadersWriters.DeadlockFree | ucore/src/user-ucore/sem_wf.c:66-114 | in every reachable state with an unfinished process some process can step |
| ReadersWriters.EveryMaximalRunFinishes | ucore/src/user-ucore/sem_wf.c:116-137 | no run takes more than 17 steps a process, and one that cannot go on has everybody finished, each after standing in its section with its semaphores taken, and passes check_sem_value |
| ReadersWriters.HasBeenInside | ucore/src/user-ucore/sem_wf.c:78-84 | a process that is past its section stood in it before, counted and with sem_write taken, and sem_read too for a writer |
| ReadersWriters.ReadersTogether | ucore/src/user-ucore/sem_wf.c:66-82 | all the readers, however many, can be in their section at once |
| SharedPipe.RunInv | ucore/src/libs-user-ucore/spipe.c:39-126 | over every run: one agent in the lock, the ring holds exactly the unread bytes |
| SharedPipe.ReadsArePrefixOfWrites | ucore/src/libs-user-ucore/spipe.c:39-90 | bytes read are a prefix of bytes written, the difference at most a ring and in the ring |
| SharedPipe.NothingWrittenAfterClose | ucore/src/libs-user-ucore/spipe.c:92-112 | once closed, no byte is added, ever |
| SharedPipe.EndMeansDrained | ucore/src/libs-user-ucore/spipe.c:114-126 | a read of more than nothing, on a handle nobody has called spipeclose on, returns 0 only when everything ever written has been read |
| SharedPipe.ReadDeliversNextBytes | ucore/src/libs-user-ucore/spipe.c:55-65 | a read delivers the next bytes of the stream, in one piece: as many as asked for unless that empties the ring, and at least one |
| SharedPipe.WriteReportsWhatItPlaced | ucore/src/libs-user-ucore/spipe.c:68-90 | what a write reports stands in the stream in order, all of it unless the pipe was closed or the handle shut, also when it returns before another round |
| SharedPipe.EveryByteCounted | ucore/src/libs-user-ucore/spipe.c:39-90 | conservation: the stream is as long as what writes have reported and what those under way have put in, and as much has been read as reads have delivered and those under way have taken |
| SharedPipe.ReadAlone | ucore/src/libs-user-ucore/spipe.c:39-65 | without interference a read takes all it asks for or all there is, and leaves the lock free |
| SharedPipe.WriteAlone | ucore/src/libs-user-ucore/spipe.c:67-90 | without interference a write into an open pipe with room puts in everything |
| SharedPipe.CloseAlone | ucore/src/libs-user-ucore/spipe.c:102-112 | without interference a close shuts the handle and closes the pipe |
| SharedPipe.CloseCloses | ucore/src/libs-user-ucore/spipe.c:102-112 | in every run, when a close returns the pipe and the handle are closed |
| SharedPipe.RetriesForAReason | ucore/src/libs-user-ucore/spipe.c:50-54 | a read goes round again only on an empty ring, a write only on a full one, and only while the pipe is open |
| SharedPipe.ShutHandleReturnsAtOnce | ucore/src/libs-user-ucore/spipe.c:44-46 | a call on a shut handle returns before the semaphore and changes nothing shared |
| SharedPipe.NoTouchAfterUnmap | ucore/src/libs-user-ucore/spipe.c:92-100 | nobody touches the page through a handle that has been unmapped |
| PrimePipeline.RunInv | ucore/src/user-ucore/primer2.c:19-89 | over every run, with fork and sem_init failing anywhere: every hand-off and every stage works |
| PrimePipeline.HandOffIsExact | ucore/src/user-ucore/primer2.c:19-43 | nothing is lost or duplicated before the consumer leaves |
| PrimePipeline.QuitsFromTheEnd | ucore/src/user-ucore/primer2.c:45-50 | a stage leaves only after its successor |
| PrimePipeline.AnnouncesNthPrime | ucore/src/user-ucore/primer2.c:52-58 | a stage announces a prime, and the stages before it exactly the primes below: stage k the (k+1)-th prime |
| PrimePipeline.StageReadsSurvivors | ucore/src/user-ucore/primer2.c:60-84 | a stage reads, in order, exactly the integers from 2 on that no prime announced before divides |
| PrimePipeline.StageReadsSieve | ucore/src/user-ucore/primer2.c:60-84 | what a stage has read is a prefix of the sieve of what main has sent |
| PrimePipeline.SieveMembers | ucore/src/user-ucore/primer2.c:60-63 | membership in the k-th sieve is indivisibility by the first k heads |
| PrimePipeline.HeadsArePrimes | ucore/src/user-ucore/primer2.c:52-84 | the heads of the sieves are all the primes, in order |
| PrimeProgress.EveryRunEnds | ucore/src/user-ucore/primer2.c:52-119 | total correctness: every run, whatever the interleaving and whatever fails, is shorter than a fixed number of steps |
| PrimeProgress.HowRunsEnd | ucore/src/user-ucore/primer2.c:45-89 | a run that cannot go on has everybody gone and every stage having announced its prime; without a failure of sem_init or fork there are 1000 stages |
| PrimeProgress.PrimesCome | ucore/src/user-ucore/primer2.c:52-84 | as long as nothing fails, every run can be carried on until the first 1000 primes have been announced, in order, and everybody has gone |
| PrimeProgress.LeavesForAReason | ucore/src/user-ucore/primer2.c:64-88 | a process leaves only if sem_init or fork failed some stage from it on, or all the notes are in use |
| PrimeProgress.StepOrdered | ucore/src/user-ucore/primer2.c:32-50 | how two neighbours part: the consumer leaves -1, the producer finds it with the next number it hands on and leaves too, so no more than two numbers are lost |
| PrimeProgress.OnTheWay | ucore/src/user-ucore/primer2.c:60-84 | of the numbers a stage is to read at most three for each stage up to it are not read, and the stage is there if that leaves any |

## Left out

- SfsImage.CreateImg: a regular file must not have the number of a link or a directory, nor 0 (`Separate`), as within one file system it has not; across two file systems the program would enter the link or directory in its place. The super block's info text and the messages of `bug` and `warn` are not modelled, nor is failure of malloc or pwrite. The caches are maps, with the chain each index block is filed in; flushing visits them in some order.
- SfsBuilder.Builder.OpenDir: the same holds of the entries it is given (`AllConsistent`). On giving up the state is described only as far as the reason goes; the program exits there.
- mksfs_be.c: a near copy of mksfs.c with another block size and byte order.
- Allocator.Allocator.MallocLocked: the kernel's answers are parameters; a region must be memory never granted before, above `base` and as large as asked. How sys_shmem chooses a place is not modelled beyond what `TopDownNeverDerails` asks of it. What later calls do after a derailed one is not said.
- malloc.c: the wrappers malloc, shmem_malloc, free and their bookkeeping beyond the locks.
- BufferedReader.Transcript: read errors (a negative result of read(2)) are not modelled; a run must unget only retained bytes, seek only to positions that exist, after a cleared end of file not backwards past the retained bytes unless further than a buffer, and have at most a buffer pending when it asks for a line.
- BufferedWriter.Session: Bseek on a writer, and what Bterm does beyond the last flush.
- libbio: Bprint, Bgetd, Bgetrune and Bputrune, and offsets beyond 64 bits.
- ReadersWriters.RunInv: console messages and the semaphore around them; sem_wait is taken not to fail.
- sem_rf.c: the reader-priority variant is this protocol without sem_read, sem_y and sem_z and would add only easier claims.
- SharedPipe.RunInv: failing semaphores, spipe creation and spipeisclosed; p_rpos and p_wpos are unbounded.
- PrimePipeline.RunInv: ints are unbounded, and sem_wait and sem_post do not fail.
- ForkLock.RunInv: while a thread is inside malloc_locked or free_locked the headers it writes, and freep, may hold anything, so the order of the writes is not followed. After an illegal call, and after another process has changed a common header, nothing is said of the memory; `FreeSpoilsExactly` and `MallocSpoilsExactly` cover the first such call only. That two processes may both use a shared block neither had handed out before the fork is not excluded. The pauses of the spin loop, exec and exit are not modelled.
- CleanName.CleanInPlace: the caller leaves room for the "." of an empty path.
- PcLine.FindLine: the rest of sym.c, file names and the include history.
