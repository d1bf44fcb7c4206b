# xv6 file system, kernel protocols, shell and allocator in Dafny

The repository holds two xv6 kernels that share most of their text: `A_xv6_patched` has a lottery scheduler,
`B_xv6_patched` a priority scheduler. This project models what the two share once, from A, and both schedulers.

Code that updates state in place is a class or a method with a loop, proved against a specification function or a
relation between old and new state. What many processes or CPUs do to shared state is a state machine: each action is
what one of them does while it holds the lock that protects the state (or one access to a shared word, for the spin
lock itself), and the theorems are about every run, that is every sequence of enabled actions from an initial state.
Some state components are read by no action and exist to state properties; the comments say which.

| file | what it models |
|---|---|
| `Bytes.dfy`, `FsImage.dfy`, `DiskInode.dfy` | disk blocks, words and bitmap bits; an image of a file system with its invariant; inode records |
| `FileWrite.dfy`, `FileTruncate.dfy`, `FileSystem.dfy` | `fs.c`: block allocation, files as byte sequences |
| `FullDisk.dfy` | a full image, on which `balloc` overruns |
| `Directory.dfy`, `DirectoryOps.dfy` | `fs.c`, `string.c`, `sysfile.c`: directories as finite maps |
| `SysFile.dfy`, `Paths.dfy` | `create`, `sys_link`, `sys_unlink` and `namex` over the bytes of the file system |
| `Mkfs.dfy`, `FlatImage.dfy` | `mkfs.c`: how an image comes to satisfy the invariant, and to be a tree |
| `BufferCache.dfy`, `LruRing.dfy` | `bio.c` and the queue of `ide.c` |
| `LinkCounts.dfy`, `FileTree.dfy` | link counts over every interleaving of directory operations, and on the disk |
| `InodeCache.dfy`, `InodeLife.dfy`, `FileRefs.dfy` | `fs.c`, `sysfile.c`, `file.c`: lives of inodes, open files |
| `Pipe.dfy` | `pipe.c` with `sleep` and `wakeup` |
| `Processes.dfy`, `PriorityScheduler.dfy`, `LotteryScheduler.dfy`, `Spinlock.dfy` | `proc.c` of both kernels, `spinlock.c` |
| `Vm.dfy`, `Memory.dfy`, `CopyOut.dfy` | `kalloc.c`, `vm.c`, `growproc`: one address space, all of them, and writing into one |
| `Umalloc.dfy` | `umalloc.c` |
| `Shell.dfy`, `ShellParser.dfy` | the parser of `sh.c`: its routines as functions, and as they run |
| `ShellGrammar.dfy`, `ShellRoundTrip.dfy`, `ShellAppend.dfy` | the language it accepts, printing and reading back, and `>>` |
| `Grep.dfy` | the matcher of `grep.c` |

## How the parts meet

The central invariant of the file system is `FsImage.Inv`: the set bits of the bitmap are exactly the metadata blocks and
the blocks that inodes own, no block has two owners, every clear block is all zeros, a file has no holes, and the bytes
of its last block beyond its length are zero. `balloc` never zeroes a block, so both `bmap`'s fresh indirect block and
`dirlookup`'s scan past `dp->size` rest on it. `mkfs` establishes it (`Mkfs.Builder.Balloc`), every operation of
`Fs.FileSystem` keeps it, and reads and writes refine a byte sequence per inode, directories a finite map per directory.

`LinkCounts` states the link counts over finite maps, for calls that interleave. `FileTree` carries them down to the disk:
what the methods of `SysFile` ensure of an image is a step of `LinkCounts`, so after any run of calls the link count in
each inode record is the number of directory entries, as bytes, that name it. The run can start from what `mkfs` writes
(`FlatImage.MakeImage`), and `Paths.Namex` is the lookup that goes before each call.

`BufferCache` says why a kernel may look at blocks this way: whoever holds a buffer sees what was last written to its
sector. `InodeCache` holds for calls of `iget` with any number. `InodeLife` says which calls are safe, and that exactly the
others can end in a panic or in freeing an inode that is referred to; `LinkCounts` shows that a number found in a linked
directory is that of an inode with links, which is safe. `FileRefs` says when `fileclose` closes a pipe end, which is when
`Pipe` sees its close.

## Where the code falls short

Each of these is stated with the exact condition under which the code does what one would expect.

- `balloc` looks at whole bitmap blocks: with no block free it can return one past the end (`Fs.BallocInRangeIff`,
  `FullDisk.BallocOverruns`).
- `mkfs` rounds a directory size up by a whole block when it is a multiple of 512 already, which leaves a hole
  (`Mkfs.RoundUpIff`).
- A writer that leaves `pipewrite` because it was killed wakes no reader (`Pipe.StepKeepsAlways`, `Pipe.ReaderLeftAsleep`).
- `create` and `sys_link` accept a parent that has been removed (`LinkCounts.ExactIff`, `LinkCounts.LostFile`), and do not
  check a link count against the range of a short (`FileTree.StepTreeIff`).
- The ".." of a removed directory may name an inode that is free or about to be. `iget` of such a number leads to the panic
  "ilock: no type", or to freeing an inode that another process has just got (`InodeLife.SafeIff`,
  `InodeLife.StaleNumber`); a path leads there only by such a ".." (`Paths.NoTypeIff`, `LinkCounts.DanglingParent`).
- `malloc` asks `sbrk` for a negative or a wrapped number of bytes from 0x7FFFFFF1 on (`Umalloc.RequestIff`).
- `random()` multiplies by an even number and returns 0 from its 31st call on, so that the lottery is won by the first
  RUNNABLE slot every time (`LotteryScheduler.RandomDiesOut`, `LotteryScheduler.FirstSlotWins`). Before that it yields 15
  bits, so that no more than 32768 tickets could win even if it took all values (`LotteryScheduler.DrawnIff`,
  `LotteryScheduler.SecondNeverWins`). The tickets are numbered each once only while they fit in an int
  (`LotteryScheduler.PartitionIff`).
- `kill` takes any slot with the pid, also an UNUSED one, as `kill(0)` does, and the next child in that slot starts out
  killed (`Processes.StepClean`, `Processes.KilledAtBirth`). A kill between the test of `killed` in `pipewrite` or `piperead` and
  the `sleep` after it does not wake the process (`Pipe.StepCaught`).
- `setupkvm` loses the pages it took when it fails (`Vm.Machine.Setupkvm`, `Memory.System.Setupkvm`).
- `uva2ka` uses the null pointer that `walkpgdir` returns for addresses without a page table (`CopyOut.Uva2ka`).
- `growproc` that shrinks to exactly 0 frees the pages and reports failure; one that would shrink below 0 does nothing
  and reports success, if there is any memory (`Vm.Machine.Growproc`).

## Model

| member | source | states |
|---|---|---|
| Bytes.DecodeEncode32 | A_xv6_patched/include/fs.h:16-20 | reading back a little-endian 32-bit word of the disk format gives what was stored |
| Bytes.BitOfSetBit | A_xv6_patched/kernel/fs.c:65-67 | setting one bit of a bitmap block leaves all others, and clearing it again undoes it |
| FsImage.TakeKeepsInv | A_xv6_patched/kernel/fs.c:52-76 | setting a clear in-range bit keeps the whole invariant (bitmap exact, free blocks zero, owners disjoint), uses one free block and changes no file |
| FsImage.StoreDirectKeepsInv | A_xv6_patched/kernel/fs.c:325-328 | hooking a block that balloc just gave into a direct slot keeps the invariant and every file's bytes: a fresh block is all zeros |
| FsImage.StoreEntryKeepsInv | A_xv6_patched/kernel/fs.c:336-341 | the same for an entry of an indirect block that exists |
| FsImage.StoreFirstEntryKeepsInv | A_xv6_patched/kernel/fs.c:334-341 | the same for a fresh indirect block with its first entry: the block read as indirect has no stale entries |
| FsImage.MapDirect | A_xv6_patched/kernel/fs.c:325-328 | a bmap that allocates a direct block extends the file's blocks by exactly that one, for one free block |
| FsImage.MapEntry | A_xv6_patched/kernel/fs.c:330-343 | likewise for an indirect entry |
| FsImage.MapFirstEntry | A_xv6_patched/kernel/fs.c:330-343 | likewise for the first indirect entry, for two free blocks |
| FsImage.WriteDataKeepsInv | A_xv6_patched/kernel/fs.c:438-444 | storing bytes inside a mapped block keeps the invariant |
| FsImage.WriteDataBytes | A_xv6_patched/kernel/fs.c:438-444 | it changes exactly those bytes of that file, and no byte of any other |
| FsImage.DetachKeepsInv | A_xv6_patched/kernel/fs.c:353-380 | seen as if an inode under truncation had no blocks, the invariant holds |
| FsImage.FreeKeepsInv | A_xv6_patched/kernel/fs.c:78-97 | zeroing a detached block and clearing its bit keeps the invariant; its bit was set |
| DiskInode.InodeRoundTrip | A_xv6_patched/kernel/fs.c:170-187 | the inode record iupdate stores is the one ilock reads back, and the other records of the sector stay |
| DiskInode.UpdateSyncs | A_xv6_patched/kernel/fs.c:170-187 | after iupdate the records on disk agree with the in-core ones again |
| FileWrite.OverwriteAt | A_xv6_patched/kernel/fs.c:420-451 | what the contents after writei are, byte by byte: the source from off on, the old contents elsewhere |
| FileWrite.WriteStep | A_xv6_patched/kernel/fs.c:438-444 | one turn of writei's loop extends the written prefix by its chunk, whatever the alignment |
| FileWrite.WrittenBytes | A_xv6_patched/kernel/fs.c:420-451 | once all chunks are written the file is the old contents overwritten at off, and every other file is as before |
| FileWrite.SetRecordKeepsInv | A_xv6_patched/kernel/fs.c:446-449 | changing fields of an inode record, but not its addresses, keeps the invariant and all bytes |
| FileTruncate.TruncateStep | A_xv6_patched/kernel/fs.c:359-376 | one turn of itrunc's loops: the slot is empty, or its block is owned, in range and marked, and is returned |
| FileTruncate.AllGone | A_xv6_patched/kernel/fs.c:353-380 | when the loops end exactly the blocks the inode owned have left the owned set |
| FileTruncate.TruncateEnd | A_xv6_patched/kernel/fs.c:378-380 | with size 0 the image is consistent again, every other file is as before, and the free count has grown by exactly the blocks owned |
| Fs.FirstClearIsFirst | A_xv6_patched/kernel/fs.c:62-74 | the specification of balloc's scan: the least clear bit, or none |
| Fs.FirstClearBit | A_xv6_patched/kernel/fs.c:64-72 | the inner loop finds the first clear bit of a bitmap block |
| Fs.BallocInRangeIff | A_xv6_patched/kernel/fs.c:62-74 | balloc's result is a block of the file system if and only if some bit in range is clear |
| Fs.FullDiskOverruns | A_xv6_patched/kernel/fs.c:64-70 | with no block free and a size that is no multiple of BPB the result is block `size`, one past the end |
| FullDisk.FullQuiet | A_xv6_patched/kernel/fs.c:64-70 | an image of mkfs's size that satisfies the invariant and whose inode records are on disk, so that a kernel can mount it, and whose files own all data blocks (they are in no directory) |
| FullDisk.BallocOverruns | A_xv6_patched/kernel/fs.c:64-70 | mounted, its balloc hands out block 1024 of 1024 |
| Fs.FileSystem.Mount | A_xv6_patched/kernel/fs.c:235-265 | the in-core records read from a consistent image give a consistent file system |
| Fs.FileSystem.Readsb | A_xv6_patched/kernel/fs.c:27-36 | returns the geometry on disk |
| Fs.FileSystem.Balloc | A_xv6_patched/kernel/fs.c:52-76 | returns the first clear bit of the bitmap blocks, marks exactly it, and panics only if all are set; it zeroes nothing |
| Fs.FileSystem.Bfree | A_xv6_patched/kernel/fs.c:78-97 | the block is zeroed and unmarked, nothing else changes |
| Fs.FileSystem.Bmap | A_xv6_patched/kernel/fs.c:317-347 | returns the block of the slot, allocating it when it is missing, with the invariant and all file bytes kept |
| Fs.FileSystem.Iupdate | A_xv6_patched/kernel/fs.c:170-187 | stores one record in its sector and nothing else |
| Fs.FileSystem.Readi | A_xv6_patched/kernel/fs.c:393-418 | returns -1 for an offset past the end or an overflowing range, else exactly content[off..min(off+n,size)], changing nothing |
| Fs.FileSystem.WriteBlocks | A_xv6_patched/kernel/fs.c:438-444 | the whole loop, across direct and indirect blocks and any alignment |
| Fs.FileSystem.Writei | A_xv6_patched/kernel/fs.c:420-451 | returns -1 as the code does, else stores min(n, MAXFILE*BSIZE-off) bytes at off, extends the size if needed, leaves every other file's contents and the invariant intact, and says how many free blocks it used |
| Fs.FileSystem.ItruncDirect | A_xv6_patched/kernel/fs.c:359-364 | the loop over direct blocks |
| Fs.FileSystem.ItruncIndirect | A_xv6_patched/kernel/fs.c:366-376 | the loop over the indirect block, and the block itself |
| Fs.FileSystem.Itrunc | A_xv6_patched/kernel/fs.c:349-380 | gives back exactly what the inode owned; other files unchanged; invariant kept |
| Fs.FileSystem.FreeInode | A_xv6_patched/kernel/fs.c:285-298 | iput's reclaiming: the inode is free and empty and all its blocks are free again |
| Fs.FileSystem.Ialloc | A_xv6_patched/kernel/fs.c:145-168 | takes the first free inode number, with a cleared record of the given type; panics only if there is none |
| Directory.KeyIs | A_xv6_patched/kernel/fs.c:455-459 | two names are one to a directory if they agree in their key: the longest prefix of at most 14 bytes without a NUL |
| Directory.Namecmp | A_xv6_patched/kernel/fs.c:455-459 | equal exactly for names with the same key: the bytes before a NUL, at most 14 |
| Directory.Strncpy | A_xv6_patched/kernel/string.c:64-75 | the stored name has the key of the source name |
| Directory.DecodeEncode | A_xv6_patched/kernel/fs.c:517-518 | a directory entry reads back as stored |
| Directory.DirMapIff | A_xv6_patched/kernel/fs.c:461-493 | the map a directory stands for contains a name exactly when some live entry has its key, with that entry's number |
| Directory.PutInsert | A_xv6_patched/kernel/fs.c:509-522 | storing an entry with a new name in an unused slot inserts it in the map and keeps names unique |
| Directory.PutRemove | A_xv6_patched/kernel/sysfile.c:198-200 | zeroing a live entry removes its name from the map and keeps names unique |
| DirectoryOps.PastEnd | A_xv6_patched/kernel/fs.c:474-478 | entries between dp->size and the end of the last block, which the scan also visits, are zero |
| DirectoryOps.FindInBlock | A_xv6_patched/kernel/fs.c:476-489 | the scan of one block finds its first entry with the name |
| DirectoryOps.Dirlookup | A_xv6_patched/kernel/fs.c:461-493 | lookup in the finite map, with the offset of the live entry; finds nothing past the size |
| DirectoryOps.FindUnused | A_xv6_patched/kernel/fs.c:509-515 | the first unused slot, or the end |
| DirectoryOps.Dirlink | A_xv6_patched/kernel/fs.c:495-523 | insert if absent: -1 and no change if the name is there, else exactly one name added; other files unchanged |
| DirectoryOps.RemoveEntry | A_xv6_patched/kernel/sysfile.c:198-200 | the zeroing write of sys_unlink removes exactly that name |
| DirectoryOps.Isdirempty | A_xv6_patched/kernel/sysfile.c:148-162 | true exactly when all entries from the third on are unused |
| DirectoryOps.EmptyDirMap | A_xv6_patched/kernel/sysfile.c:148-162 | which, for a directory with its two dots, is when the map holds nothing else |
| DirectoryOps.PutStays | A_xv6_patched/kernel/fs.c:509-522 | dirlink and sys_unlink leave all other entries in their slots |
| SysFile.Link | A_xv6_patched/kernel/sysfile.c:118-145 | fails, with every record and file as before (the undo path), exactly for a directory, when the new path's directory is not found, or for a name in use; else dp gains name -> ip, ip one link, and nothing else changes |
| SysFile.Undone | A_xv6_patched/kernel/sysfile.c:140-145 | the record change taken back leaves no trace |
| SysFile.Unlink | A_xv6_patched/kernel/sysfile.c:174-211 | succeeds exactly when the name is there, is not a dot, and names no directory with entries of its own; else nothing changes |
| SysFile.UnlinkSteps | A_xv6_patched/kernel/sysfile.c:198-208 | the entry, the parent's count and the inode's count together: the map loses the name, ip one link, dp one if ip is a directory; all other inodes and ip's contents are as before |
| SysFile.OnlyDotsIff | A_xv6_patched/kernel/sysfile.c:148-162 | isdirempty's answer means that the directory's map holds the dots and nothing else |
| SysFile.MakeDots | A_xv6_patched/kernel/sysfile.c:242-248 | a new directory's map is exactly its two dots, in its first two slots; the panic cannot happen; the parent gains a link and at most one block is used |
| SysFile.Create | A_xv6_patched/kernel/sysfile.c:224-254 | an existing name gives its inode only for file and file; panics exactly when no inode is free; else a free inode gets the type, one link and, as a directory, its dots, and the parent's map gains the name |
| SysFile.AllDone | A_xv6_patched/kernel/sysfile.c:231-254 | the steps of create together, with every inode but the new one and the parent unchanged |
| FileTree.LinkedIff | A_xv6_patched/kernel/sysfile.c:188-211 | a directory has not been removed if and only if it has links |
| FileTree.CountsExact | A_xv6_patched/kernel/sysfile.c:109-255 | in the disk image of a tree, nlink is the number of entries other than "." that name the inode in directories with links |
| FileTree.UnlinkIsSafe | A_xv6_patched/kernel/sysfile.c:190-191 | in a tree, all that a directory names has links: sys_unlink's panic is out of reach |
| FileTree.CreateRefines | A_xv6_patched/kernel/sysfile.c:213-255 | create on the disk is create of LinkCounts on the tree |
| FileTree.LinkRefines | A_xv6_patched/kernel/sysfile.c:109-145 | sys_link on the disk is its two steps on the tree |
| FileTree.UnlinkRefines | A_xv6_patched/kernel/sysfile.c:164-212 | sys_unlink on the disk is its two steps on the tree |
| FileTree.FreeRefines | A_xv6_patched/kernel/fs.c:285-298 | so is iput of an inode without links |
| FileTree.NamesBound | A_xv6_patched/kernel/fs.c:495-523 | no inode has more names than there are entries in the data blocks of the disk |
| FileTree.StepTreeIff | A_xv6_patched/kernel/sysfile.c:109-255 | create, sys_link, sys_unlink, freeing and writing leave a tree if and only if a name is entered only into a directory that has links, and no count goes past 32767 |
| FileTree.DeadDir | A_xv6_patched/kernel/sysfile.c:241-248 | the subtle case of it: a directory made in a removed one, which gets a link but no name |
| FileTree.RunTreesIff | A_xv6_patched/kernel/sysfile.c:109-255 | the same for whole runs, on images of any size |
| FileTree.RunCountsExact | A_xv6_patched/kernel/sysfile.c:109-255 | after every such run, nlink on the disk, a signed short, is exact for every inode in use, and unlinking is safe |
| FileTree.SmallDiskFits | A_xv6_patched/kernel/sysfile.c:109-255 | on an image as small as mkfs's no count can overflow |
| FileTree.WriteIsChange | A_xv6_patched/kernel/fs.c:420-451 | writei to a file is one of the steps of such a run |
| Paths.SplitJoin | A_xv6_patched/kernel/fs.c:527-563 | names joined by slashes are split into the same names |
| Paths.Skipelem | A_xv6_patched/kernel/fs.c:539-563 | takes off the first element, cut to 14 bytes, and leaves no slash in front; the rest is empty exactly when it was the last |
| Paths.StaysInTree | A_xv6_patched/kernel/fs.c:567-600 | a lookup from a linked directory, also of "." or "..", ends at an inode in use, and if that is a directory, at a linked one |
| Paths.OnlyDotDot | A_xv6_patched/kernel/fs.c:567-600 | only ".." of a removed directory can name an inode that is not in use |
| Paths.FromTheTree | A_xv6_patched/kernel/fs.c:567-600 | no path from a linked directory comes across a free inode |
| Paths.NoTypeIff | A_xv6_patched/kernel/fs.c:567-600 | from any inode in use, ilock's panic "no type" is met if and only if the path goes on after ".." in a removed directory whose parent has been freed |
| Paths.ResolveLast | A_xv6_patched/kernel/fs.c:602-613 | looking up a path is looking up its last element where the others lead, so that namei and nameiparent agree |
| Paths.Namex | A_xv6_patched/kernel/fs.c:567-600 | finds the inode that the elements lead to, or the directory of the last one with its name; fails exactly when there is none, panics exactly when the lookup meets a free inode; the current directory may have been removed |
| Mkfs.EmptyImageInv | A_xv6_patched/tools/mkfs.c:67-95 | a zeroed image with its superblock and bitmap satisfies the invariant |
| Mkfs.UsedBitsSet | A_xv6_patched/tools/mkfs.c:310-324 | the bitmap block mkfs writes has exactly its first `used` bits set |
| Mkfs.Builder.constructor | A_xv6_patched/tools/mkfs.c:67-95 | the image starts consistent, with every block from freeblock on free |
| Mkfs.Builder.MapBlock | A_xv6_patched/tools/mkfs.c:342-364 | iappend's block allocation is bmap's, taking blocks in order |
| Mkfs.Builder.Ialloc | A_xv6_patched/tools/mkfs.c:296-308 | inode numbers are given in order, with one link and no contents |
| Mkfs.Builder.Iappend | A_xv6_patched/tools/mkfs.c:328-375 | appends exactly the bytes; other files unchanged; freeblock counts the blocks used |
| Mkfs.Builder.FixDirSize | A_xv6_patched/tools/mkfs.c:188-193 | rounds a directory's size up; the image stays consistent if and only if the size was no multiple of 512 |
| Mkfs.RoundUpIff | A_xv6_patched/tools/mkfs.c:188-193 | the same as a fact about images |
| Mkfs.Builder.Balloc | A_xv6_patched/tools/mkfs.c:310-324 | with the bitmap written the image on disk satisfies the whole invariant: it can be mounted |
| FlatImage.AddFile | A_xv6_patched/tools/mkfs.c:173-179 | a host file read in pieces of 512 bytes becomes an inode with the same bytes and one link |
| FlatImage.AddEntry | A_xv6_patched/tools/mkfs.c:182-184 | one entry more at the end of the directory |
| FlatImage.PaddedMap | A_xv6_patched/tools/mkfs.c:188-193 | the zeroes that rounding adds are unused entries: names stay unique and the map is the same |
| FlatImage.FlatTree | A_xv6_patched/tools/mkfs.c:97-195 | the finished image is a tree with exact link counts that holds each file under its name |
| FlatImage.AddDir | A_xv6_patched/tools/mkfs.c:97-195 | add_dir on a flat directory makes such an image if and only if the entries do not fill whole blocks |
| FlatImage.MakeImage | A_xv6_patched/tools/mkfs.c:200-236 | mkfs: an image that can be mounted, is a tree, and has exactly the files given |
| BufferCache.BreadKeepsInv | A_xv6_patched/kernel/bio.c:95-105 | calling bread keeps the cache invariant |
| BufferCache.ScanKeepsInv | A_xv6_patched/kernel/bio.c:58-93 | so does one pass of bget, also when it recycles a buffer: no sector gets two buffers |
| BufferCache.ChangeKeepsInv | A_xv6_patched/kernel/bio.c:13-22 | so does a store of the owner into the data |
| BufferCache.BwriteKeepsInv | A_xv6_patched/kernel/bio.c:107-115 | so does bwrite |
| BufferCache.InterruptKeepsInv | A_xv6_patched/kernel/ide.c:89-118 | so does the disk interrupt |
| BufferCache.TestKeepsInv | A_xv6_patched/kernel/ide.c:147-151 | so does a turn of iderw's loop |
| BufferCache.ReleaseKeepsInv | A_xv6_patched/kernel/bio.c:117-137 | so does brelse |
| BufferCache.BreadReturnsLastWrite | A_xv6_patched/kernel/bio.c:95-115 | in every interleaving, whoever bread returned to owns the buffer alone and, until it changes it, sees what was last bwritten to the sector it asked for, which is what is on disk |
| BufferCache.FreeBuffersMatchDisk | A_xv6_patched/kernel/bio.c:13-22 | a buffer that is not busy is not dirty, and equals the disk if valid |
| BufferCache.NoLostWakeup | A_xv6_patched/kernel/bio.c:75-77 | a process asleep in bget waits for an owner of the buffer, and one asleep in iderw for a request still in the queue |
| BufferCache.NoPanic | A_xv6_patched/kernel/ide.c:128-131 | the panics of bwrite, brelse and iderw about flags are out of reach |
| BufferCache.OrderCovers | A_xv6_patched/kernel/bio.c:46-55 | an order of NBUF different buffers lists every buffer |
| BufferCache.NoBuffersIff | A_xv6_patched/kernel/bio.c:62-93 | bget panics if and only if every buffer is busy and none is for the sector |
| BufferCache.OutOfBuffers | A_xv6_patched/kernel/bio.c:62-93 | a run that comes to this panic: as many processes as there are buffers have locked one each |
| BufferCache.LastFree | A_xv6_patched/kernel/bio.c:83-84 | the backward scan stops at the last buffer of the order that is not busy: all after it are busy |
| BufferCache.TakesTheLast | A_xv6_patched/kernel/bio.c:82-91 | for a sector not cached, bget takes the buffer that every other free buffer precedes in the order |
| BufferCache.OrderIsRecency | A_xv6_patched/kernel/bio.c:34-36 | after any releases, of two buffers the one released later comes first in the order |
| BufferCache.RecyclesOldest | A_xv6_patched/kernel/bio.c:82-91 | in every interleaving, bget recycles the free buffer released longest ago |
| BufferCache.NewestLast | A_xv6_patched/kernel/bio.c:117-137 | the buffer brelse has just moved to the front is recycled only if all others are busy |
| BufferCache.ServedInTurn | A_xv6_patched/kernel/ide.c:95-111 | behind i requests of the disk queue a process is woken, with its transfer done, by the i + 1st interrupt, whatever is asked for in the meantime |
| BufferCache.WokenWithinNbuf | A_xv6_patched/kernel/ide.c:137-151 | in every interleaving, NBUF interrupts wake every process that waits for the disk |
| LruRing.Unlink | A_xv6_patched/kernel/bio.c:126-127 | the two assignments that take a node out leave a ring of the others |
| LruRing.LinkFirst | A_xv6_patched/kernel/bio.c:128-131 | the four that put it after the head leave a ring with it first |
| LruRing.Bcache.Binit | A_xv6_patched/kernel/bio.c:39-56 | builds a ring that holds every buffer once |
| LruRing.Bcache.Lookup | A_xv6_patched/kernel/bio.c:58-93 | the two scans along next and prev do what the protocol's bget does, of which LastFree, TakesTheLast and RecyclesOldest say which buffer it takes |
| LruRing.Bcache.Release | A_xv6_patched/kernel/bio.c:117-137 | brelse's relinking is the protocol's move to the front |
| Umalloc.InsertCanonical | A_xv6_patched/user/umalloc.c:33-42 | coalescing on both sides keeps the list in address order with no two blocks adjacent |
| Umalloc.InsertCovers | A_xv6_patched/user/umalloc.c:33-42 | the units of the list afterwards are those before and those of the block |
| Umalloc.CanonicalUnique | A_xv6_patched/user/umalloc.c:24-44 | such a list is determined by the set of units it covers |
| Umalloc.StopsAtGap | A_xv6_patched/user/umalloc.c:30-32 | at any node of the ring, free's search stops if and only if the block belongs right after that node |
| Umalloc.RequestIff | A_xv6_patched/user/umalloc.c:54-69 | malloc asks for room for nbytes, and sbrk for as many bytes as morecore records, if and only if nbytes <= 0x7FFFFFF0 |
| Umalloc.FreeUndoesMalloc | A_xv6_patched/user/umalloc.c:24-90 | freeing what malloc took without sbrk restores the list exactly |
| Umalloc.HistoryDoesNotMatter | A_xv6_patched/user/umalloc.c:24-90 | with the same blocks allocated and the same memory from sbrk the free list is the same |
| Umalloc.RunIsInOneBlock | A_xv6_patched/user/umalloc.c:61-69 | adjacent free units are in one block, so the region morecore frees lies in a block big enough |
| Umalloc.Heap.Search | A_xv6_patched/user/umalloc.c:30-32 | from any freep the loop ends, at the one gap for the block |
| Umalloc.FitUnique | A_xv6_patched/user/umalloc.c:74-75 | from a given freep there is one block that a search for n units comes to, and one node before it |
| Umalloc.TwoMallocs | A_xv6_patched/user/umalloc.c:63-90 | of two mallocs in a row from the list, the second takes the first block big enough on from the node before the one the first took it from |
| Umalloc.Heap.Free | A_xv6_patched/user/umalloc.c:24-44 | the block's units become free, nothing else changes hands, the data of other blocks is untouched, and freep is left at the node before the gap |
| Umalloc.Heap.Morecore | A_xv6_patched/user/umalloc.c:46-61 | adds exactly the region sbrk gave, after which some block is big enough |
| Umalloc.Heap.Malloc | A_xv6_patched/user/umalloc.c:63-90 | ends after at most one call of morecore; takes the end of the first block after freep that is big enough, with freep left at the node before it; returns 0 exactly when none is and sbrk fails; free and allocated blocks stay disjoint and together are what sbrk gave; all programs' data is untouched |
| Pipe.CountersTell | A_xv6_patched/kernel/pipe.c:82-82 | for any value of the wrapping counters, full means 512 bytes and empty none |
| Pipe.PutAppends | A_xv6_patched/kernel/pipe.c:90-90 | storing a byte appends it to the contents |
| Pipe.GetRemoves | A_xv6_patched/kernel/pipe.c:113-113 | taking a byte removes the oldest |
| Pipe.PipePage.Store | A_xv6_patched/kernel/pipe.c:81-91 | pipewrite between two sleeps appends its next bytes, up to the end or until the pipe is full |
| Pipe.PipePage.Fetch | A_xv6_patched/kernel/pipe.c:110-114 | piperead takes min(n, count) of the oldest bytes, in order |
| Pipe.StepKeepsAlways | A_xv6_patched/kernel/pipe.c:57-118 | every step of every process, and a kill at any point, keeps order, bounds and the writers' wakeups; and the readers' if and only if it is not a writer giving up while a reader sleeps |
| Pipe.DeliveredIsPrefix | A_xv6_patched/kernel/pipe.c:75-118 | in every interleaving the bytes delivered are a prefix of those accepted, and 0 <= nwrite - nread <= 512 modulo 2^32 |
| Pipe.SleepingWriters | A_xv6_patched/kernel/pipe.c:82-89 | with the lock free a sleeping writer implies a full pipe with its reading end open |
| Pipe.SleepingReaders | A_xv6_patched/kernel/pipe.c:103-109 | absent such writers, a sleeping reader implies an empty pipe with its writing end open, and no sleeping writer |
| Pipe.ReaderLeftAsleep | A_xv6_patched/kernel/pipe.c:83-86 | an interleaving in which a killed writer leaves a reader asleep beside 512 bytes |
| Pipe.KilledDoNotSleep | A_xv6_patched/kernel/pipe.c:82-109 | unless it is killed between its test of `killed` and its sleep, a killed process does not sleep on the pipe |
| Pipe.StepCaught | A_xv6_patched/kernel/pipe.c:83-108 | such a kill is the one step that leaves a killed process asleep there |
| Pipe.ReadReturns | A_xv6_patched/kernel/pipe.c:97-118 | in every interleaving, a read returns fewer than n bytes only if it emptied the pipe, 0 only at the end of file, and -1 only killed on an empty pipe that can be written to |
| Pipe.WriteReturns | A_xv6_patched/kernel/pipe.c:75-95 | a write returns all of its bytes, or -1 on a full pipe that nobody reads or where it was killed |
| Pipe.CloseShuts | A_xv6_patched/kernel/pipe.c:57-73 | a close shuts the end it is told to, not the other, and leaves nobody asleep who waits for that end |
| Pipe.ReadsTheEnd | A_xv6_patched/kernel/pipe.c:103-118 | a reader of an empty pipe whose writing end is closed reads 0 bytes, killed or not |
| Pipe.CloseEndsReads | A_xv6_patched/kernel/pipe.c:61-63 | a reader asleep on an empty pipe reads 0 bytes once the writing end is closed |
| Pipe.WritesToNobody | A_xv6_patched/kernel/pipe.c:81-94 | with the reading end closed, a write fails exactly if there is not room for all of it |
| ShellRoundTrip.ParsePrint | A_xv6_patched/user/sh.c:328-446 | every command tree of proper words, at most 9 per command, is read back from its printed line |
| ShellRoundTrip.PrintParsed | A_xv6_patched/user/sh.c:328-446 | printing what was parsed and parsing it again gives the same tree, for every line that parses |
| ShellRoundTrip.ParsedIff | A_xv6_patched/user/sh.c:328-446 | the trees parsecmd can return are exactly those |
| ShellRoundTrip.LineGood | A_xv6_patched/user/sh.c:344-359 | the words of a parsed line are maximal words of it, at most 9 per command |
| ShellRoundTrip.LineBack | A_xv6_patched/user/sh.c:344-359 | parseline reads back what is printed at its level and stops right after it |
| ShellRoundTrip.PipeBack | A_xv6_patched/user/sh.c:361-372 | likewise parsepipe |
| ShellRoundTrip.ExecBack | A_xv6_patched/user/sh.c:415-446 | likewise parseexec, for plain commands and blocks |
| ShellRoundTrip.RedirsBack | A_xv6_patched/user/sh.c:374-397 | likewise parseredirs |
| ShellGrammar.LexemesSpell | A_xv6_patched/user/sh.c:265-308 | the tokens of a line spell it, up to blanks: none is lost, split or made up |
| ShellGrammar.ParseIff | A_xv6_patched/user/sh.c:327-446 | parsecmd gives a line the tree c if and only if the grammar of commands, blocks, pipelines and lists derives c from all of its tokens |
| ShellGrammar.RejectIff | A_xv6_patched/user/sh.c:336-446 | the syntax panics (leftovers, missing parenthesis, file or word, too many arguments) are met exactly on the lines outside the grammar |
| ShellGrammar.OneTree | A_xv6_patched/user/sh.c:344-446 | the grammar is unambiguous: no line has two trees |
| ShellGrammar.LineIn | A_xv6_patched/user/sh.c:344-359 | what parseline reads is in the grammar, token by token |
| ShellGrammar.LineFrom | A_xv6_patched/user/sh.c:344-359 | what is in the grammar parseline reads, and stops right after it |
| ShellAppend.SameToken | A_xv6_patched/user/sh.c:288-294 | with the second '>' of a ">>" made a blank, the tokens are the same but for '+' |
| ShellAppend.AppendIsOutput | A_xv6_patched/user/sh.c:380-396 | for every line and every ">>" in it, parsecmd makes of ">>" what it makes of ">": the same tree, or the same panic |
| ShellParser.Parser.GetToken | A_xv6_patched/user/sh.c:265-308 | the method on the line buffer returns the token of the specification and moves the cursor past it |
| ShellParser.Parser.Peek | A_xv6_patched/user/sh.c:310-320 | likewise peek |
| ShellParser.Parser.ParseRedirs | A_xv6_patched/user/sh.c:374-397 | the loop does what the recursive specification says, and ends |
| ShellParser.Parser.ParseArgs | A_xv6_patched/user/sh.c:429-445 | likewise the loop of parseexec; argv never overflows, not even for the closing NULL |
| ShellParser.Parser.ParseExec | A_xv6_patched/user/sh.c:415-446 | likewise the whole of parseexec |
| ShellParser.Parser.ParseBlock | A_xv6_patched/user/sh.c:399-413 | likewise |
| ShellParser.Parser.ParsePipe | A_xv6_patched/user/sh.c:361-372 | likewise |
| ShellParser.Parser.ParseLine | A_xv6_patched/user/sh.c:344-359 | likewise; the recursion ends because the cursor advances or the grammar level drops |
| ShellParser.Parser.ParseCmd | A_xv6_patched/user/sh.c:327-342 | returns the specified tree, with every word of it NUL-terminated in place and intact |
| ShellParser.Parser.Nulterminate | A_xv6_patched/user/sh.c:448-490 | stores NULs at exactly the ends of the tree's words |
| ShellParser.CutsApart | A_xv6_patched/user/sh.c:448-490 | no such NUL falls inside another word |
| Grep.HereIff | A_xv6_patched/user/grep.c:83-95 | matchhere is true exactly when the text starts with a string the pattern denotes, ending there if anchored |
| Grep.StarIff | A_xv6_patched/user/grep.c:97-105 | matchstar tries exactly the repetitions there are |
| Grep.RunHere | A_xv6_patched/user/grep.c:83-95 | matchhere as it runs |
| Grep.RunStar | A_xv6_patched/user/grep.c:97-105 | matchstar's loop ends and agrees |
| Grep.Match | A_xv6_patched/user/grep.c:71-81 | match is true exactly when the text holds a denoted string where the anchors allow |
| PriorityScheduler.Scheduler.Highest | B_xv6_patched/kernel/proc.c:269-275 | the least priority number that can run; the sentinel 201 exactly when nothing can |
| PriorityScheduler.TwoLoops | B_xv6_patched/kernel/proc.c:277-297 | the two scans together pick the cyclic successor of last_sched |
| PriorityScheduler.Scheduler.Pick | B_xv6_patched/kernel/proc.c:265-306 | a round picks that process, of least priority number, whenever something can run |
| PriorityScheduler.Scheduler.Alloc | B_xv6_patched/kernel/proc.c:35-48 | a new process has priority 50 |
| PriorityScheduler.Scheduler.Fork | B_xv6_patched/kernel/proc.c:128-164 | a child has its parent's priority |
| PriorityScheduler.Scheduler.SetPriority | B_xv6_patched/kernel/sysproc.c:82-107 | priorities stay in 0..200, and a process that lowers its own urgency gives up the CPU |
| PriorityScheduler.CloserEachRound | B_xv6_patched/kernel/proc.c:277-301 | a round that does not pick q brings the turn nearer to q |
| PriorityScheduler.PickedWithinNproc | B_xv6_patched/kernel/proc.c:259-314 | whatever others do meanwhile, a process that can run, with nothing more urgent, is picked within NPROC rounds |
| LotteryScheduler.OneWinner | A_xv6_patched/kernel/proc.c:334-353 | with each number in range exactly one slot wins |
| LotteryScheduler.ShareSize | A_xv6_patched/kernel/proc.c:334-353 | a slot wins with as many numbers as it has tickets |
| LotteryScheduler.PartitionIff | A_xv6_patched/kernel/proc.c:322-353 | the numbers from 0 below the total are the tickets of the RUNNABLE processes, each once, if and only if the tickets fit in an int |
| LotteryScheduler.DrawnIff | A_xv6_patched/kernel/proc.c:14-20 | random() keeps 15 bits: if it took all their values, every ticket of every process could be drawn if and only if there are 32768 tickets at most |
| LotteryScheduler.SecondNeverWins | A_xv6_patched/kernel/proc.c:14-20 | of two processes with 32768 tickets each the second never wins |
| LotteryScheduler.NeverDrawn | A_xv6_patched/kernel/proc.c:14-20 | of more than 31 numbers some are drawn by no call of random() at all |
| LotteryScheduler.RandomDiesOut | A_xv6_patched/kernel/proc.c:14-20 | from its 31st call on random() returns 0 |
| LotteryScheduler.FirstSlotWins | A_xv6_patched/kernel/proc.c:322-353 | after that the first RUNNABLE slot wins every lottery |
| LotteryScheduler.Lottery.Round | A_xv6_patched/kernel/proc.c:322-353 | one round of the scheduler holds that lottery, with the int sum as it wraps |
| Processes.Table.Exit | A_xv6_patched/kernel/proc.c:236-251 | exit under the lock does what the step function says |
| Processes.Table.Wait | A_xv6_patched/kernel/proc.c:264-296 | a turn of wait's loop reaps the first zombie child, gives up, or sleeps, exactly when each is due |
| Processes.Table.Alloc | A_xv6_patched/kernel/proc.c:51-63 | the first UNUSED slot, with a new pid |
| Processes.Table.WakeupAll | A_xv6_patched/kernel/proc.c:438-448 | wakes exactly the sleepers on the channel |
| Processes.ExitSleepers | A_xv6_patched/kernel/proc.c:238-251 | after an exit nobody sleeps in wait with a zombie to report or without children |
| Processes.StepKeepsInv | A_xv6_patched/kernel/proc.c:163-297 | every step of fork, exit, wait, kill, sleep and the scheduler keeps the invariant of the table |
| Processes.NoExitMissed | A_xv6_patched/kernel/proc.c:288-295 | in every interleaving a process asleep in wait has a child and no zombie child |
| Processes.ParentsLive | A_xv6_patched/kernel/proc.c:241-248 | every process but init has a parent that is neither UNUSED nor a zombie |
| Processes.ReportedOnce | A_xv6_patched/kernel/proc.c:272-284 | pids in use differ; wait reports only exits, each at most once; an exit not reported still has its zombie |
| Processes.PidsAreInts | A_xv6_patched/kernel/proc.c:59-63 | nextpid and the pids in use are those of a C int as long as the processes made in the run do not count past it |
| Processes.LifeCycle | A_xv6_patched/kernel/proc.c:163-480 | every step takes every process through the states of the kernel's diagram, and in no other way: who runs, sleeps, wakes, ends and is reaped |
| Processes.ForkMakesChild | A_xv6_patched/kernel/proc.c:163-211 | a fork that gets its pages ends with a RUNNABLE child of the caller, under a pid no process has |
| Processes.KilledBy | A_xv6_patched/kernel/proc.c:462-480 | only kill marks a process, and the process is not asleep then; only reaping takes the mark off, and leaves the slot with pid 0 and no parent |
| Processes.ReapedSlot | A_xv6_patched/kernel/proc.c:272-284 | a reaped slot has no pid, no parent and no mark of kill, and its pid is reported |
| Processes.InitClean | A_xv6_patched/kernel/proc.c:101-138 | after userinit no slot that fork can be given is marked killed, and nobody sleeps killed |
| Processes.StepClean | A_xv6_patched/kernel/proc.c:462-480 | slots that fork can be given stay unmarked exactly if the step is not a kill that hits one |
| Processes.ChildrenStartClean | A_xv6_patched/kernel/proc.c:45-63 | in every interleaving without such a kill, a new child is not marked killed |
| Processes.KilledAtBirth | A_xv6_patched/kernel/proc.c:468-471 | after a kill that hits an UNUSED slot, the child that gets the slot is |
| Processes.NoKillLost | A_xv6_patched/kernel/proc.c:288-295 | in every interleaving, nobody sleeps in wait who is killed |
| Spinlock.StepKeepsInv | A_xv6_patched/kernel/spinlock.c:23-63 | every step of acquire and release keeps the invariant |
| Spinlock.MutualExclusion | A_xv6_patched/kernel/spinlock.c:30-37 | in every interleaving at most one CPU owns a lock |
| Spinlock.HoldingIsOwning | A_xv6_patched/kernel/spinlock.c:83-88 | holding() is never true on a CPU that does not own the lock, and outside of acquire and release it is exact |
| Spinlock.PanicsOnlyOnMisuse | A_xv6_patched/kernel/spinlock.c:27-46 | acquire and release panic only when the CPU already holds, or does not hold, the lock; popcli never does when calls are paired |
| Spinlock.NcliCounts | A_xv6_patched/kernel/spinlock.c:95-115 | ncli is the number of locks held and pushcli calls outstanding, with interrupts off while there are any |
| Spinlock.FlagRestored | A_xv6_patched/kernel/spinlock.c:92-115 | from the action that takes ncli of a CPU off 0 to the one that brings it back, whatever this and other CPUs do in between, the interrupt flag ends as it was before the first |
| InodeCache.Icache.Get | A_xv6_patched/kernel/fs.c:189-222 | returns the slot that caches the inode, else the first unused one set up for it |
| InodeCache.DoKeepsInv | A_xv6_patched/kernel/fs.c:145-300 | every step of ialloc, iget of any number, idup, ilock, iunlock and iput keeps the invariant of the table |
| InodeCache.OneSlotEach | A_xv6_patched/kernel/fs.c:198-219 | in every interleaving an inode has at most one slot in use, and ref is the number of references held |
| InodeCache.OneOwner | A_xv6_patched/kernel/fs.c:245-249 | I_BUSY has one owner |
| InodeCache.DropTakesNoLock | A_xv6_patched/kernel/fs.c:294-297 | flags = 0 takes I_BUSY from nobody else, even if ialloc gave the number out again meanwhile |
| InodeCache.NeverBusy | A_xv6_patched/kernel/fs.c:239-288 | in every interleaving "iput busy" is out of reach, and a sleeper in ilock waits for an owner |
| InodeLife.GoodNumbers | A_xv6_patched/kernel/fs.c:567-600 | iget of a number is safe if the inode has links on disk or the caller has a reference to it |
| InodeLife.StepLive | A_xv6_patched/kernel/fs.c:145-300 | as long as all calls of iget are safe, slots in use are for inodes in use |
| InodeLife.FreedOnlyUnused | A_xv6_patched/kernel/fs.c:285-293 | then an inode is truncated and freed only with no links and its one reference being put |
| InodeLife.NeverFails | A_xv6_patched/kernel/fs.c:262-275 | then "ilock: no type" is out of reach |
| InodeLife.SafeIff | A_xv6_patched/kernel/fs.c:189-222 | a call of iget is safe (just marked by this ialloc, or in use, not just marked by another, and not about to be freed) if and only if no run from it, with safe calls, comes to the panic or to freeing an inode with another reference |
| InodeLife.UnsafeFails | A_xv6_patched/kernel/fs.c:189-300 | the run that goes wrong after an unsafe call, for each way of being unsafe |
| InodeLife.StaleNumber | A_xv6_patched/kernel/fs.c:189-300 | a run from the start after which iget is called with the number of a freed inode, and can fail |
| LinkCounts.CreateKeepsInv | A_xv6_patched/kernel/sysfile.c:213-255 | create in a linked directory keeps all counts exact |
| LinkCounts.LinkEnterKeepsInv | A_xv6_patched/kernel/sysfile.c:109-138 | so does entering a second name |
| LinkCounts.RelinkKeepsInv | A_xv6_patched/kernel/sysfile.c:140-145 | so do nlink++, the undo path of sys_link, and the final nlink-- of sys_unlink |
| LinkCounts.UnlinkEnterKeepsInv | A_xv6_patched/kernel/sysfile.c:188-205 | so does removing a name, of a file or of an empty directory |
| LinkCounts.FreeKeepsInv | A_xv6_patched/kernel/fs.c:285-298 | so does freeing an inode without links |
| LinkCounts.ExactIff | A_xv6_patched/kernel/sysfile.c:213-255 | an action leaves the counts exact if and only if it does not enter a name into a directory that has been removed |
| LinkCounts.CountsExact | A_xv6_patched/kernel/sysfile.c:109-255 | in every interleaving that does not, between system calls, nlink is the number of entries other than "." that name the inode in linked directories |
| LinkCounts.UnlinkFindsLinks | A_xv6_patched/kernel/sysfile.c:190-191 | the panic "unlink: nlink < 1" is out of reach |
| LinkCounts.RemovedHasNoLinks | A_xv6_patched/kernel/sysfile.c:192-211 | a removed directory ends with no links, so iput frees it |
| LinkCounts.LostFile | A_xv6_patched/kernel/sysfile.c:220-255 | a file created in a removed directory keeps a link that no linked directory has |
| LinkCounts.DanglingParent | A_xv6_patched/kernel/sysfile.c:164-212 | a run after which a directory in use has a ".." that names a free inode |
| FileRefs.Ftable.Alloc | A_xv6_patched/kernel/file.c:20-36 | the first unused file, with one reference |
| FileRefs.Ftable.Close | A_xv6_patched/kernel/file.c:50-71 | one reference fewer, and what is left to close after the last |
| FileRefs.Fdalloc | A_xv6_patched/kernel/sysfile.c:31-45 | the first free descriptor |
| FileRefs.DoKeepsInv | A_xv6_patched/kernel/sysfile.c:31-96 | every step of open, dup, close, pipe, fork and exit keeps references and pipe ends accounted for |
| FileRefs.CountsDescriptors | A_xv6_patched/kernel/file.c:20-72 | in every interleaving, between system calls, ref is the number of descriptors of all processes that refer to the file |
| FileRefs.NoPanics | A_xv6_patched/kernel/file.c:43-58 | the panics of filedup and fileclose are out of reach |
| FileRefs.PipeFreedOnce | A_xv6_patched/kernel/pipe.c:57-73 | a pipe's page is freed once, exactly when both ends are closed, and not while a file refers to either |
| FileRefs.InodesConserved | A_xv6_patched/kernel/file.c:50-72 | in every interleaving, each reference to an inode that sys_open handed to a file is still kept for the file or was given to iput once |
| FileRefs.AllPutBack | A_xv6_patched/kernel/file.c:68-71 | with all descriptors closed, fileclose has called iput for an inode as often as files were opened for it |
| Vm.PushedLinked | A_xv6_patched/kernel/kalloc.c:49-53 | kfree keeps the list through the pages' first words, and the pages on it overwritten |
| Vm.PoppedLinked | A_xv6_patched/kernel/kalloc.c:64-68 | so does kalloc, and the page it returns is no longer listed |
| CopyOut.FreeBytes | A_xv6_patched/kernel/kalloc.c:46-47 | a page on the free list holds nothing of its past: after the pointer all its bytes are 1 |
| Vm.Machine.Kinit | A_xv6_patched/kernel/kalloc.c:22-32 | after kinit exactly the pages from end to PHYSTOP are free |
| Vm.Machine.Kfree | A_xv6_patched/kernel/kalloc.c:38-54 | the page is free and overwritten, and no other page changes |
| Vm.Machine.Kalloc | A_xv6_patched/kernel/kalloc.c:56-70 | the first free page, with junk in it, or 0 exactly when there is none; no page changes |
| Vm.Machine.Walk | A_xv6_patched/kernel/vm.c:49-72 | the table for the address, or a new zeroed one taken from the free pages; every entry of the space is kept |
| Vm.Machine.MapUser | A_xv6_patched/kernel/vm.c:83-97 | a user page is mapped writable without taking any page, since its table is there |
| Vm.Machine.MapKernel | A_xv6_patched/kernel/vm.c:74-98 | n kernel pages are mapped to themselves, or the free pages ran out |
| Vm.Machine.Setupkvm | A_xv6_patched/kernel/vm.c:133-149 | makes the kernel mapping of 13 pages if and only if 13 are free; with fewer it loses them all |
| Vm.TwelveTables | A_xv6_patched/kernel/vm.c:122-131 | the kernel mapping has twelve page tables, among them the one for all user addresses |
| Vm.UserWritable | A_xv6_patched/kernel/vm.c:69-91 | the words of the directory and of the table for a page of the user have the bits present, writable and user |
| Vm.KernelBits | A_xv6_patched/kernel/vm.c:122-131 | the words for the kernel's pages map each to itself, writable except for the kernel's text, and not for the user |
| Vm.Machine.Allocuvm | A_xv6_patched/kernel/vm.c:226-251 | succeeds exactly when there are pages enough, with zeroed new pages, which the user can write; a failure restores mapping and free pages |
| Vm.Machine.Deallocuvm | A_xv6_patched/kernel/vm.c:253-278 | unmaps and frees exactly the pages in between |
| Vm.Machine.Freevm | A_xv6_patched/kernel/vm.c:280-295 | frees every page of the address space, each once |
| Vm.Machine.Copyuvm | A_xv6_patched/kernel/vm.c:297-326 | succeeds exactly when there are pages enough, with equal bytes in pages that were free and that the user can write; else takes everything back, unless setupkvm failed; only pages that were free are touched |
| Memory.TurnKeeps | A_xv6_patched/kernel/vm.c:104-326 | every page above the kernel is in exactly one place (free, one address space, given away by kalloc, lost), and an operation of one process keeps that and all pages of the others |
| Memory.PageMoves | A_xv6_patched/kernel/kalloc.c:31-70 | kalloc and kfree by others keep it too |
| Memory.System.Setupkvm | A_xv6_patched/kernel/vm.c:133-149 | with any number of address spaces: pages are lost exactly when it fails, and then all that were free |
| Memory.System.Allocuvm | A_xv6_patched/kernel/vm.c:226-251 | keeps every other address space, and the pages |
| Memory.System.Deallocuvm | A_xv6_patched/kernel/vm.c:253-278 | likewise |
| Memory.System.Growproc | A_xv6_patched/kernel/proc.c:142-158 | likewise |
| Memory.System.Copyuvm | A_xv6_patched/kernel/vm.c:297-326 | likewise; the child has the parent's bytes, and pages are lost only with fewer than 13 free |
| Memory.System.Freevm | A_xv6_patched/kernel/vm.c:280-295 | likewise; the address space is gone |
| CopyOut.Memmove | A_xv6_patched/kernel/vm.c:360 | the bytes go to the given place of one page; its other bytes and all other pages are unchanged |
| CopyOut.SetupHidesKernel | A_xv6_patched/kernel/vm.c:122-131 | no kernel page that setupkvm maps is for the user |
| CopyOut.Uva2ka | A_xv6_patched/kernel/vm.c:329-340 | the page of the user's memory there, never a page of the kernel; without a page table it reads through a null pointer |
| CopyOut.Copyout | A_xv6_patched/kernel/vm.c:345-366 | for any address and length: writes all the bytes, over any page boundaries, or those before the first page that is not the user's; then it returns -1, or has read through a null pointer exactly if there is no page table; no other byte, table or free page changes |
| CopyOut.CopiedMore | A_xv6_patched/kernel/vm.c:351-363 | one piece more, seen in the user's address space |
| Vm.Machine.Growproc | A_xv6_patched/kernel/proc.c:142-158 | succeeds exactly with pages enough for a growth, or for a shrink of memory there is to other than 0; size and mapping agree afterwards if and only if it was not a shrink to exactly 0, which takes the pages away and reports failure; only its own pages and free ones change |
| Vm.FreeingEnd | A_xv6_patched/kernel/vm.c:289-294 | the loop over the directory frees each table once |

## Left out

- Device files: `readi` and `writei` are modelled for inodes that are not T_DEV; the device switch is not part of this model.
- Panics for misuse (a directory operation on a file, writing past what the disk can hold, too few buffers or inode slots, see `BufferCache.NoBuffersIff`) are preconditions or outcomes the actions do not continue from; `panic` itself is not modelled.
- `Fs.FileSystem.Writei`: needs free blocks enough for the write; with too few, `balloc` panics or hands out a block past the end, as `Fs.BallocInRangeIff` says.
- Crash consistency: the file system has no log, so its properties are about operations that complete.
- The file system operations are modelled one at a time, as the inode and buffer locks make them appear; the locks are the subject of `BufferCache.dfy` and `InodeCache.dfy`.
- The in-core inode table and the open inodes of `Fs.FileSystem` are one record per inode; the 50 slots are in `InodeCache.dfy`.
- Inode fields that are C shorts are kept as 16-bit patterns.
- Disk errors: `ideintr` marks a buffer valid even after one; the disk of `BufferCache.dfy` has none, and a transfer takes effect when its interrupt comes.
- `BufferCache.BwriteKeepsInv`: setting B_DIRTY and joining the disk queue are one step, since nobody else looks at a locked buffer in between.
- Callers of the buffer cache write back what they change before they release it.
- `DirectoryOps.Dirlink`: names are compared by their first 14 bytes up to a NUL, as `namecmp` does; a longer name is not refused but cut.
- `Paths.Namex`: path names without locks and reference counts, which are in `InodeCache.dfy`. `chdir` and the arguments of system calls are not part of this model.
- `SysFile.Create`, `SysFile.Link`, `SysFile.Unlink`: one call at a time, after the path is looked up; interleavings of their steps are in `LinkCounts.dfy`. They need the blocks that a new entry may take.
- `FileTree.RunCountsExact`: runs in which every call that enters a name fits, as `FileTree.StepTreeIff` says it must; the code checks neither of the two conditions.
- `FlatImage.AddDir`: host directories without subdirectories, whose file names differ in their first 14 bytes; `add_dir` does not raise a parent's link count for a subdirectory, so with one the counts are off. Opening and reading host files is not part of this model.
- `FlatImage.MakeImage`: the nblocks of the superblock, which no code reads, is stated only where it is stored.
- `LinkCounts.CountsExact`: link counts are unbounded there; the 16-bit field of the inode record is in `SysFile.dfy` and `FileTree.dfy`.
- `InodeCache.DoKeepsInv`: one device; a table without a free slot, on which `iget` panics, is not continued from.
- `FileRefs.DoKeepsInv`: any free descriptor may be taken; that `fdalloc` takes the first is `FileRefs.Fdalloc`.
- Descriptors, offsets and permissions of `fileread` and `filewrite`.
- `sleep` is one step that puts the process to sleep and gives up the lock; that it takes ptable.lock before it releases the other lock, which is what makes this one step, is not proved here.
- Spin locks under context switches: `sched` handing ptable.lock from thread to thread and saving `intena` is not modelled; in `Spinlock.dfy` each CPU acquires and releases for itself.
- `Processes.StepKeepsInv`: pids are unbounded; `nextpid` wraps in the kernel after more processes than `Processes.PidsAreInts` allows. `kill` may hit any slot: which slot has the pid it is given is not part of this model.
- `LotteryScheduler.Lottery.Round`: the changes of state and counters of the winner. Fairness in a statistical sense has no basis in `random()`.
- `PriorityScheduler.PickedWithinNproc`: rounds of `scheduler` on all CPUs together, in the order in which they hold ptable.lock.
- `Vm.Machine.MapKernel` and `Vm.Machine.MapUser`: `mappages` at its two uses, for page-aligned ranges; `data` is page-aligned. `loaduvm` and `inituvm` are left out, as are segment descriptors and cr3.
- `CopyOut.Copyout`: what the kernel reads through the null pointer of `uva2ka`, and what it does then, is not modelled.
- `Umalloc.Heap.Malloc`: `sbrk` is a parameter that either fails or gives a region disjoint from earlier ones above `base`, in units of headers. Requests above 0x7FFFFFF0 bytes, which pass `sbrk` a wrong size, are excluded.
- `ShellRoundTrip.ParsePrint`: the trees hold file names and directions of redirections; the parser makes `>>` the same as `>` (`ShellAppend.AppendIsOutput`). Running commands, and memory for the tree, are left out.
- `Grep.Match`: lines without NULs; the loop over input and its buffer are left out.
- exec, trap frames, the console, drivers and boot code; `getpinfo` and the counters of the exercises.
