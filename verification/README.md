# A verified model of the cdnwsh file system

This project models the small Unix-like file system of the repository: a superblock, a block bitmap, an inode
bitmap, a table of 6400 inodes and data blocks on a device of 25600 blocks of 4096 bytes. It has two halves.

* **Values.** The device image with the three cached metadata blocks (`Allocator.Meta`), what an inode owns
  (`BlockMap`, `Growth`), directory records (`Dirent`), the tree of names (`Namespace`, `Paths`, `TreeWalk`), path walking
  on the bytes of the volume (`Walks`), open descriptors (`OpenFile`, `FileOps`, `ReadOps`, `Coherence`), the volume
  invariant (`Volume`, `VolumeOps`, `DirOps`, `MetaOps`), the writes of each call (`Steps`), the whole system and its
  calls as a transition relation (`System`), formatting and mounting (`Format`), whole runs (`Runs`), and what each
  call comes to in names, bytes, bits and descriptors alone (`Outcomes`).
* **Procedures.** The code itself, in place: arrays of bits (`Bitmap`), the device (`BlockDev.BlockDevice`), the
  metadata caches with the allocator, the inode table and the file transfers (`StoreLayer.Store`), directory handles
  and the mounted file system with its descriptor table and current directory (`Fs.DirPtr`, `Fs.FileSystem`). Each
  method is proved against the values; `Calls` holds the lemmas that lead from one to the other.

The invariant of the whole system is `System.SysInv`: counters and bitmaps agree and the disk holds both
(`Allocator.Counted`, `Allocator.Flushed`); every live inode is well formed and every taken data block has exactly one
owner (`Volume.VolumeOk`); the directories form a tree (`Namespace.Tree`); every descriptor in use mirrors a live file,
no two the same one, and bit k of the descriptor bitmap is set iff descriptor k is in use (`System.FdsOk`); the current
directory is in the tree. `CnMount` establishes it on an image in order and `CnUmount` ends it; `CnMkdir`, `CnRmdir`,
`CnCreat`, `CnClose`, `CnSeek` and `CnWrite` keep it and are each a `System.Step`; `CnCd`, `CnOpen` and `CnRead` keep it
exactly under the conditions in their contracts, and are then a step; `CnOpendir` changes nothing, and `CnTree` leaves the
state as it was. `Runs.EveryRunFromMkfs` carries the invariant through every run of steps from a fresh volume,
`Runs.EveryRunFromMount` from any image that is in order. `Store.Ok`
adds that every image the device has held since the mount, at whatever single block write a crash stops the code, is
honest (`Format.Honest`): if its superblock is marked clean, then it can be mounted (`Format.Mountable`) — counters and
bitmaps agree, every taken block has one owner, and the directories form a tree.

## What the code does that its callers might not expect

The model follows the code. For each point a lemma says, for all inputs, exactly when the code does what a caller
would expect, and `Findings` holds an input on which it does not.

* `cnread` stops one byte short of the end, and at the end its 32-bit bound wraps, so that it copies padding or leaves
  the cache. A read stays inside the cache and delivers what is expected exactly when it asks for nothing or ends
  strictly before the last byte (`ReadOps.ReadIsExpected`, `ReadOps.ReadFitsWhen`; `Findings.ReadStopsShort`,
  `Findings.ReadPastEnd`, `Findings.ReadOfNothing`). It leaves the system in order exactly when it starts below the
  size or asks for nothing (`System.ReadKeepsWhen`).
* `cnseek` takes the size from cursor + offset but the cursor from offset, and it grows files that are open for reading.
  It writes no data: zeros show in the descriptor's own cache, but after close and open the file shows the same text
  exactly when the disk already held it, with zeros in the file's old tail and in the free blocks next in turn
  (`Coherence.SeekSurvivesReopen`; `Findings.SeekExposesOldByte` goes through it call by call). A later `cnwrite`
  through that descriptor makes cache and disk agree again (`FileOps.WriteOk`).
* `cnopendir`, and with it `cncd`, never looks at the kind of what it finds: it reads the bytes of a file as records and
  walks on (`Walks.Follow`). The walk ends in a directory or with nothing exactly when every component that it reads names
  a directory or nothing, or the bytes of the first file on the way lead on to a directory (`Walks.LandsOnDirectory`), and
  `cncd` leaves the system in order exactly then (`System.CdKeepsWhen`; `Findings.CdOnFile`, `Findings.CdThroughFile`).
  On bytes that are no records the code may read outside its buffer or never return (`Findings.ZerosNeverEnd`).
* `cnopendir` answers with a directory on the way when a component after the first is missing, and with what it ran into
  when one names a file: it is a fold of single-name lookups exactly when every component names a directory or the first
  one is missing (`Walks.OpenIsFold`, `Paths.OpenPathDeepest`; `Findings.MissingComponentOpensParent`).
* `cnopen` does not look at the kind either: it opens a directory like a file. It leaves the system in order exactly when
  the name denotes a file or nothing (`System.OpenKeepsWhen`; `Findings.OpenRoot`).
* `cnmkdir` passes over intermediate components that are missing: it works where they lead exactly when they all exist
  (`Paths.MkdirWalkIsFold`; `Findings.MkdirSkipsMissing`).
* `cnmkdir` does not look at a leading slash. It works where an absolute path says exactly when its intermediate
  components all exist and are, dots worked out, the way to the current directory followed by the components that are
  found from there (`Paths.MkdirWorksWhere`). So from another directory than the root it works elsewhere
  (`Findings.MkdirForgetsRoot`, `Findings.MkdirMissesSibling`), except by chance (`Findings.MkdirHitsByChance`).

`cnmount` marks a volume dirty in memory only. The disk keeps its clean mark until the first allocation or release. The
mark stays true all the same: before that only file data and the size in an inode are written, and the volume is in order
after each of these writes (`Format.OrderHonest`, `FileOps.PartlyOk`).

## Model

| member | source | states |
|---|---|---|
| Bitmap.FindZeroBit | src/bitmap.c:24-35 | the lowest clear bit of a byte that is not full |
| Bitmap.FindFreeBit | src/bitmap.c:10-36 | the in-place search returns the least clear index, and 0 only if index 0 is clear or every bit is set |
| Bitmap.ReadBitmap | src/bitmap.c:38-44 | true iff the index is in the set the bitmap stands for |
| Bitmap.SetBitmap | src/bitmap.c:46-58 | in place, the set gains exactly that index |
| Bitmap.ClearBitmap | src/bitmap.c:60-72 | in place, the set loses exactly that index |
| Bitmap.SetBitIsInsert | src/bitmap.c:46-58 | setting a bit is inserting one element, for every index |
| Bitmap.ClearBitIsRemove | src/bitmap.c:60-72 | clearing a bit is removing one element, for every index |
| Bitmap.ClearUndoesSet | src/bitmap.c:46-72 | clearing a bit that was clear before it was set restores the bytes |
| Bitmap.BitsInjective | src/bitmap.c:38-44 | equal sets of bits mean equal bitmaps, byte for byte |
| Bitmap.LowBitFirst | src/bitmap.c:24-44 | bit i is bit i % 8 of byte i / 8, the lowest first |
| Bitmap.FirstFreeIsLeastAbsent | src/bitmap.c:10-36 | first fit is the minimum absent index, or 0 when nothing is absent |
| Bitmap.FirstFreeInRange | src/fs.c:71-76 | pigeonhole: with fewer than `limit` bits set, all below it, the unchecked scan of 32768 bits stays below `limit` |
| BlockDev.BlockDevice.BlkRead | src/blockdev.c:69-76 | the block at the address, or the caller's buffer untouched and -1 beyond the device |
| BlockDev.BlockDevice.BlkWrite | src/blockdev.c:78-86 | one atomic change of one block, recorded in the device's history; nothing beyond the device |
| LittleEndian.PointersRoundTrip | src/fs.c:136-163 | an indirect block reads back the 1024 pointers it was written with |
| LittleEndian.LowByteFirst | src/fs.c:547-553 | numbers in a block stand with the low byte first |
| Layout.InodeTableIsMap | src/inode.c:11-45 | the table refines a map: writing slot i changes inode i only, inside one block of 3..102 |
| Layout.SlotsDistinct | src/inode.c:11-14 | (i / 64, i % 64) determines i |
| Allocator.FlushFlushes | src/fs.c:60-65 | after a flush the disk holds the caches; everything from the inode table on is as it was |
| Allocator.ReserveInodeOk | src/fs.c:68-80 | with a positive counter: the least free inode, below 6400, never the root; counter and bitmap still agree |
| Allocator.ReleaseInodeOk | src/fs.c:83-89 | exactly that inode becomes free; counter and bitmap still agree |
| Allocator.ReserveBlockOk | src/fs.c:92-104 | with a positive counter: the least free block, inside the data area; counter and bitmap still agree |
| Allocator.ReleaseBlockOk | src/fs.c:107-113 | exactly that block becomes free; counter and bitmap still agree |
| Allocator.ReservedOneMore | src/fs.c:141-162 | a row of reservations stays fresh and pairwise distinct, and the counter drops by its length |
| Allocator.TookFreeRow | src/fs.c:92-104 | a row of reservations is exactly the next free blocks in order, as the bitmap before it tells |
| BlockMap.StoreLoad | src/fs.c:314-358 | llwrite then llread of an inode returns the buffer, for every block count up to 1032, and leaves its block list and indirect block alone |
| BlockMap.StoreNonInterference | src/fs.c:338-358 | llwrite of one inode changes neither metadata nor the list nor the bytes of an inode with other blocks |
| BlockMap.StoreFrame | src/fs.c:338-358 | llwrite touches the listed blocks and no other |
| Growth.DirectGrown | src/fs.c:139-145 | direct growth: old list a prefix, fresh distinct blocks appended, counter lowered by their number |
| Growth.IndirectGrown | src/fs.c:147-163 | growth past 8 blocks: the indirect block is taken once, never listed as data, and every old pointer is kept |
| Growth.GrownTwice | src/fs.c:137-165 | growth across the boundary is one growth: prefix, freshness and exact count add up |
| Growth.GrownAdds | src/fs.c:141-162 | which blocks a growth adds is determined by the bitmap before it |
| Growth.GrownNothing | src/fs.c:137-137 | a request for exactly the present count is a growth that takes nothing |
| Dirent.RecordRoundTrip | src/fs.c:547-553 | a written record reads back as the same entry with an entry_len that covers it |
| Dirent.RecordLayout | include/fs.h:39-45 | where inode, entry_len, name_len, file_type and name stand in a record |
| Dirent.ChainLength | src/fs.c:364-375 | records end exactly at size, which is the sum of their lengths; names are valid |
| Dirent.ParseAppend | src/fs.c:547-554 | a record appended at size makes the directory parse to the old list with the new entry last |
| Dirent.PackRoundTrip | src/fs.c:622-651 | records packed into a zeroed block parse back to the list |
| Dirent.WithoutUnique | src/fs.c:631-651 | leaving a name out keeps names unique and shortens the records by exactly that record |
| Dirent.WithoutUndoesAppend | src/fs.c:547-651 | leaving out a name just appended gives the old list |
| Namespace.MkdirKeepsTree | src/fs.c:544-598 | a fresh directory under a new name keeps the tree |
| Namespace.CreatKeepsTree | src/fs.c:718-749 | a fresh file under a new name keeps the tree |
| Namespace.RmdirKeepsTree | src/fs.c:631-654 | removing an empty directory keeps the tree; it is neither the root nor its own parent |
| Namespace.RmdirUndoesMkdir | src/fs.c:493-665 | rmdir of a directory just made is the identity on the tree |
| Namespace.OneEntryEach | src/fs.c:547-591 | an inode has at most one entry in the whole tree, and a directory's stands where its ".." points |
| Namespace.EveryInodeListed | src/fs.c:547-591 | every inode of the tree but the root has an entry |
| Namespace.DotDotReachesRoot | src/fs.c:287-293 | following ".." reaches inode 0 in finitely many steps |
| Volume.OneOwner | src/fs.c:134-169 | under the partition no block has two owners |
| Volume.SomeOwner | src/fs.c:92-113 | under the partition every taken data block has an owner |
| Volume.PartitionGrows | src/fs.c:134-169 | giving free blocks to one inode keeps the partition |
| Volume.PartitionShrinks | src/fs.c:637-640 | freeing all blocks of one inode keeps the partition |
| VolumeOps.FileRewritten | src/fs.c:864-896 | growing or rewriting one file keeps the volume, the tree, and every other inode's blocks and bytes |
| VolumeOps.AddedKeepsVolume | src/fs.c:544-598 | a new inode listed under a new name, with fresh blocks, keeps the volume |
| VolumeOps.RemovedKeepsVolume | src/fs.c:631-654 | an empty directory taken out, its block freed, keeps the volume |
| VolumeOps.NothingTouched | src/fs.c:204-213 | changes to superblock and bitmaps alone change nothing in the volume |
| OpenFile.ExtendOk | src/fs.c:838-855 | making room keeps every other inode and every old byte and block, and shows zeros in the cache |
| OpenFile.SizeFits | src/fs.c:838-851 | blocks = size / 4096 + 1 (0 for an empty file) is kept by growth, and the size fits the blocks |
| FileOps.PartlyOk | src/fs.c:338-358 | in the middle of llwrite, after any number of its block writes, the volume is in order |
| FileOps.StoreOk | src/fs.c:338-358 | writing one file through keeps the volume and every other inode, and reads back as the cache |
| FileOps.WriteOk | src/fs.c:888-891 | after a write: content[..c] + buf + content[c + len..], cursor advanced, cache equal to disk |
| ReadOps.ReadIsExpected | src/fs.c:817-828 | for every cursor, beyond the end too, and every size: the copy stays in the cache and delivers the expected slice iff it is empty or ends strictly before the last byte (at the last 32-bit cursor of an empty file the bound is 0) |
| ReadOps.ReadFitsWhen | src/fs.c:817-826 | for every cursor and size: the copy stays in the cache iff it is empty, starts below the size, or ends within the padding; of an empty file nothing can be read |
| ReadOps.ReadBelowSize | src/fs.c:817-828 | from below the size: the slice of length min(bytes, size - cursor - 1), inside the cache, cursor still below the size |
| ReadOps.ReadsAreConsecutive | src/fs.c:811-831 | over any run of reads the bytes are consecutive and the cursor ends at min(cursor + sum, size - 1) |
| Coherence.OpenedOk | src/fs.c:772-785 | a descriptor just opened mirrors its file and agrees with the disk |
| Coherence.DescriptorKept | src/fs.c:775-785 | a call that leaves a file alone leaves its descriptor in order, and coherent if it was |
| Coherence.ReopenReadsBack | src/fs.c:775-781 | while cache and disk agree, close and open give the same bytes, across the direct/indirect boundary |
| Coherence.SeekSurvivesReopen | src/fs.c:838-856 | for every growing seek: reopening shows the same text iff before the call the disk held it, and zeros in the old tail and in the free blocks next in turn |
| DirOps.ParentAppended | src/fs.c:547-560 | the parent with one record more lists exactly one child more |
| DirOps.ParentCompacted | src/fs.c:622-654 | the rewritten parent lists the old children without the named one, in order |
| DirOps.NewDirOk | src/fs.c:562-595 | the new inode and block are a directory with no children whose ".." is the parent |
| DirOps.DotBytes | src/fs.c:572-591 | the block built record by record is the packed "." and ".." |
| Steps.MkdirMakes | src/fs.c:544-598 | the writes of cnmkdir make that directory with the least free inode and block and leave every other inode intact |
| Steps.CreatMakes | src/fs.c:725-749 | the writes of cncreat make an empty file with the least free inode and no block |
| Steps.RmdirRemovesIt | src/fs.c:631-654 | the writes of cnrmdir remove exactly that node and free its inode and its one block |
| Steps.MkdirThenRmdir | src/fs.c:493-665 | a directory made and then gone: names, both bitmaps bit for bit and the superblock are as before |
| Paths.OpenPathDeepest | src/fs.c:431-452 | when a later component is missing and no file is met, the result is the directory that the longest walkable prefix leads to |
| Walks.SearchIsFind | src/fs.c:432-446 | the byte-level search, C strings and record lengths as they are read, is the search of the list on proper records |
| Walks.LandsOnDirectory | src/fs.c:429-452 | along directories the walk on the volume ends where the tree says; at the first file it goes on in that file's bytes; it ends in a directory or with nothing iff no component read names a file, or those bytes lead to a directory |
| Walks.OpenIsFold | src/fs.c:397-460 | every walk that has an end answers like the fold of single-name lookups iff every component names a directory or the first one is missing |
| Paths.MkdirWalkInParts | src/fs.c:524-542 | every component is looked up where the ones before it led; a missing one is passed over and the next is looked up in the same place |
| Paths.MkdirWalkIsFold | src/fs.c:503-542 | cnmkdir works where the intermediate components lead iff they all exist |
| Paths.OnePlainPath | src/fs.c:437-446 | in a tree no directory has two paths from the root without dots |
| Paths.PlainLeads | src/fs.c:575-591 | working out "." and ".." of a path that exists does not change where it leads |
| Paths.MkdirWorksWhere | src/fs.c:503-542 | for every path and current directory: cnmkdir works where the path says iff the intermediate components exist and, when it is absolute, they are the way to the current directory and the components found from there, dots worked out |
| Paths.MkdirWorksWhereNoDots | src/fs.c:503-542 | without dots: iff the components are literally that way |
| Paths.MkdirIgnoresSlash | src/fs.c:503-542 | when dot-free intermediate components exist from the current directory, an absolute path is worked where it says iff the current directory is the root |
| Paths.DownAndUp | src/fs.c:1051-1058 | into a child directory and back by ".." is where one was, in one path or two |
| TreeWalk.ListingVisits | src/fs.c:1031-1059 | the recursive listing of some entries visits everything within them, each inode once |
| TreeWalk.TreeVisitsAllOnce | src/fs.c:1015-1060 | the listing of a directory visits exactly the inodes below it, each once |
| TreeWalk.TreeFromRootVisitsAll | src/fs.c:1015-1068 | from the root it visits every directory and file but the root |
| TreeWalk.TreeInOrder | src/fs.c:1031-1059 | every entry of the listing is an entry of the tree with its name and kind; of each directory below the start it holds exactly the records, in their order; what lies beneath a directory follows it directly |
| TreeWalk.ListingInOrder | src/fs.c:1031-1059 | siblings keep the order of their records, at every depth |
| TreeWalk.ListingNested | src/fs.c:1051-1058 | what lies beneath a directory comes after it, with nothing else in between |
| System.MkdirKeeps | src/fs.c:493-605 | cnmkdir keeps the invariant of the whole system |
| System.RmdirKeeps | src/fs.c:608-665 | cnrmdir keeps the invariant of the whole system |
| System.CdKeeps | src/fs.c:473-483 | cncd that ends with nothing or in a directory keeps the invariant of the whole system |
| System.CdKeepsWhen | src/fs.c:473-483 | every cncd that has an outcome keeps the invariant iff no component read names a file, or the bytes of the first file on the way lead on to a directory |
| System.CreatKeeps | src/fs.c:718-755 | cncreat keeps the invariant of the whole system |
| System.OpenKeeps | src/fs.c:759-790 | cnopen of a file, or of a new name, keeps the invariant |
| System.OpenKeepsWhen | src/fs.c:759-790 | cnopen of any name that is not open keeps the invariant iff the name denotes a file or nothing |
| System.CloseKeeps | src/fs.c:795-808 | cnclose keeps the invariant: bit k is set iff descriptor k is in use |
| System.ReadKeeps | src/fs.c:811-831 | cnread from below the size, or of nothing, keeps the invariant |
| System.ReadKeepsWhen | src/fs.c:811-831 | any cnread keeps the invariant iff it starts below the size or asks for nothing |
| System.SeekKeeps | src/fs.c:835-860 | cnseek keeps the invariant and every other inode; old bytes kept, zeros exposed |
| System.WriteKeeps | src/fs.c:864-896 | cnwrite keeps the invariant and every other inode; the text is spliced and the disk equals the cache |
| System.StepKeeps | src/fs.c:182-896 | every call keeps the invariant |
| Outcomes.ViaAndLast | src/fs.c:517-521 | the components before the last one and the last one are all of the path |
| Outcomes.CdOutcome | src/fs.c:473-483 | cncd of a path that names a directory goes there, from the root when it is absolute; nowhere when the first component is missing |
| Outcomes.CdDeepest | src/fs.c:431-480 | when a later component is missing cncd goes to the directory that the components before it name |
| Outcomes.OpenOutcome | src/fs.c:759-790 | the least free descriptor gets the mode, the inode that the name denotes then, cursor 0 and the whole file; its bit is set; all other descriptors and bits stay; -1 changes nothing |
| Outcomes.CloseOutcome | src/fs.c:795-808 | one state and one bit are freed and nothing else changes; nothing at all when the descriptor was free |
| Outcomes.MkdirOutcome | src/fs.c:493-605 | on the components: the last one becomes a directory, empty, listed last where the others lead, with the least free inode and block; every other inode is intact; or it is there, -1, and nothing changes |
| Outcomes.CreatOutcome | src/fs.c:718-755 | an empty file with the least free inode, listed last; every other inode is intact; or the name is there, -1, and nothing changes |
| Outcomes.RmdirOutcome | src/fs.c:608-665 | the empty directory leaves the names, the others in their order; its inode and blocks are free; every other inode is intact; or -1 and nothing changes |
| Outcomes.SeekOutcome | src/fs.c:835-860 | cursor = offset, size at least cursor + offset, old bytes kept and zeros after them, the table holds the new inode; names and every other inode are intact |
| Outcomes.WriteOutcome | src/fs.c:864-896 | the buffer at the cursor and no other byte changed, cursor advanced, the file on disk equal to the cache; names and every other inode are intact; nothing in another mode |
| Outcomes.IntactMeans | src/fs.c:314-334 | an intact inode has the same slot, blocks, bytes and entries |
| Outcomes.StepFrame | src/fs.c:493-896 | a call changes no descriptor and no bit but its own or the one it opens; only cncd changes the current directory; cncd, cnclose and cnread leave the device and its caches alone |
| Outcomes.RunKeepsDescriptor | src/fs.c:493-896 | over any run a descriptor in use stays as it is until a call is given it |
| Outcomes.MountOutcome | src/fs.c:183-202 | after cnmount the caches are what the disk holds but for the mark, no descriptor is in use, and the current directory is the root |
| Outcomes.MkfsOutcome | src/fs.c:218-309 | the superblock of a new volume, number by number; what lies outside metadata and root stays |
| Format.MkfsThenMount | src/fs.c:182-309 | a volume just made and mounted is in order: blocks 0..103 taken, one inode, an empty root |
| Format.UmountThenMount | src/fs.c:183-213 | unmount then mount gives the same caches and the same blocks from the inode table on |
| Format.RemountKeepsVolume | src/fs.c:183-213 | unmount then mount keeps names, files and bytes, and the volume is in order again |
| Format.OrderHonest | src/fs.c:183-202 | while caches and volume are in order the clean mark that the mount left on the disk is true: mounting the disk again gives back the caches |
| Format.FlushHonest | src/fs.c:60-65 | after each of a flush's three writes the image is not marked clean, so it is honest, and the disk is marked dirty from then on |
| Format.UmountHonest | src/fs.c:205-213 | after each of cnumount's three writes the image is marked clean and is a whole volume in order |
| Format.DataWriteHonest | src/blockdev.c:78-86 | a write outside superblock and bitmaps gives an honest image when the disk is marked dirty already, or when it leaves the volume in order |
| Runs.RunKeeps | src/fs.c:182-896 | every state of every run satisfies the invariant |
| Runs.EveryRunFromMount | src/fs.c:183-202 | every run of calls from the mount of an image in order, such as any honest image marked clean, keeps the invariant |
| Runs.EveryRunFromMkfs | src/fs.c:182-896 | every state reached from cnmkfs and cnmount by any run of calls satisfies the invariant |
| Runs.BlocksHaveOneOwner | src/fs.c:134-251 | the set bits of the block bitmap are exactly the 103 metadata blocks and the blocks of live inodes, each with one owner |
| Runs.DotsAreRight | src/fs.c:575-591 | every live inode is a directory or a file, "." names the directory itself and ".." a directory |
| Runs.ListedExactlyOnce | src/fs.c:544-749 | every live inode but the root has exactly one entry, and a directory's stands where its ".." points |
| Runs.DotDotEndsAtRoot | src/fs.c:264-300 | ".." leads to the root in finitely many steps |
| Runs.DescriptorsFitTheirFiles | src/fs.c:838-891 | blocks follow from the size, the cache holds exactly the blocks, the cursor is at most the size |
| Runs.ReservationsStayInRange | src/fs.c:68-113 | counters plus set bits equal the totals, and what is reserved was free, is least, and is in range |
| Runs.MkdirThenRmdirRestores | src/fs.c:493-665 | cnmkdir of any path with a new last name, cncd by any path to where it worked, cnrmdir of that name: the last finds what was made, and the names, both bitmaps bit for bit and the superblock are as before |
| Runs.StepKeepsFile | src/fs.c:493-896 | a call leaves alone every byte and block of every file that it does not write or grow |
| Runs.RunKeepsFile | src/fs.c:493-896 | so does a run of such calls |
| Runs.ReopenedLater | src/fs.c:775-891 | what a write left on the disk is what any later open shows, after any run of calls that do not write or grow the file |
| StoreLayer.Store.Write | src/blockdev.c:78-86 | one block changes; an honest history stays honest when the disk is marked dirty or the volume is in order after the write |
| StoreLayer.Store.FlushMetadata | src/fs.c:60-65 | the caches reach the disk, and each of the three images on the way is honest |
| StoreLayer.Store.ReserveInode | src/fs.c:68-80 | in place, the state and result that Allocator.ReserveInodeOk speaks of |
| StoreLayer.Store.ReleaseInode | src/fs.c:83-89 | in place, the state that Allocator.ReleaseInodeOk speaks of |
| StoreLayer.Store.ReserveBlock | src/fs.c:92-104 | in place, the state and result that Allocator.ReserveBlockOk speaks of |
| StoreLayer.Store.ReleaseBlock | src/fs.c:107-113 | in place, the state that Allocator.ReleaseBlockOk speaks of |
| StoreLayer.Store.InodeWrite | src/inode.c:17-31 | the table gains that slot and nothing else changes |
| StoreLayer.Store.InodeRead | src/inode.c:33-45 | the inode at that slot |
| StoreLayer.Store.GrowDirect | src/fs.c:139-145 | the loop achieves a growth: prefix kept, fresh blocks, exact count |
| StoreLayer.Store.GrowIndirect | src/fs.c:147-163 | the loop and the write of the indirect block achieve a growth |
| StoreLayer.Store.ReallocFsBlocks | src/fs.c:134-169 | for any old and new counts on either side of 8: old list a prefix, fresh distinct blocks, indirect block taken exactly once, counter lowered by exactly what was taken |
| StoreLayer.Store.LlRead | src/fs.c:314-334 | the bytes of the block list, in order |
| StoreLayer.Store.LlWrite | src/fs.c:338-358 | the image with the buffer over the block list, although the indirect block is read after the direct ones were written; the history stays honest block by block |
| StoreLayer.Store.SuperblockInit | src/fs.c:218-230 | the superblock of a volume with 104 blocks and one inode taken; Format.MkfsThenMount shows that it agrees with the bitmaps |
| StoreLayer.Store.BlockBitmapInit | src/fs.c:232-251 | exactly blocks 0..103 are marked |
| StoreLayer.Store.InodeBitmapInit | src/fs.c:253-262 | exactly inode 0 is marked |
| StoreLayer.Store.WriteRootDir | src/fs.c:264-300 | inode 0 and its block form the empty root directory |
| StoreLayer.Store.CnMkfs | src/fs.c:302-309 | the image that Format.MkfsThenMount speaks of |
| StoreLayer.Store.Mount | src/fs.c:185-196 | the caches equal the disk, dirty in memory only; from here on the history is on record and honest |
| StoreLayer.Store.Umount | src/fs.c:208-211 | the clean flag and the caches reach the disk, every image on the way is honest, and the last one can be mounted |
| Fs.DirPtr.CnReaddir | src/fs.c:364-375 | the record at the index, whatever the bytes mean; on proper records the next entry of the list, and the index grows until it equals the size, so loops over it end |
| Fs.DirPtr.CnStat | src/fs.c:694-713 | the inode of the first entry of that name; a failed search stops at index = size |
| Fs.DirPtr.Scan | src/fs.c:432-446 | on any bytes on which the search ends, what the byte-level search finds; on proper records the first entry of that name among the rest |
| Fs.FileSystem.InflateDir | src/fs.c:385-393 | of any inode whose blocks can be read the handle holds the whole file; of a directory it shows the entries from the first record |
| Fs.FileSystem.Walk | src/fs.c:429-452 | the loop, through directories and files alike, ends where Walks.Reach says, with an exhausted index once a component is missing |
| Fs.FileSystem.CnOpendir | src/fs.c:397-460 | a fresh handle on whatever inode the walk ends in; null iff the first component is missing |
| Fs.FileSystem.CnCd | src/fs.c:473-483 | whatever the walk ends in becomes the current directory, -1 and no change if nothing; for a path that names a directory that directory, from the root when it is absolute, and when a later component is missing the directory before it; the system stays in order iff it ends with nothing or in a directory |
| Fs.FileSystem.FindParent | src/fs.c:503-542 | the parent that the intermediate components lead to, and whether the last name is there |
| Fs.FileSystem.CnMkdir | src/fs.c:493-605 | a step of the system, told on the components: the last one made as an empty directory where the others lead from the current directory, listed last, with the least free inode and block, every other inode intact; -1 and no trace iff it is there; the invariant is kept |
| Fs.FileSystem.CopyWithout | src/fs.c:622-651 | the copied records are the list without the name; the target is released once, only if its size is 24 |
| Fs.FileSystem.CnRmdir | src/fs.c:608-665 | a step of the system: the empty directory is gone, inode and blocks free, the other entries in order and every other inode intact; -1 with nothing changed iff it is missing or not empty; the invariant is kept |
| Fs.FileSystem.CnCreat | src/fs.c:718-755 | a step of the system: an empty file with the least free inode, listed last, every other inode intact; -1 and no trace iff the name is there; the handle goes on showing its directory |
| Fs.FileSystem.OpenFd | src/fs.c:770-786 | the least free descriptor holds the whole file, or directory |
| Fs.FileSystem.CnOpen | src/fs.c:759-790 | the least free descriptor gets the mode, the inode that the name denotes then, cursor 0 and the whole file, and all others stay; the file is made first when the name is missing and the mode is writing; -1 and no change iff it is missing and the mode is reading; the system stays in order iff the name does not denote a directory |
| Fs.FileSystem.CnClose | src/fs.c:795-808 | a step of the system: this descriptor and this bit freed and no other, or -1 and no change when it was free |
| Fs.FileSystem.CnRead | src/fs.c:811-831 | the bytes of the cache that ReadOps speaks of, and nothing in another mode; the system stays in order iff the read starts below the size or asks for nothing |
| Fs.FileSystem.GrowCache | src/fs.c:117-129 | a zeroed cache that starts with the old bytes |
| Fs.FileSystem.MakeRoom | src/fs.c:838-855 | cache, size and blocks for the required bytes, the old blocks a prefix of the new |
| Fs.FileSystem.CnSeek | src/fs.c:835-860 | a step of the system: old bytes kept, zeros exposed, cursor = offset, the table holds the new inode; names, all other descriptors and every other inode stay |
| Fs.FileSystem.CnWrite | src/fs.c:864-896 | a step of the system: the buffer at the cursor and no other byte changed, disk equal to cache; names and all other descriptors stay; 0 and no trace in another mode |
| Fs.FileSystem.TreeDir | src/fs.c:1015-1060 | the recursion ends by depth, yields the listing, and leaves the current directory as it found it |
| Fs.FileSystem.CnTree | src/fs.c:1015-1068 | visits every inode below the current directory exactly once, with the name and kind its directory lists, siblings in record order and what lies beneath a directory right after it; the whole system state is unchanged |
| Fs.FileSystem.CnMount | src/fs.c:183-202 | the system is in order, caches as on the disk but for the mark, at the root, with no descriptor in use; the device is not written |
| Fs.FileSystem.CnUmount | src/fs.c:205-213 | the device holds the unmounted volume, which can be mounted; every image since the mount that is marked clean is a whole volume in order |
| Findings.ReadStopsShort | src/fs.c:817-820 | reading 2 bytes of a 2-byte file delivers 1 |
| Findings.ReadPastEnd | src/fs.c:817-820 | reading at the end of a 2-byte file delivers a byte of padding |
| Findings.ReadOfNothing | src/fs.c:817-826 | reading one byte of an empty file copies from no buffer at all |
| Findings.MissingComponentOpensParent | src/fs.c:431-452 | opening a/b when only a exists answers with a |
| Findings.MkdirSkipsMissing | src/fs.c:524-542 | making b/c when b is missing works in the current directory |
| Findings.MkdirForgetsRoot | src/fs.c:503-542 | making /c from directory a makes it in a, although the path names the root |
| Findings.MkdirMissesSibling | src/fs.c:503-542 | making /b/c from directory a makes it in a, although /b is there |
| Findings.MkdirHitsByChance | src/fs.c:503-542 | making /a/c or /../c from directory a works where the path says |
| Findings.CdOnFile | src/fs.c:437-446 | from mkfs on: cd to a file of the root returns 0 and leaves the system out of order |
| Findings.CdThroughFile | src/fs.c:432-446 | from mkfs on: a file f that holds one record "x" for inode 0; cd to f/x returns 0 and ends in the root, in order |
| Findings.ZerosNeverEnd | src/fs.c:432-446 | a search in a file of zeros has no outcome: its first record has length 0 |
| Findings.OpenRoot | src/fs.c:759-790 | from mkfs on: cnopen of "." succeeds and leaves the system out of order |
| Findings.SeekExposesOldByte | src/fs.c:838-856 | mkfs over a device whose block 104 starts with 7, then creat, open, seek to 5, close, open: five zeros before, a 7 after |

## Left out

- Preconditions the code relies on without checking: free blocks and inodes exist, a file has at most 1032 blocks, a
  directory fits its block, one descriptor per inode, a free descriptor exists, a handle given to cncreat or cnopen is
  fresh. Double opens, stale handles, a full disk and overflowing directories are not modelled.
- Fs.FileSystem.CnOpen: what the name denotes must not be open already.
- System.OpenKeepsWhen: the same.
- Fs.FileSystem.CnOpendir: walks that are lost are excluded: those on which the code reads outside its buffer, inflates an inode number beyond the table or one whose pointers lead outside the data area, or meets a record of length 0 and never returns. In a volume in order this takes a file on the way.
- Fs.FileSystem.Walk: the same.
- Fs.FileSystem.CnCd: the same.
- Walks.OpenIsFold: the same.
- System.CdKeepsWhen: the same.
- Paths.OpenPathDeepest: speaks of walks that meet no file; Walks.LandsOnDirectory says what happens at a file.
- Runs.RunKeeps: its runs contain the calls that keep the invariant; cncd onto a file, cnopen of a directory and cnread from the end are characterised by System.CdKeepsWhen, System.OpenKeepsWhen and System.ReadKeepsWhen, and end a run.
- Runs.EveryRunFromMount: the same.
- Runs.EveryRunFromMkfs: the same.
- Runs.RunKeepsFile: the same.
- Runs.ReopenedLater: the same.
- System.StepKeeps: the same.
- System.CdKeeps: the same.
- System.OpenKeeps: the same.
- System.ReadKeeps: the same.
- Fs.FileSystem.CnMkdir: intermediate components must not be files, through whose bytes the code would walk on.
- Fs.FileSystem.FindParent: the same.
- System.MkdirKeeps: the same.
- Paths.MkdirWalkIsFold: the same.
- Paths.MkdirWorksWhere: the same, as MkdirWalk is the walk of the code only then.
- System.RmdirKeeps: the name must not denote a file, whose bytes the code would rewrite as a directory.
- Fs.FileSystem.CnRmdir: takes one component of 1 to 255 bytes other than "." and ".." that names a directory if anything. For the empty name the code would rewrite the root. On a missing name the code returns -1 past an uninitialised pointer that it may free, and a name of 253 to 255 bytes with "/.." added overflows the buffer of cnopendir; the model returns as if memory were in order.
- System.SeekKeeps: the descriptor must be in use; the code does not look at its state.
- Fs.FileSystem.CnSeek: the same.
- Fs.FileSystem.CnRead: reads that would copy from beyond the cache are excluded; ReadOps.ReadFitsWhen says which these are.
- StoreLayer.Store.Mount: the volume must carry the magic number and one of the two state marks; the code would go on with any bytes as a blank volume.
- Fs.FileSystem.CnMount: the same, and the volume must be in order; mounting an image marked dirty whose bitmaps are out of step, as a crash in the middle of a flush leaves it, is excluded, as are crash points inside cnmkfs.
- BlockDev.BlockDevice.BlkRead: an address equal to the device size is excluded, as the code's test lets it through to memory beyond the mapping.
- BlockDev.BlockDevice.BlkWrite: the same.
- Layout.Inode: the time stamp is not modelled, and a table block holds 64 slots as declared, although padding makes the struct larger on 64-bit builds.
- Layout.Block: each address has one fixed kind of block, which is what the casts in the code assume; boot record and padding of the superblock are dropped.
- cnls, cncat, cnimport, cnexport, cnpwd and the text that treedir formats; the shell, the server and the client.
- Allocation failure, freeing of memory, and C strings: names are byte sequences of 1 to 255 bytes and paths are lists of components.
- The current directory's last argument string, and the double-indirect pointer, which the code never uses.
