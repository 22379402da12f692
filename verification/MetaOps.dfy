/** mkdir, creat and rmdir with the allocator: what one whole call does to the device, the bitmaps, the
    counters and the tree (src/fs.c:544-598, 622-665, 718-749). */
module MetaOps {
  import opened Params
  import opened Layout
  import opened BlockMap
  import opened Allocator
  import opened Dirent
  import opened Namespace
  import opened Volume
  import opened VolumeOps
  import opened OpenFile
  import opened DirOps

  /** The names of a volume. */
  ghost function Names(m: Meta): Nodes
    requires Sized(m) && AllOk(m.disk, Live(m))
  {
    DirMap(m.disk, Live(m))
  }

  /** r is m with directory e made in p: one inode and one block more, both the least free ones; the tree
      has the new node; every other inode is intact. */
  ghost predicate DirMade(m: Meta, r: Meta, p: iptr, e: Entry, nb: iptr) {
    && MetaOk(m) && MetaOk(r)
    && p in Names(m) && e.kind == ITYPE_DIR
    && LeastFree(e.inode, Live(m)) && LeastFree(nb, Used(m)) && DataBlock(nb) && e.inode < INODE_COUNT
    && Live(r) == Live(m) + {e.inode as nat} && Used(r) == Used(m) + {nb as nat}
    && r.super.(freeInodes := r.super.freeInodes + 1, freeBlocks := r.super.freeBlocks + 1) == m.super
    && Names(r) == AddDir(Names(m), p, e) && FileSet(r.disk, Live(r)) == FileSet(m.disk, Live(m))
    && OwnedSet(r.disk, InodeAt(r.disk, e.inode)) == {nb as int}
    && forall j: iptr :: j in Live(m) && j != p ==> SameView(m.disk, r.disk, j)
  }

  /** r is m with the empty file e made in p: one inode more, no block. */
  ghost predicate FileMade(m: Meta, r: Meta, p: iptr, e: Entry) {
    && MetaOk(m) && MetaOk(r)
    && p in Names(m) && e.kind == ITYPE_FILE
    && LeastFree(e.inode, Live(m)) && e.inode < INODE_COUNT
    && Live(r) == Live(m) + {e.inode as nat} && Used(r) == Used(m)
    && r.super.(freeInodes := r.super.freeInodes + 1) == m.super
    && Names(r) == AddChild(Names(m), p, e)
    && FileSet(r.disk, Live(r)) == FileSet(m.disk, Live(m)) + {e.inode}
    && InodeAt(r.disk, e.inode) == EmptyFile()
    && forall j: iptr :: j in Live(m) && j != p ==> SameView(m.disk, r.disk, j)
  }

  /** r is m without the empty directory e of p: its inode and its one block are free again. */
  ghost predicate DirGone(m: Meta, r: Meta, p: iptr, e: Entry) {
    && MetaOk(m) && MetaOk(r)
    && Lists(Names(m), p, e) && e.inode in Names(m) && Names(m)[e.inode].children == [] && e.inode != p
    && e.inode < INODE_COUNT
    && Live(r) == Live(m) - {e.inode as nat}
    && Used(r) == Used(m) - OwnedSet(m.disk, InodeAt(m.disk, e.inode))
    && r.super == m.super.(freeInodes := m.super.freeInodes + 1, freeBlocks := m.super.freeBlocks + 1)
    && Names(r) == RemoveDir(Names(m), p, e) && FileSet(r.disk, Live(r)) == FileSet(m.disk, Live(m))
    && forall j: iptr :: j in Live(m) && j != p && j != e.inode ==> SameView(m.disk, r.disk, j)
  }

  /** There is room for one more record of that name in directory p. */
  ghost predicate Fits(m: Meta, p: iptr, name: seq<byte>)
    requires Sized(m) && p < INODE_COUNT
  {
    InodeAt(m.disk, p).size + EntryLen(|name|) <= BLOCK_SIZE
  }

  // ---- the parent record ----

  /** m after the record e was appended to directory p, inode and block written. */
  function AppendEntry(m: Meta, p: iptr, e: Entry): Meta
    requires Sized(m) && p < INODE_COUNT && |e.name| <= 255
    requires var n := InodeAt(m.disk, p); DataBlock(DirBlock(n)) && n.size + EntryLen(|e.name|) <= BLOCK_SIZE
  {
    var n := InodeAt(m.disk, p);
    var bytes := PutRecord(Bytes(m.disk, DirBlock(n)), n.size, e);
    m.(disk := PutInode(m.disk, p, n.(size := n.size + EntryLen(|e.name|)))[DirBlock(n) := ByteBlock(bytes)])
  }

  lemma DirBlockUsed(m: Meta, p: iptr)
    requires MetaOk(m) && p in Live(m) && IsDir(m.disk, p)
    ensures DataBlock(DirBlock(InodeAt(m.disk, p))) && DirBlock(InodeAt(m.disk, p)) in Used(m)
  {
    DirIsOneBlock(m.disk, p);
    LiveOwnsUsed(m, p);
    assert DirBlock(InodeAt(m.disk, p)) in Owned(m.disk, InodeAt(m.disk, p));
  }

  lemma InTree(m: Meta, p: iptr)
    requires MetaOk(m) && p in Names(m)
    ensures p in Live(m) && p < INODE_COUNT && IsDir(m.disk, p) && Names(m)[p] == NodeOf(m.disk, p)
    ensures DataBlock(DirBlock(InodeAt(m.disk, p))) && DirBlock(InodeAt(m.disk, p)) in Used(m)
  {
    DirBlockUsed(m, p);
  }

  lemma AppendEntryOk(m: Meta, m1: Meta, p: iptr, e: Entry)
    requires Sized(m) && p < INODE_COUNT && IsDir(m.disk, p) && ValidName(e.name) && Fits(m, p, e.name)
    requires Counted(m1) && Flushed(m1) && SameData(m.disk, m1.disk)
    ensures InodeAt(m1.disk, p) == InodeAt(m.disk, p) && DataBlock(DirBlock(InodeAt(m.disk, p)))
    ensures var m2 := AppendEntry(m1, p, e);
            && Appended(m.disk, m2.disk, p, e)
            && Counted(m2) && Flushed(m2) && Used(m2) == Used(m1) && Live(m2) == Live(m1)
  {
    SameDataSameInodes(m.disk, m1.disk);
    DirIsOneBlock(m.disk, p);
    var n := InodeAt(m.disk, p);
    var n' := n.(size := n.size + EntryLen(|e.name|));
    var bytes := PutRecord(Bytes(m.disk, DirBlock(n)), n.size, e);
    EditedBy(m.disk, m1.disk, p, n', DirBlock(n), bytes);
    InodeWriteKeeps(m1, p, n');
    DataWriteKeeps(m1.(disk := PutInode(m1.disk, p, n')), DirBlock(n), bytes);
  }

  // ---- mkdir ----

  /** The allocator of r is that of m with inode i taken. */
  ghost predicate TookInode(m: Meta, r: Meta, i: nat) {
    && Counted(r) && Flushed(r) && LeastFree(i, Live(m)) && i < INODE_COUNT
    && Live(r) == Live(m) + {i} && Used(r) == Used(m) && r.blockBm == m.blockBm
    && r.super.(freeInodes := r.super.freeInodes + 1) == m.super
  }

  ghost predicate TookBlock(m: Meta, r: Meta, b: nat) {
    && Counted(r) && Flushed(r) && LeastFree(b, Used(m)) && DataBlock(b)
    && Used(r) == Used(m) + {b} && Live(r) == Live(m)
    && r.super.(freeBlocks := r.super.freeBlocks + 1) == m.super
  }

  /** The allocator's part of two states is the same. */
  ghost predicate SameMeta(m: Meta, r: Meta) {
    && Counted(r) && Flushed(r) && Used(r) == Used(m) && Live(r) == Live(m) && r.super == m.super
  }

  /** The new directory's inode and block written (src/fs.c:594-595). */
  lemma NewDirWritten(d: Image, m3: Meta, r: Meta, i: iptr, p: iptr, nb: iptr)
    requires Shape(d) && Counted(m3) && Flushed(m3) && SameData(d, m3.disk) && i < INODE_COUNT && DataBlock(nb)
    requires r == m3.(disk := PutInode(m3.disk, i, DirInode(nb))[nb := ByteBlock(NewDirBytes(i, p))])
    ensures SameMeta(m3, r) && Edited(d, r.disk, i, DirInode(nb), nb, NewDirBytes(i, p))
  {
    EditedBy(d, m3.disk, i, DirInode(nb), nb, NewDirBytes(i, p));
    InodeWriteKeeps(m3, i, DirInode(nb));
    DataWriteKeeps(m3.(disk := PutInode(m3.disk, i, DirInode(nb))), nb, NewDirBytes(i, p));
  }

  lemma MkdirFinish(m: Meta, m2: Meta, m3: Meta, r: Meta, p: iptr, e: Entry, nb: iptr)
    requires MetaOk(m) && p in Names(m) && FreshName(Names(m), p, e.name) && e.kind == ITYPE_DIR && p < INODE_COUNT
    requires TookInode(m, m2, e.inode) && IsDir(m.disk, p) && Appended(m.disk, m2.disk, p, e)
    requires TookBlock(m2, m3, nb) && SameMeta(m3, r)
    requires Edited(m2.disk, r.disk, e.inode, DirInode(nb), nb, NewDirBytes(e.inode, p))
    ensures DirMade(m, r, p, e, nb)
  {
    hide AllOk, InodeOk, IsDir, SameView, Partition, Tree, OwnMap, DirMap, FileSet, OwnedSet, NodeOf, Appended, Edited,
         Counted, Flushed, Added;
    InTree(m, p);
    MkdirVolume(m, m2.disk, r.disk, p, e, nb);
    MkdirTree(m, r, p, e, nb);
  }

  lemma MkdirVolume(m: Meta, d1: Image, d2: Image, p: iptr, e: Entry, nb: iptr)
    requires MetaOk(m) && p in Live(m) && Appended(m.disk, d1, p, e) && e.kind == ITYPE_DIR
    requires Edited(d1, d2, e.inode, DirInode(nb), nb, NewDirBytes(e.inode, p))
    requires e.inode !in Live(m) && nb !in Used(m)
    ensures Added(m.disk, d2, Live(m), p, e, Live(m) + {e.inode as nat})
    ensures OwnedSet(d2, InodeAt(d2, e.inode)) == {nb as int}
    ensures forall j: iptr :: j in Live(m) && j != p ==> SameView(m.disk, d2, j)
  {
    hide AllOk, InodeOk, IsDir, SameView, Partition, Tree, OwnMap, DirMap, FileSet, OwnedSet, NodeOf, FreshName;
    DirBlockUsed(m, p);
    AppendTouches(m.disk, d1, d2, Live(m), Used(m), p, e);
    Untouched(m.disk, d2, Live(m), Used(m), {p, e.inode});
    MkdirAdds(m.disk, d1, d2, Live(m), p, e, nb);
  }

  lemma MkdirTree(m: Meta, r: Meta, p: iptr, e: Entry, nb: iptr)
    requires MetaOk(m) && p in Names(m) && FreshName(Names(m), p, e.name) && e.kind == ITYPE_DIR
    requires Counted(r) && Flushed(r) && Live(r) == Live(m) + {e.inode as nat} && Used(r) == Used(m) + {nb as nat}
    requires nb !in Used(m) && DataBlock(nb)
    requires Added(m.disk, r.disk, Live(m), p, e, Live(r))
    requires OwnedSet(r.disk, InodeAt(r.disk, e.inode)) == {nb as int}
    ensures MetaOk(r) && Names(r) == AddDir(Names(m), p, e) && FileSet(r.disk, Live(r)) == FileSet(m.disk, Live(m))
  {
    hide AllOk, InodeOk, IsDir, SameView, Partition, Tree, OwnMap, DirMap, FileSet, OwnedSet, NodeOf, FreshName, Added,
         Counted, Flushed;
    AddedKeepsVolume(m.disk, r.disk, Live(m), Used(m), p, e, Live(r), Used(r));
    AddedDirs(m.disk, r.disk, Live(m), p, e, Live(r));
    AddedFiles(m.disk, r.disk, Live(m), p, e, Live(r));
    assert FileSet(m.disk, Live(m)) + {} == FileSet(m.disk, Live(m));
  }

  // ---- creat ----

  lemma EmptyFileWritten(m2: Meta, r: Meta, i: iptr)
    requires Counted(m2) && Flushed(m2) && i < INODE_COUNT
    requires r == m2.(disk := PutInode(m2.disk, i, EmptyFile()))
    ensures SameMeta(m2, r) && EditedInode(m2.disk, r.disk, i, EmptyFile())
  {
    EditedInodeBy(m2.disk, m2.disk, i, EmptyFile());
    InodeWriteKeeps(m2, i, EmptyFile());
  }

  lemma CreatFinish(m: Meta, m2: Meta, r: Meta, p: iptr, e: Entry)
    requires MetaOk(m) && p in Names(m) && FreshName(Names(m), p, e.name) && e.kind == ITYPE_FILE && p < INODE_COUNT
    requires TookInode(m, m2, e.inode) && IsDir(m.disk, p) && Appended(m.disk, m2.disk, p, e)
    requires SameMeta(m2, r) && EditedInode(m2.disk, r.disk, e.inode, EmptyFile())
    ensures FileMade(m, r, p, e)
  {
    hide AllOk, InodeOk, IsDir, SameView, Partition, Tree, OwnMap, DirMap, FileSet, OwnedSet, NodeOf, Appended, Counted,
         Flushed, Added;
    InTree(m, p);
    CreatVolume(m, m2.disk, r.disk, p, e);
    CreatTree(m, r, p, e);
  }

  lemma CreatVolume(m: Meta, d1: Image, d2: Image, p: iptr, e: Entry)
    requires MetaOk(m) && p in Live(m) && Appended(m.disk, d1, p, e) && e.kind == ITYPE_FILE
    requires EditedInode(d1, d2, e.inode, EmptyFile()) && e.inode !in Live(m)
    ensures Added(m.disk, d2, Live(m), p, e, Live(m) + {e.inode as nat})
    ensures OwnedSet(d2, InodeAt(d2, e.inode)) == {}
    ensures forall j: iptr :: j in Live(m) && j != p ==> SameView(m.disk, d2, j)
  {
    hide AllOk, InodeOk, IsDir, SameView, Partition, Tree, OwnMap, DirMap, FileSet, OwnedSet, NodeOf;
    DirBlockUsed(m, p);
    AppendTouches(m.disk, d1, d2, Live(m), Used(m), p, e);
    Untouched(m.disk, d2, Live(m), Used(m), {p, e.inode});
    CreatAdds(m.disk, d1, d2, Live(m), p, e);
  }

  lemma CreatTree(m: Meta, r: Meta, p: iptr, e: Entry)
    requires MetaOk(m) && p in Names(m) && FreshName(Names(m), p, e.name) && e.kind == ITYPE_FILE
    requires Counted(r) && Flushed(r) && Live(r) == Live(m) + {e.inode as nat} && Used(r) == Used(m)
    requires Added(m.disk, r.disk, Live(m), p, e, Live(r))
    requires OwnedSet(r.disk, InodeAt(r.disk, e.inode)) == {}
    ensures MetaOk(r) && Names(r) == AddChild(Names(m), p, e)
    ensures FileSet(r.disk, Live(r)) == FileSet(m.disk, Live(m)) + {e.inode}
  {
    hide AllOk, InodeOk, IsDir, SameView, Partition, Tree, OwnMap, DirMap, FileSet, OwnedSet, NodeOf, FreshName, Added,
         Counted, Flushed;
    AddedKeepsVolume(m.disk, r.disk, Live(m), Used(m), p, e, Live(r), Used(r));
    AddedDirs(m.disk, r.disk, Live(m), p, e, Live(r));
    AddedFiles(m.disk, r.disk, Live(m), p, e, Live(r));
  }

  // ---- rmdir ----

  /** The allocator of r is that of m with inode i and block b given back. */
  ghost predicate GaveBack(m: Meta, r: Meta, i: nat, b: nat) {
    && Counted(r) && Flushed(r) && i in Live(m) && b in Used(m)
    && Live(r) == Live(m) - {i} && Used(r) == Used(m) - {b}
    && r.super == m.super.(freeInodes := m.super.freeInodes + 1, freeBlocks := m.super.freeBlocks + 1)
  }

  lemma RmdirFinish(m: Meta, r: Meta, p: iptr, e: Entry, b: iptr)
    requires MetaOk(m) && Lists(Names(m), p, e) && e.inode in Names(m) && Names(m)[e.inode].children == []
    requires p < INODE_COUNT && e.inode < INODE_COUNT && p in Live(m) && e.inode in Live(m)
    requires InodeAt(m.disk, e.inode).kind == ITYPE_DIR && IsDir(m.disk, e.inode)
             && b == DirBlock(InodeAt(m.disk, e.inode))
    requires GaveBack(m, r, e.inode, b) && Compacted(m.disk, r.disk, p, e.name)
    ensures DirGone(m, r, p, e)
  {
    hide AllOk, InodeOk, IsDir, SameView, Partition, Tree, OwnMap, DirMap, FileSet, OwnedSet, NodeOf, Compacted,
         Counted, Flushed, Removed;
    RmdirNotSelf(m, p, e);
    RmdirVolume(m, r.disk, p, e);
    RmdirTree(m, r, p, e, b);
  }

  lemma RmdirNotSelf(m: Meta, p: iptr, e: Entry)
    requires MetaOk(m) && Lists(Names(m), p, e) && e.inode in Names(m) && Names(m)[e.inode].children == []
    ensures e.inode != p && e.inode != INODE_ROOTDIR
  {
    hide AllOk, InodeOk, IsDir, SameView, Partition, Tree, OwnMap, DirMap, FileSet, OwnedSet, NodeOf;
    RmdirKeepsTree(Names(m), FileSet(m.disk, Live(m)), p, e);
  }

  lemma RmdirVolume(m: Meta, d': Image, p: iptr, e: Entry)
    requires MetaOk(m) && p in Live(m) && Compacted(m.disk, d', p, e.name)
    requires e.inode in Live(m) && e.inode != p && e.inode < INODE_COUNT && InodeAt(m.disk, e.inode).kind == ITYPE_DIR
    ensures Removed(m.disk, d', Live(m), p, e, Live(m) - {e.inode as nat})
    ensures forall j: iptr :: j in Live(m) && j != p ==> SameView(m.disk, d', j)
  {
    hide AllOk, InodeOk, IsDir, SameView, Partition, Tree, OwnMap, DirMap, FileSet, OwnedSet, NodeOf;
    SiblingsIntact(m.disk, d', Live(m), Used(m), p, e.name);
    RmdirRemoves(m.disk, d', Live(m), p, e);
  }

  lemma RmdirTree(m: Meta, r: Meta, p: iptr, e: Entry, b: iptr)
    requires MetaOk(m) && Lists(Names(m), p, e) && e.inode in Names(m) && Names(m)[e.inode].children == []
    requires e.inode in Live(m) && IsDir(m.disk, e.inode) && b == DirBlock(InodeAt(m.disk, e.inode))
    requires GaveBack(m, r, e.inode, b) && Removed(m.disk, r.disk, Live(m), p, e, Live(r))
    ensures MetaOk(r) && Names(r) == RemoveDir(Names(m), p, e) && FileSet(r.disk, Live(r)) == FileSet(m.disk, Live(m))
    ensures OwnedSet(m.disk, InodeAt(m.disk, e.inode)) == {b as int}
  {
    DirIsOneBlock(m.disk, e.inode);
    RemovedListed(m, p, e);
    hide AllOk, InodeOk, IsDir, SameView, Partition, Tree, OwnMap, DirMap, FileSet, OwnedSet, NodeOf, Counted, Flushed,
         Removed;
    RemovedKeepsVolume(m.disk, r.disk, Live(m), Used(m), p, e, Live(r), Used(r));
    RemovedDirs(m.disk, r.disk, Live(m), p, e, Live(r));
    RemovedFiles(m.disk, r.disk, Live(m), p, e, Live(r));
  }

  lemma RemovedListed(m: Meta, p: iptr, e: Entry)
    requires MetaOk(m) && Lists(Names(m), p, e) && e.inode in Names(m)
    ensures p in Live(m) && IsDir(m.disk, p) && e in NodeOf(m.disk, p).children
    ensures IsDir(m.disk, e.inode) && NodeOf(m.disk, e.inode) == Names(m)[e.inode]
  {
  }
}
