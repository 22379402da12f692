/** What the code of cnmkdir, cncreat and cnrmdir does to the device and the caches, write by write
    (src/fs.c:544-598, 622-665, 723-749), and that this makes, lists and removes a node of the tree. */
module Steps {
  import opened Params
  import opened Bitmap
  import opened Layout
  import opened Allocator
  import opened Dirent
  import opened Namespace
  import opened Volume
  import opened VolumeOps
  import opened OpenFile
  import opened DirOps
  import opened MetaOps

  /** Directory p can be read and has room for one more record of that name. */
  ghost predicate CanAppend(m: Meta, p: iptr, name: seq<byte>) {
    && Sized(m) && p < INODE_COUNT && |name| <= 255
    && DataBlock(DirBlock(InodeAt(m.disk, p))) && Fits(m, p, name)
  }

  // ---- mkdir ----

  /** Reserve an inode, append the parent record, reserve a block, write the new inode and its block. */
  ghost predicate MkdirSteps(m: Meta, p: iptr, name: seq<byte>, m1: Meta, i: iptr, m3: Meta, nb: iptr, r: Meta) {
    && CanAppend(m, p, name) && ReserveInode(m).0 == m1 && ReserveInode(m).1 == i
    && CanAppend(m1, p, name) && i < INODE_COUNT
    && var m2 := AppendEntry(m1, p, Entry(i, ITYPE_DIR, name));
       && Sized(m2) && ReserveBlock(m2).0 == m3 && ReserveBlock(m2).1 == nb
       && Sized(m3) && DataBlock(nb)
       && r == m3.(disk := PutInode(m3.disk, i, DirInode(nb))[nb := ByteBlock(NewDirBytes(i, p))])
  }

  /** What cnmkdir relies on once it has found the parent. */
  ghost predicate CanMkdir(m: Meta, p: iptr, name: seq<byte>) {
    && MetaOk(m) && p in Names(m) && p < INODE_COUNT && FreshName(Names(m), p, name) && Fits(m, p, name)
    && m.super.freeInodes > 0 && m.super.freeBlocks > 0
  }

  lemma ReservedInode(m: Meta)
    requires Counted(m) && m.super.freeInodes > 0
    ensures TookInode(m, ReserveInode(m).0, ReserveInode(m).1) && SameData(m.disk, ReserveInode(m).0.disk)
  {
    ReserveInodeOk(m);
  }

  lemma ReservedBlock(m: Meta)
    requires Counted(m) && m.super.freeBlocks > 0
    ensures TookBlock(m, ReserveBlock(m).0, ReserveBlock(m).1) && SameData(m.disk, ReserveBlock(m).0.disk)
  {
    ReserveBlockOk(m);
  }

  lemma MkdirWrites(m: Meta, p: iptr, name: seq<byte>, m1: Meta, i: iptr, m3: Meta, nb: iptr, r: Meta)
    requires Counted(m) && IsDir(m.disk, p) && ValidName(name) && m.super.freeInodes > 0 && m.super.freeBlocks > 0
    requires MkdirSteps(m, p, name, m1, i, m3, nb, r)
    ensures var e, m2 := Entry(i, ITYPE_DIR, name), AppendEntry(m1, p, Entry(i, ITYPE_DIR, name));
            && TookInode(m, m2, i) && Appended(m.disk, m2.disk, p, e)
            && TookBlock(m2, m3, nb) && SameMeta(m3, r)
            && Edited(m2.disk, r.disk, i, DirInode(nb), nb, NewDirBytes(i, p))
  {
    hide ReserveInode, ReserveBlock, IsDir, Appended, Edited, Flushed;
    ReservedInode(m);
    AppendEntryOk(m, m1, p, Entry(i, ITYPE_DIR, name));
    var m2 := AppendEntry(m1, p, Entry(i, ITYPE_DIR, name));
    hide AppendEntry;
    ReservedBlock(m2);
    NewDirWritten(m2.disk, m3, r, i, p, nb);
  }

  /** cnmkdir of a new name makes that directory, with the least free inode and the least free block. */
  lemma MkdirMakes(m: Meta, p: iptr, name: seq<byte>, m1: Meta, i: iptr, m3: Meta, nb: iptr, r: Meta)
    requires CanMkdir(m, p, name) && MkdirSteps(m, p, name, m1, i, m3, nb, r)
    ensures DirMade(m, r, p, Entry(i, ITYPE_DIR, name), nb)
  {
    hide AllOk, InodeOk, IsDir, SameView, Partition, Tree, OwnMap, DirMap, FileSet, OwnedSet, NodeOf, Counted, Flushed,
         Appended, Edited, DirMade, TookInode, TookBlock, SameMeta;
    InTree(m, p);
    MkdirWrites(m, p, name, m1, i, m3, nb, r);
    var e := Entry(i, ITYPE_DIR, name);
    MkdirFinish(m, AppendEntry(m1, p, e), m3, r, p, e, nb);
  }

  // ---- creat ----

  ghost predicate CreatSteps(m: Meta, p: iptr, name: seq<byte>, m1: Meta, i: iptr, r: Meta) {
    && CanAppend(m, p, name) && ReserveInode(m).0 == m1 && ReserveInode(m).1 == i
    && CanAppend(m1, p, name) && i < INODE_COUNT
    && var m2 := AppendEntry(m1, p, Entry(i, ITYPE_FILE, name));
       Sized(m2) && r == m2.(disk := PutInode(m2.disk, i, EmptyFile()))
  }

  ghost predicate CanCreat(m: Meta, p: iptr, name: seq<byte>) {
    && MetaOk(m) && p in Names(m) && p < INODE_COUNT && FreshName(Names(m), p, name) && Fits(m, p, name)
    && m.super.freeInodes > 0
  }

  lemma CreatWrites(m: Meta, p: iptr, name: seq<byte>, m1: Meta, i: iptr, r: Meta)
    requires Counted(m) && IsDir(m.disk, p) && ValidName(name) && m.super.freeInodes > 0
    requires CreatSteps(m, p, name, m1, i, r)
    ensures var e, m2 := Entry(i, ITYPE_FILE, name), AppendEntry(m1, p, Entry(i, ITYPE_FILE, name));
            && TookInode(m, m2, i) && Appended(m.disk, m2.disk, p, e)
            && SameMeta(m2, r) && EditedInode(m2.disk, r.disk, i, EmptyFile())
  {
    hide ReserveInode, IsDir, Appended, EditedInode, Flushed;
    ReservedInode(m);
    AppendEntryOk(m, m1, p, Entry(i, ITYPE_FILE, name));
    var m2 := AppendEntry(m1, p, Entry(i, ITYPE_FILE, name));
    hide AppendEntry;
    EmptyFileWritten(m2, r, i);
  }

  /** cncreat of a new name makes an empty file, with the least free inode and no block. */
  lemma CreatMakes(m: Meta, p: iptr, name: seq<byte>, m1: Meta, i: iptr, r: Meta)
    requires CanCreat(m, p, name) && CreatSteps(m, p, name, m1, i, r)
    ensures FileMade(m, r, p, Entry(i, ITYPE_FILE, name))
  {
    hide AllOk, InodeOk, IsDir, SameView, Partition, Tree, OwnMap, DirMap, FileSet, OwnedSet, NodeOf, Counted, Flushed,
         Appended, EditedInode, FileMade, TookInode, SameMeta;
    InTree(m, p);
    CreatWrites(m, p, name, m1, i, r);
    var e := Entry(i, ITYPE_FILE, name);
    CreatFinish(m, AppendEntry(m1, p, e), r, p, e);
  }

  // ---- rmdir ----

  /** Release the target's block and inode, then write the parent without the entry. */
  ghost predicate RmdirSteps(m: Meta, p: iptr, e: Entry, r: Meta) {
    && Sized(m) && p < INODE_COUNT && e.inode < INODE_COUNT && IsDir(m.disk, p)
    && var b := DirBlock(InodeAt(m.disk, e.inode));
       var n := InodeAt(m.disk, p);
       var es := Without(EntriesOf(m.disk, p), e.name);
       && DataBlock(b) && DataBlock(DirBlock(n)) && (forall x :: x in es ==> |x.name| <= 255)
         && TotalLen(es) <= BLOCK_SIZE
       && var m1 := ReleaseBlock(m, b);
          && Sized(m1)
          && var m2 := ReleaseInode(m1, e.inode);
             && Sized(m2)
             && r == m2.(disk := PutInode(m2.disk, p, n.(size := TotalLen(es)))[DirBlock(n) := ByteBlock(Pack(es))])
  }

  /** What cnrmdir relies on: e is the entry of an empty directory in p. */
  ghost predicate CanRmdir(m: Meta, p: iptr, e: Entry) {
    && MetaOk(m) && Lists(Names(m), p, e) && e.inode in Names(m) && Names(m)[e.inode].children == []
    && p < INODE_COUNT && e.inode < INODE_COUNT
  }

  lemma RmdirReleases(m: Meta, i: iptr, b: iptr)
    requires Counted(m) && DataBlock(b) && b in Used(m) && i in Live(m) && i != INODE_ROOTDIR && i < INODE_COUNT
    ensures var m1 := ReleaseBlock(m, b);
            Sized(m1) && var m2 := ReleaseInode(m1, i);
            GaveBack(m, m2, i, b) && SameData(m.disk, m2.disk)
  {
    ReleaseBlockOk(m, b);
    var m1 := ReleaseBlock(m, b);
    hide ReleaseBlock;
    ReleaseInodeOk(m1, i);
  }

  lemma ParentRewritten(m: Meta, m2: Meta, i: iptr, b: iptr, p: iptr, n: Inode, c: iptr, bytes: seq<byte>, r: Meta)
    requires Sized(m) && Sized(m2) && GaveBack(m, m2, i, b) && SameData(m.disk, m2.disk) && p < INODE_COUNT
             && DataBlock(c)
    requires |bytes| == BLOCK_SIZE && r == m2.(disk := PutInode(m2.disk, p, n)[c := ByteBlock(bytes)])
    ensures GaveBack(m, r, i, b) && Edited(m.disk, r.disk, p, n, c, bytes)
  {
    EditedBy(m.disk, m2.disk, p, n, c, bytes);
    InodeWriteKeeps(m2, p, n);
    DataWriteKeeps(m2.(disk := PutInode(m2.disk, p, n)), c, bytes);
  }

  lemma RmdirWrites(m: Meta, p: iptr, e: Entry, r: Meta)
    requires Counted(m) && RmdirSteps(m, p, e, r) && e.inode in Live(m) && e.inode != INODE_ROOTDIR
    requires DirBlock(InodeAt(m.disk, e.inode)) in Used(m) && e.name != DOT && e.name != DOTDOT
    ensures GaveBack(m, r, e.inode, DirBlock(InodeAt(m.disk, e.inode))) && Compacted(m.disk, r.disk, p, e.name)
  {
    hide ReleaseBlock, ReleaseInode, GaveBack, IsDir, EntriesOf, Counted, Pack, Edited;
    var b, n := DirBlock(InodeAt(m.disk, e.inode)), InodeAt(m.disk, p);
    var es := Without(EntriesOf(m.disk, p), e.name);
    RmdirReleases(m, e.inode, b);
    ParentRewritten(m, ReleaseInode(ReleaseBlock(m, b), e.inode), e.inode, b, p, n.(size := TotalLen(es)), DirBlock(n),
      Pack(es), r);
  }

  /** cnrmdir of an empty directory removes exactly that node; its inode and its block are free again. */
  lemma RmdirRemovesIt(m: Meta, p: iptr, e: Entry, r: Meta)
    requires CanRmdir(m, p, e) && RmdirSteps(m, p, e, r)
    ensures DirGone(m, r, p, e)
  {
    hide AllOk, InodeOk, IsDir, SameView, Partition, Tree, OwnMap, DirMap, FileSet, OwnedSet, NodeOf, Counted, Flushed,
         Compacted, DirGone, GaveBack, RmdirSteps;
    InTree(m, p);
    InTree(m, e.inode);
    RmdirNotSelf(m, p, e);
    ListedName(m, p, e);
    RmdirWrites(m, p, e, r);
    KindOfDir(m.disk, e.inode);
    RmdirFinish(m, r, p, e, DirBlock(InodeAt(m.disk, e.inode)));
  }

  lemma KindOfDir(d: Image, i: iptr)
    requires Shape(d) && IsDir(d, i)
    ensures InodeAt(d, i).kind == ITYPE_DIR
  {
  }

  lemma ListedName(m: Meta, p: iptr, e: Entry)
    requires MetaOk(m) && Lists(Names(m), p, e)
    ensures e.name != DOT && e.name != DOTDOT && ValidName(e.name)
  {
    hide AllOk, InodeOk, IsDir, Partition, OwnMap, DirMap, FileSet;
    ListedNameInTree(Names(m), FileSet(m.disk, Live(m)), p, e);
  }

  lemma ListedNameInTree(nodes: Nodes, files: set<iptr>, p: iptr, e: Entry)
    requires Tree(nodes, files) && Lists(nodes, p, e)
    ensures e.name != DOT && e.name != DOTDOT && ValidName(e.name)
  {
    var home, depth :| TreeBy(nodes, files, home, depth);
    assert DirOk(nodes, files, home, p) && EntryOk(nodes, files, home, p, e);
  }

  // ---- mkdir, then rmdir ----

  /** A directory just made can be removed. */
  lemma MadeCanGo(m: Meta, r: Meta, p: iptr, e: Entry, nb: iptr)
    requires DirMade(m, r, p, e, nb) && p < INODE_COUNT
    ensures CanRmdir(r, p, e) && e.inode != p
  {
    hide AllOk, InodeOk, IsDir, SameView, Partition, Tree, OwnMap, DirMap, FileSet, OwnedSet, NodeOf, Counted, Flushed;
    NewInodeNotInTree(m, p, e.inode);
  }

  lemma NewInodeNotInTree(m: Meta, p: iptr, i: iptr)
    requires MetaOk(m) && i !in Live(m)
    ensures i !in Names(m)
  {
    DirMapKeys(m.disk, Live(m));
  }

  /** Making a directory and removing it again restores the names, both bitmaps bit for bit and both
      counters; meanwhile and afterwards every other directory lists, and every file holds, what it did. */
  lemma MkdirThenRmdir(m: Meta, p: iptr, e: Entry, nb: iptr, r: Meta, s: Meta)
    requires DirMade(m, r, p, e, nb) && DirGone(r, s, p, e) && p < INODE_COUNT && FreshName(Names(m), p, e.name)
    ensures Names(s) == Names(m) && FileSet(s.disk, Live(s)) == FileSet(m.disk, Live(m))
    ensures s.blockBm == m.blockBm && s.inodeBm == m.inodeBm && s.super == m.super
    ensures forall j: iptr :: j in Live(m) && j != p ==> SameView(m.disk, r.disk, j) && SameView(r.disk, s.disk, j)
  {
    hide AllOk, InodeOk, IsDir, SameView, Partition, Tree, OwnMap, DirMap, FileSet, OwnedSet, NodeOf, Flushed;
    NewInodeNotInTree(m, p, e.inode);
    RmdirUndoesMkdir(Names(m), p, e);
    assert Used(s) == Used(m);
    assert Live(s) == Live(m);
    BitsInjective(s.blockBm, m.blockBm);
    BitsInjective(s.inodeBm, m.inodeBm);
  }
}
