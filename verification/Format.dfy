/** cnmkfs, cnmount and cnumount (src/fs.c:183-309): a fresh volume is in order, unmounting and mounting again
    changes nothing, and when an image that is marked clean can be trusted. */
module Format {
  import opened Params
  import opened Bitmap
  import opened Layout
  import opened Allocator
  import opened Namespace
  import opened Volume
  import opened VolumeOps
  import opened OpenFile
  import opened DirOps
  import opened MetaOps

  /** The superblock that cnmkfs writes. */
  function NewSuper(): Superblock {
    Superblock(INODE_COUNT, BD_SIZE_BLOCKS, INODE_COUNT - 1, BD_SIZE_BLOCKS - 4 - INODE_TABLE_BLOCKS, FS_MAGIC,
      VALID_FS)
  }

  /** d is d0 after cnmkfs; whatever else the device held stays. */
  ghost predicate MadeFs(d0: Image, bb: seq<bv8>, ib: seq<bv8>, d: Image) {
    && Shape(d0) && |bb| == BLOCK_SIZE && |ib| == BLOCK_SIZE
    && (forall b: nat :: b in Bits(bb) <==> b <= BLOCKID_ROOT_DIR)
    && (forall i: nat :: i in Bits(ib) <==> i == INODE_ROOTDIR)
    && var d1 := d0[BLOCKID_SUPER := SuperBlock(NewSuper())]
                   [BLOCKID_BLOCK_BITMAP := BitBlock(bb)][BLOCKID_INODE_BITMAP := BitBlock(ib)];
       && Shape(d1)
       && d == PutInode(d1, INODE_ROOTDIR, DirInode(BLOCKID_ROOT_DIR))
               [BLOCKID_ROOT_DIR := ByteBlock(NewDirBytes(INODE_ROOTDIR, INODE_ROOTDIR))]
  }

  /** What cnmount reads into the caches; a clean superblock is marked in memory only. */
  function Mounted(d: Image): Meta
    requires Shape(d)
  {
    var sb := d[BLOCKID_SUPER].sb;
    Meta(d, if sb.magic == FS_MAGIC && sb.state == VALID_FS then sb.(state := ERROR_FS) else sb,
         d[BLOCKID_BLOCK_BITMAP].bits, d[BLOCKID_INODE_BITMAP].bits)
  }

  /** cnumount: the clean flag, then everything flushed. */
  function Unmounted(m: Meta): Meta
    requires |m.disk| == BD_SIZE_BLOCKS
  {
    Flush(m.(super := m.super.(state := VALID_FS)))
  }

  /** What cnmount relies on: the superblock of this file system, and caches and volume that agree. */
  ghost predicate Mountable(d: Image) {
    && Shape(d) && d[BLOCKID_SUPER].sb.magic == FS_MAGIC
    && (d[BLOCKID_SUPER].sb.state == VALID_FS || d[BLOCKID_SUPER].sb.state == ERROR_FS)
    && MetaOk(Mounted(d))
  }

  lemma MountableFacts(d: Image)
    requires Mountable(d)
    ensures Shape(d) && Mounted(d).disk == d && MetaOk(Mounted(d)) && Sized(Mounted(d)) && AllOk(d, Live(Mounted(d)))
  {
  }

  // ---- a fresh volume ----

  lemma CountBelow(n: nat, s: set<nat>)
    requires forall i: nat :: i in s <==> i < n
    ensures |s| == n
  {
    BelowMembers(n);
    assert s == Below(n);
  }

  lemma FreshCounted(d: Image)
    requires Shape(d) && d[BLOCKID_SUPER].sb == NewSuper()
    requires forall b: nat :: b in Bits(d[BLOCKID_BLOCK_BITMAP].bits) <==> b <= BLOCKID_ROOT_DIR
    requires forall i: nat :: i in Bits(d[BLOCKID_INODE_BITMAP].bits) <==> i == INODE_ROOTDIR
    ensures Counted(Mounted(d)) && Flushed(Mounted(d))
  {
    var used, first: nat := 104, 1;
    CountBelow(used, Bits(d[BLOCKID_BLOCK_BITMAP].bits));
    CountBelow(first, Bits(d[BLOCKID_INODE_BITMAP].bits));
  }

  lemma FreshVolume(d: Image, live: set<nat>, used: set<nat>)
    requires HoldsDir(d, INODE_ROOTDIR, DirInode(BLOCKID_ROOT_DIR), NewDirBytes(INODE_ROOTDIR, INODE_ROOTDIR))
    requires forall i: nat :: i in live <==> i == INODE_ROOTDIR
    requires forall b: nat :: b in used <==> b <= BLOCKID_ROOT_DIR
    ensures VolumeOk(d, live, used)
    ensures DirMap(d, live) == map[INODE_ROOTDIR := DirNode(INODE_ROOTDIR, [])] && FileSet(d, live) == {}
  {
    hide NewDirBytes, DirInode, OwnMap, DirMap, FileSet, Tree, Partition, NodeOf, OwnedSet;
    NewDirOk(d, INODE_ROOTDIR, INODE_ROOTDIR, BLOCKID_ROOT_DIR);
    hide HoldsDir, InodeOk;
    OnlyRoot(d, live);
    FreshOwners(d, live, used);
    FreshTree(DirMap(d, live));
  }

  /** With the root as the only live inode the three views are what one directory gives. */
  lemma OnlyRoot(d: Image, live: set<nat>)
    requires Shape(d) && IsDir(d, INODE_ROOTDIR) && NodeOf(d, INODE_ROOTDIR) == DirNode(INODE_ROOTDIR, [])
    requires forall i: nat :: i in live <==> i == INODE_ROOTDIR
    ensures AllOk(d, live) && InodeOk(d, INODE_ROOTDIR)
    ensures DirMap(d, live) == map[INODE_ROOTDIR := DirNode(INODE_ROOTDIR, [])] && FileSet(d, live) == {}
  {
    hide InodeOk, NodeOf;
    RootIsDir(d);
  }

  lemma RootIsDir(d: Image)
    requires Shape(d) && IsDir(d, INODE_ROOTDIR)
    ensures InodeOk(d, INODE_ROOTDIR) && InodeAt(d, INODE_ROOTDIR).kind == ITYPE_DIR
  {
  }

  lemma FreshTree(nodes: Nodes)
    requires nodes == map[INODE_ROOTDIR := DirNode(INODE_ROOTDIR, [])]
    ensures Tree(nodes, {})
  {
    assert TreeBy(nodes, {}, map[], map[INODE_ROOTDIR := 0]);
  }

  lemma FreshOwners(d: Image, live: set<nat>, used: set<nat>)
    requires Shape(d) && AllOk(d, live) && InodeOk(d, INODE_ROOTDIR)
    requires forall i: nat :: i in live <==> i == INODE_ROOTDIR
    requires OwnedSet(d, InodeAt(d, INODE_ROOTDIR)) == {BLOCKID_ROOT_DIR}
    requires forall b: nat :: b in used <==> b <= BLOCKID_ROOT_DIR
    ensures Partition(OwnMap(d, live), used)
  {
    var owner: map<int, int> := map[BLOCKID_ROOT_DIR := INODE_ROOTDIR];
    OwnedByIntro(OwnMap(d, live), used, owner);
  }

  lemma FreshImage(d0: Image, bb: seq<bv8>, ib: seq<bv8>, d: Image)
    requires MadeFs(d0, bb, ib, d)
    ensures Shape(d) && d[BLOCKID_SUPER].sb == NewSuper()
    ensures d[BLOCKID_BLOCK_BITMAP].bits == bb && d[BLOCKID_INODE_BITMAP].bits == ib
    ensures HoldsDir(d, INODE_ROOTDIR, DirInode(BLOCKID_ROOT_DIR), NewDirBytes(INODE_ROOTDIR, INODE_ROOTDIR))
  {
    var d1 := d0[BLOCKID_SUPER := SuperBlock(NewSuper())]
                [BLOCKID_BLOCK_BITMAP := BitBlock(bb)][BLOCKID_INODE_BITMAP := BitBlock(ib)];
    InodeTableIsMap(d1, INODE_ROOTDIR, DirInode(BLOCKID_ROOT_DIR));
  }

  /** A volume just made and mounted is in order: 103 metadata blocks and the root's one block are taken, one
      inode is live, and the root directory is empty. */
  lemma MkfsThenMount(d0: Image, bb: seq<bv8>, ib: seq<bv8>, d: Image)
    requires MadeFs(d0, bb, ib, d)
    ensures Mountable(d) && Mounted(d).super.state == ERROR_FS
    ensures forall b: nat :: b in Used(Mounted(d)) <==> b <= BLOCKID_ROOT_DIR
    ensures forall i: nat :: i in Live(Mounted(d)) <==> i == INODE_ROOTDIR
    ensures Names(Mounted(d)) == map[INODE_ROOTDIR := DirNode(INODE_ROOTDIR, [])]
    ensures FileSet(d, Live(Mounted(d))) == {}
  {
    FreshImage(d0, bb, ib, d);
    FreshCounted(d);
    hide MadeFs, Counted;
    FreshVolume(d, Live(Mounted(d)), Used(Mounted(d)));
  }

  // ---- unmount and mount ----

  /** Unmounting and mounting again gives back the same caches, and every byte from the inode table on. */
  lemma UmountThenMount(m: Meta)
    requires Sized(m) && m.super.state == ERROR_FS && m.super.magic == FS_MAGIC
    ensures Shape(Unmounted(m).disk) && SameData(m.disk, Unmounted(m).disk)
    ensures Unmounted(m).disk[BLOCKID_SUPER].sb.state == VALID_FS
    ensures Mounted(Unmounted(m).disk) == m.(disk := Unmounted(m).disk)
  {
  }

  /** A volume in order is in order again after unmounting and mounting, with the same names, files and bytes. */
  lemma RemountKeepsVolume(m: Meta)
    requires MetaOk(m) && m.super.state == ERROR_FS && m.super.magic == FS_MAGIC
    ensures Shape(Unmounted(m).disk)
    ensures var r := Mounted(Unmounted(m).disk);
            && MetaOk(r) && r.super == m.super && r.blockBm == m.blockBm && r.inodeBm == m.inodeBm
            && Names(r) == Names(m) && FileSet(r.disk, Live(r)) == FileSet(m.disk, Live(m))
            && forall j: iptr :: j in Live(m) ==> SameView(m.disk, r.disk, j)
  {
    UmountThenMount(m);
    RemountCounted(m);
    hide Unmounted, Mounted, Counted, Flushed;
    NothingTouched(m.disk, Unmounted(m).disk, Live(m), Used(m));
  }

  lemma RemountCounted(m: Meta)
    requires Counted(m) && Flushed(m) && m.super.state == ERROR_FS && m.super.magic == FS_MAGIC
    ensures Sized(m) && Shape(Unmounted(m).disk) && Counted(Mounted(Unmounted(m).disk))
            && Flushed(Mounted(Unmounted(m).disk))
  {
  }

  // ---- the clean flag ----

  /** If the image is marked clean, it can be mounted: its own counters, bitmaps, block owners and tree agree. */
  ghost predicate Honest(d: Image) {
    Shape(d) && (d[BLOCKID_SUPER].sb.state == VALID_FS ==> Mountable(d))
  }

  ghost predicate AllHonest(images: seq<Image>) {
    forall k :: 0 <= k < |images| ==> Honest(images[k])
  }

  /** The superblock on the disk is marked dirty. */
  ghost predicate Dirty(d: Image) {
    && |d| == BD_SIZE_BLOCKS && d[BLOCKID_SUPER].SuperBlock? && d[BLOCKID_SUPER].sb.state == ERROR_FS
  }

  lemma DirtyHonest(d: Image)
    requires Shape(d) && Dirty(d)
    ensures Honest(d)
  {
  }

  /** While nothing has been flushed since the mount the disk may still be marked clean. As long as caches and volume
      are in order, the mark is true: mounting the disk would give back the caches. */
  lemma OrderHonest(m: Meta)
    requires MetaOk(m) && m.super.state == ERROR_FS && m.super.magic == FS_MAGIC
    ensures Honest(m.disk)
  {
    OrderFlushed(m);
    hide MetaOk, Counted;
    if m.disk[BLOCKID_SUPER].sb.state == VALID_FS {
      RereadSame(m);
    }
  }

  lemma OrderFlushed(m: Meta)
    requires MetaOk(m)
    ensures Sized(m) && Flushed(m)
  {
    hide Counted;
    assert Sized(m) by { CountedSized(m); }
  }

  lemma CountedSized(m: Meta)
    requires Counted(m)
    ensures Sized(m)
  {
  }

  lemma RereadSame(m: Meta)
    requires Sized(m) && Flushed(m) && m.super.state == ERROR_FS && m.super.magic == FS_MAGIC
    requires m.disk[BLOCKID_SUPER].sb.state == VALID_FS
    ensures Mounted(m.disk) == m && m.disk[BLOCKID_SUPER].sb.magic == FS_MAGIC
  {
  }

  /** A write outside the superblock and the bitmaps: the image stays honest if the mark on the disk is gone already,
      or if the write leaves caches and volume in order. */
  lemma DataWriteHonest(m: Meta, lba: nat, b: Block)
    requires m.super.state == ERROR_FS && m.super.magic == FS_MAGIC
    requires BLOCKID_INODE_TABLE <= lba < |m.disk| && Shape(m.disk[lba := b])
    requires Dirty(m.disk) || MetaOk(m.(disk := m.disk[lba := b]))
    ensures Honest(m.disk[lba := b])
  {
    hide MetaOk, Shape, Mountable;
    if Dirty(m.disk) {
      DirtyHonest(m.disk[lba := b]);
    } else {
      OrderHonest(m.(disk := m.disk[lba := b]));
    }
  }

  /** The three images that a flush goes through: the superblock goes first and is not clean. */
  lemma FlushHonest(m: Meta)
    requires Sized(m) && m.super.state == ERROR_FS
    ensures var d1 := m.disk[BLOCKID_SUPER := SuperBlock(m.super)];
            var d2 := d1[BLOCKID_BLOCK_BITMAP := BitBlock(m.blockBm)];
            var d3 := d2[BLOCKID_INODE_BITMAP := BitBlock(m.inodeBm)];
            Honest(d1) && Honest(d2) && Honest(d3) && Flush(m).disk == d3 && Dirty(d3)
  {
    hide MetaOk, Mountable;
  }

  /** The three images of an unmount: the bitmaps on disk already equal the caches when the clean flag goes out, so the
      first image is the last one, and it can be mounted. */
  lemma UmountHonest(m: Meta)
    requires MetaOk(m) && m.super.state == ERROR_FS && m.super.magic == FS_MAGIC
    ensures var sb := m.super.(state := VALID_FS);
            var d1 := m.disk[BLOCKID_SUPER := SuperBlock(sb)];
            var d2 := d1[BLOCKID_BLOCK_BITMAP := BitBlock(m.blockBm)];
            var d3 := d2[BLOCKID_INODE_BITMAP := BitBlock(m.inodeBm)];
            Honest(d1) && Honest(d2) && Honest(d3) && Unmounted(m).disk == d3 && Mountable(d3)
  {
    OrderFlushed(m);
    RemountKeepsVolume(m);
    UmountThenMount(m);
    hide MetaOk, Mounted;
    UmountImages(m);
  }

  lemma UmountImages(m: Meta)
    requires Sized(m) && Flushed(m)
    ensures var sb := m.super.(state := VALID_FS);
            var d1 := m.disk[BLOCKID_SUPER := SuperBlock(sb)];
            var d2 := d1[BLOCKID_BLOCK_BITMAP := BitBlock(m.blockBm)];
            var d3 := d2[BLOCKID_INODE_BITMAP := BitBlock(m.inodeBm)];
            d1 == d2 == d3 == Unmounted(m).disk && d3[BLOCKID_SUPER] == SuperBlock(sb)
  {
  }
}
