/** An open descriptor: a cursor over a whole-file write-through cache (src/fs.c:117-129, 811-896). */
module OpenFile {
  import opened Params
  import opened Layout
  import opened BlockMap
  import opened Allocator
  import opened Growth
  import opened Volume
  import opened VolumeOps

  /** fd_entry (include/fs.h:31-37); `data` is empty where the source has a null pointer. */
  datatype FdEntry = FdEntry(state: nat, inodeId: iptr, inode: Inode, cursor: nat, data: seq<byte>)

  /** The bytes of the file as the descriptor sees them. */
  function Text(f: FdEntry): seq<byte>
    requires f.inode.size <= |f.data|
  {
    f.data[..f.inode.size]
  }

  /** Allocator and volume agree, and the disk is up to date. */
  ghost predicate MetaOk(m: Meta) {
    Counted(m) && Flushed(m) && VolumeOk(m.disk, Live(m), Used(m))
  }

  /** The descriptor mirrors a live file: same inode as on disk, cache as long as its blocks, cursor
      inside the file. */
  ghost predicate FdOk(m: Meta, f: FdEntry)
    requires Sized(m)
  {
    && f.inodeId in Live(m) && f.inodeId < INODE_COUNT
    && InodeAt(m.disk, f.inodeId) == f.inode && f.inode.kind == ITYPE_FILE
    && |f.data| == BLOCK_SIZE * f.inode.blocks
    && SizeOk(f.inode)
    && f.cursor <= f.inode.size
  }

  /** Blocks for a size, as cnseek and cnwrite compute them. */
  function BlocksFor(size: nat): nat { size / BLOCK_SIZE + 1 }

  /** What the code relies on before growing a file to `required` bytes. */
  predicate Room(m: Meta, f: FdEntry, required: nat) {
    f.inode.size < required ==>
      BlocksFor(required) <= MAX_BLOCKS && NewBlocks(f.inode, BlocksFor(required)) <= m.super.freeBlocks
  }

  /** src/fs.c:117-129: a zeroed cache that starts with the first `size` bytes of the old one. */
  function ReallocCache(f: FdEntry, needed: nat): (data: seq<byte>)
    requires f.inode.size <= |f.data| && f.inode.size <= BLOCK_SIZE * needed
    ensures |data| == BLOCK_SIZE * needed
  {
    Text(f) + ZeroBytes(BLOCK_SIZE * needed - f.inode.size)
  }

  ghost predicate CanExtend(m: Meta, f: FdEntry, required: nat) {
    MetaOk(m) && FdOk(m, f) && Room(m, f, required)
  }

  // ---- the growth step ----

  lemma SizeFits(n: Inode, required: nat)
    requires SizeOk(n)
    ensures n.size <= BLOCK_SIZE * n.blocks
    ensures n.size < required ==> n.blocks <= BlocksFor(required) && required < BLOCK_SIZE * BlocksFor(required)
    ensures n.size < required ==> SizeOk(n.(size := required, blocks := BlocksFor(required)))
  {
  }

  lemma LiveOwnsUsed(m: Meta, i: iptr)
    requires MetaOk(m) && i in Live(m)
    ensures i < INODE_COUNT && OwnsUsed(m, InodeAt(m.disk, i))
  {
    var own := OwnMap(m.disk, Live(m));
    forall b | b in Owned(m.disk, InodeAt(m.disk, i)) ensures b in Used(m) {
      assert b in own[i];
      OneOwner(own, Used(m), i, i, b);
    }
  }

  lemma ResizedOwns(m: Meta, n: Inode, size: nat)
    requires Sized(m) && OwnsUsed(m, n)
    ensures OwnsUsed(m, n.(size := size))
    ensures BlockList(m.disk, n.(size := size)) == BlockList(m.disk, n)
    ensures Owned(m.disk, n.(size := size)) == Owned(m.disk, n)
  {
  }

  lemma FdCanGrow(m: Meta, f: FdEntry, required: nat)
    requires CanExtend(m, f, required) && f.inode.size < required
    ensures CanGrow(m, f.inode.(size := required), BlocksFor(required))
    ensures f.inode.size <= |f.data| && f.inode.size <= BLOCK_SIZE * BlocksFor(required)
  {
    LiveOwnsUsed(m, f.inodeId);
    ResizedOwns(m, f.inode, required);
    SizeFits(f.inode, required);
  }

  /** An inode-table write changes no data block. */
  lemma PutInodeKeepsMap(d: Image, i: iptr, v: Inode, n: Inode)
    requires Shape(d) && i < INODE_COUNT && WellMapped(d, n)
    ensures var d' := PutInode(d, i, v);
            && Shape(d') && InodeAt(d', i) == v && WellMapped(d', n)
            && BlockList(d', n) == BlockList(d, n) && Owned(d', n) == Owned(d, n)
            && (forall b: nat :: DataBlock(b) ==> d'[b] == d[b])
            && (forall j: nat :: j < INODE_COUNT && j != i ==> InodeAt(d', j) == InodeAt(d, j))
  {
    InodeTableIsMap(d, i, v);
    BlockListAgrees(d, PutInode(d, i, v), n);
  }

  /** A growth followed by the inode write touches only that file. */
  lemma GrownTouches(d: Image, live: set<nat>, used: set<nat>, i: iptr, d1: Image, n1: Inode)
    requires Shape(d) && AllOk(d, live) && i in live && i < INODE_COUNT
    requires Shape(d1) && WellMapped(d1, n1) && OnlyIndirectWritten(d, d1, n1)
    requires n1.blocks > DIRECT && n1.data1 in used ==> n1.data1 in Owned(d, InodeAt(d, i))
    ensures Shape(PutInode(d1, i, n1)) && OnlyTouches(d, PutInode(d1, i, n1), live, used, {i})
  {
    PutInodeKeepsMap(d1, i, n1, n1);
    forall j: iptr | j < INODE_COUNT && j != i ensures InodeAt(PutInode(d1, i, n1), j) == InodeAt(d, j) {
      assert n1.blocks > DIRECT ==> DataBlock(n1.data1) by { OwnedParts(d1, n1); }
    }
  }

  lemma IndirectOwned(m: Meta, n: Inode, m1: Meta, n1: Inode, taken: seq<iptr>)
    requires Sized(m) && Sized(m1) && Mapped(n) && WellMapped(m1.disk, n1)
    requires OwnsAlso(m.disk, n, m1.disk, n1, taken) && AllNew(taken, Used(m))
    ensures n1.blocks > DIRECT && n1.data1 in Used(m) ==> n1.data1 in Owned(m.disk, n)
  {
    OwnedParts(m1.disk, n1);
  }

  /** What Extend leaves for the rest of the system. */
  ghost predicate OthersKept(m: Meta, r: Meta, i: iptr) {
    && MetaOk(m) && MetaOk(r) && Live(r) == Live(m) && r.inodeBm == m.inodeBm
    && DirMap(r.disk, Live(r)) == DirMap(m.disk, Live(m)) && FileSet(r.disk, Live(r)) == FileSet(m.disk, Live(m))
    && r.super.(freeBlocks := m.super.freeBlocks) == m.super
    && forall j: iptr :: j in Live(m) && j != i ==> SameView(m.disk, r.disk, j)
  }

  /** n is inode i of m, but for its size. */
  ghost predicate Sizing(m: Meta, i: iptr, n: Inode)
    requires Sized(m)
  {
    i in Live(m) && i < INODE_COUNT && InodeAt(m.disk, i).(size := n.size) == n && n.kind == ITYPE_FILE
  }

  lemma GrownKeepsOthers(m: Meta, i: iptr, n: Inode, m1: Meta, n1: Inode, added: seq<iptr>, taken: seq<iptr>)
    requires MetaOk(m) && Sizing(m, i, n) && Mapped(n) && SizeOk(n1)
    requires Grown(m, n, m1, n1, added, taken, n1.blocks)
    ensures OthersKept(m, m1.(disk := PutInode(m1.disk, i, n1)), i)
  {
    LiveOwnsUsed(m, i);
    ResizedOwns(m, InodeAt(m.disk, i), n.size);
    IndirectOwned(m, n, m1, n1, taken);
    GrownTouches(m.disk, Live(m), Used(m), i, m1.disk, n1);
    PutInodeKeepsMap(m1.disk, i, n1, n1);
    InodeWriteKeeps(m1, i, n1);
    var t := set b: int | b in taken;
    GrownOwnsMore(m.disk, i, n, m1.disk, n1, taken, t);
    TakenUsed(m, m1, taken, t);
    FileRewritten(m.disk, PutInode(m1.disk, i, n1), Live(m), Used(m), i, t, Used(m1));
  }

  lemma TakenUsed(m: Meta, m1: Meta, taken: seq<iptr>, t: set<int>)
    requires Took(m, m1, taken) && t == set b: int | b in taken
    ensures forall b: int :: b in t ==> b !in Used(m) && b >= BLOCKID_ROOT_DIR
    ensures forall b: int :: b in Used(m1) <==> b in Used(m) || b in t
  {
    SetOfMembers(taken);
  }

  lemma GrownOwnsMore(d: Image, i: iptr, n: Inode, d1: Image, n1: Inode, taken: seq<iptr>, t: set<int>)
    requires Shape(d) && i < INODE_COUNT && Mapped(n) && InodeAt(d, i).(size := n.size) == n
    requires Shape(d1) && WellMapped(d1, n1) && OwnsAlso(d, n, d1, n1, taken) && t == set b: int | b in taken
    ensures Shape(PutInode(d1, i, n1)) && Mapped(InodeAt(d, i))
    ensures OwnedSet(PutInode(d1, i, n1), n1) == OwnedSet(d, InodeAt(d, i)) + t
  {
    PutInodeKeepsMap(d1, i, n1, n1);
    assert Owned(d, InodeAt(d, i)) == Owned(d, n);
  }

  /** The file after growing: every old byte and every old block is kept, zeros are exposed in the cache,
      and no data block is written, so the disk shows whatever the added blocks held. */
  ghost predicate Stretched(m: Meta, f: FdEntry, r: Meta, f': FdEntry, added: seq<iptr>, required: nat)
    requires Sized(m) && Sized(r)
  {
    && f' == f.(data := f'.data, inode := f'.inode) && f'.inode.size == required
    && f.inode.size <= |f.data| && required <= |f'.data| && f.inode.size <= required
    && Text(f') == Text(f) + ZeroBytes(required - f.inode.size)
    && WellMapped(m.disk, f.inode) && WellMapped(r.disk, f'.inode)
    && BlockList(r.disk, f'.inode) == BlockList(m.disk, f.inode) + added
    && (forall b :: b in BlockList(r.disk, f'.inode) ==> b < BD_SIZE_BLOCKS && r.disk[b] == m.disk[b])
    && (forall b :: b in added ==> b !in Used(m))
  }

  lemma GrownShape(m: Meta, n: Inode, m1: Meta, n1: Inode, added: seq<iptr>, taken: seq<iptr>, needed: nat)
    requires Grown(m, n, m1, n1, added, taken, needed)
    ensures n1 == n.(blocks := needed, data0 := n1.data0, data1 := n1.data1) && Mapped(n)
    ensures Sized(m1) && WellMapped(m1.disk, n1)
  {
  }

  /** cnseek and cnwrite, when the file must grow (src/fs.c:838-855, 869-886): new cache, new size, new
      blocks, inode written. */
  lemma ExtendOk(m: Meta, f: FdEntry, required: nat, m1: Meta, n1: Inode, added: seq<iptr>, taken: seq<iptr>, r: Meta,
          f': FdEntry)
    requires CanExtend(m, f, required) && f.inode.size < required
    requires f.inode.size <= |f.data| && f.inode.size <= BLOCK_SIZE * BlocksFor(required)
    requires Grown(m, f.inode.(size := required), m1, n1, added, taken, BlocksFor(required))
    requires r == m1.(disk := PutInode(m1.disk, f.inodeId, n1))
    requires f' == f.(data := ReallocCache(f, BlocksFor(required)), inode := n1)
    ensures OthersKept(m, r, f.inodeId) && FdOk(r, f') && Stretched(m, f, r, f', added, required)
  {
    hide AllOk, Partition, Grown, SameView, Flushed, WellMapped, Owned, OwnMap, DirMap, FileSet;
    var n := f.inode.(size := required);
    SizeFits(f.inode, required);
    LiveOwnsUsed(m, f.inodeId);
    ResizedOwns(m, f.inode, required);
    GrownShape(m, n, m1, n1, added, taken, BlocksFor(required));
    GrownKeepsOthers(m, f.inodeId, n, m1, n1, added, taken);
    PutInodeKeepsMap(m1.disk, f.inodeId, n1, n1);
    StretchedBlocks(m, f, m1, n1, added, taken, required, r, f');
  }

  lemma StretchedBlocks(m: Meta, f: FdEntry, m1: Meta, n1: Inode, added: seq<iptr>, taken: seq<iptr>, required: nat,
          r: Meta, f': FdEntry)
    requires Counted(m) && FdOk(m, f) && OwnsUsed(m, f.inode) && f.inode.size < required
    requires Grown(m, f.inode.(size := required), m1, n1, added, taken, BlocksFor(required))
    requires r == m1.(disk := PutInode(m1.disk, f.inodeId, n1))
    requires f.inode.size <= |f.data| && f' == f.(data := ReallocCache(f, BlocksFor(required)), inode := n1)
    ensures Shape(r.disk) && Stretched(m, f, r, f', added, required)
  {
    var n := f.inode.(size := required);
    ResizedOwns(m, f.inode, required);
    PutInodeKeepsMap(m1.disk, f.inodeId, n1, n1);
    OwnedParts(m1.disk, n1);
    TextExtended(f, BlocksFor(required), required);
  }

  lemma TextExtended(f: FdEntry, needed: nat, required: nat)
    requires f.inode.size <= |f.data| && f.inode.size <= required <= BLOCK_SIZE * needed
    ensures ReallocCache(f, needed)[..required] == Text(f) + ZeroBytes(required - f.inode.size)
  {
  }
}
