/** cnread, cnseek and cnwrite on an open descriptor (src/fs.c:811-896): the descriptor refines a byte
    sequence with a cursor, and writes go through to the disk. */
module FileOps {
  import opened Params
  import opened Layout
  import opened BlockMap
  import opened Allocator
  import opened Growth
  import opened Volume
  import opened VolumeOps
  import opened OpenFile

  /** The cache equals what llread of the inode on disk delivers. */
  ghost predicate Coherent(m: Meta, f: FdEntry) {
    Sized(m) && WellMapped(m.disk, f.inode) && InData(BlockList(m.disk, f.inode)) && Load(m.disk, f.inode) == f.data
  }

  lemma SameViewTrans(d: Image, e: Image, g: Image, j: iptr)
    requires Shape(d) && Shape(e) && Shape(g) && SameView(d, e, j) && SameView(e, g, j)
    ensures SameView(d, g, j)
  {
  }

  lemma OthersKeptTrans(m: Meta, r: Meta, s: Meta, i: iptr)
    requires OthersKept(m, r, i) && OthersKept(r, s, i)
    ensures OthersKept(m, s, i)
  {
    forall j: iptr | j in Live(m) && j != i ensures SameView(m.disk, s.disk, j) {
      SameViewTrans(m.disk, r.disk, s.disk, j);
    }
  }

  lemma SameViewRefl(d: Image, live: set<nat>)
    requires Shape(d) && AllOk(d, live)
    ensures forall j: iptr :: j in live ==> SameView(d, d, j)
  {
    forall j: iptr | j in live ensures SameView(d, d, j) {
      SameInodeFrame(d, d, j);
    }
  }

  lemma OthersKeptOk(m: Meta, r: Meta, i: iptr)
    requires OthersKept(m, r, i)
    ensures MetaOk(r)
  {
  }

  lemma OthersKeptRefl(m: Meta, i: iptr)
    requires MetaOk(m)
    ensures OthersKept(m, m, i)
  {
    SameViewRefl(m.disk, Live(m));
  }

  /** r and f' are m and f after making room for `required` bytes: same cursor, old bytes then zeros. */
  ghost predicate ExtendedTo(m: Meta, f: FdEntry, r: Meta, f': FdEntry, required: nat)
  {
    && Sized(m) && Sized(r)
    && FdOk(r, f') && f'.cursor == f.cursor && f'.state == f.state && f'.inodeId == f.inodeId
    && f.inode.size <= |f.data| && f'.inode.size <= |f'.data|
    && f'.inode.size == (if f.inode.size < required then required else f.inode.size)
    && Text(f') == Text(f) + ZeroBytes(f'.inode.size - f.inode.size)
  }

  lemma StretchedIsExtended(m: Meta, f: FdEntry, r: Meta, f': FdEntry, added: seq<iptr>, required: nat)
    requires Sized(m) && Sized(r) && FdOk(r, f') && Stretched(m, f, r, f', added, required) && f.inode.size < required
    ensures ExtendedTo(m, f, r, f', required)
  {
  }

  lemma NothingToExtend(m: Meta, f: FdEntry, required: nat)
    requires Sized(m) && FdOk(m, f) && required <= f.inode.size
    ensures ExtendedTo(m, f, m, f, required)
  {
    SizeFits(f.inode, required);
    assert Text(f) + ZeroBytes(0) == Text(f);
  }

  // ---- making room ----

  /** Making room for `required` bytes (src/fs.c:838-855, 869-886). */
  ghost predicate ExtendSteps(m: Meta, f: FdEntry, required: nat, m1: Meta, n1: Inode, added: seq<iptr>,
          taken: seq<iptr>, r: Meta, f': FdEntry) {
    if f.inode.size < required then
      && f.inode.size <= |f.data| && f.inode.size <= BLOCK_SIZE * BlocksFor(required) && f.inodeId < INODE_COUNT
      && Grown(m, f.inode.(size := required), m1, n1, added, taken, BlocksFor(required)) && Sized(m1)
      && r == m1.(disk := PutInode(m1.disk, f.inodeId, n1))
      && f' == f.(data := ReallocCache(f, BlocksFor(required)), inode := n1)
    else r == m && f' == f
  }

  ghost predicate Resized(m: Meta, f: FdEntry, required: nat, r: Meta, f': FdEntry) {
    exists m1, n1, added, taken :: ExtendSteps(m, f, required, m1, n1, added, taken, r, f')
  }

  /** Making room keeps the volume, every other inode, and every byte of the file, then shows zeros. */
  lemma ResizedOk(m: Meta, f: FdEntry, required: nat, r: Meta, f': FdEntry)
    requires CanExtend(m, f, required) && Resized(m, f, required, r, f')
    ensures OthersKept(m, r, f.inodeId) && ExtendedTo(m, f, r, f', required)
  {
    hide FdOk, OthersKept, Grown, MetaOk, Stretched, ExtendedTo;
    if f.inode.size < required {
      var m1, n1, added, taken :| ExtendSteps(m, f, required, m1, n1, added, taken, r, f');
      ExtendOk(m, f, required, m1, n1, added, taken, r, f');
      OthersKeptOk(m, r, f.inodeId);
      MetaSized(m);
      MetaSized(r);
      StretchedIsExtended(m, f, r, f', added, required);
    } else {
      MetaSized(m);
      OthersKeptRefl(m, f.inodeId);
      NothingToExtend(m, f, required);
    }
  }

  lemma MetaSized(m: Meta)
    requires MetaOk(m)
    ensures Sized(m)
  {
  }

  // ---- seek ----

  /** The descriptor after a seek: every old byte kept, zeros exposed; the size comes from cursor + offset,
      the cursor from offset. */
  ghost predicate Sought(m: Meta, f: FdEntry, r: Meta, f': FdEntry, offset: nat)
  {
    && Sized(m) && Sized(r)
    && FdOk(r, f') && f'.state == f.state && f'.inodeId == f.inodeId
    && f.inode.size <= |f.data| && f'.inode.size <= |f'.data|
    && f'.cursor == offset
    && f'.inode.size == (if f.inode.size < f.cursor + offset then f.cursor + offset else f.inode.size)
    && Text(f') == Text(f) + ZeroBytes(f'.inode.size - f.inode.size)
  }

  lemma SoughtFrom(m: Meta, f: FdEntry, r: Meta, f1: FdEntry, offset: nat)
    requires ExtendedTo(m, f, r, f1, f.cursor + offset)
    ensures Sought(m, f, r, f1.(cursor := offset), offset)
  {
  }

  // ---- write ----

  function Splice(data: seq<byte>, at: nat, buf: seq<byte>): (r: seq<byte>)
    requires at + |buf| <= |data|
    ensures |r| == |data|
  {
    data[..at] + buf + data[at + |buf|..]
  }

  /** llwrite of a descriptor's file. */
  function Stored(m: Meta, f: FdEntry, data: seq<byte>): Meta
    requires Shape(m.disk) && Mapped(f.inode) && InData(BlockList(m.disk, f.inode))
    requires |data| == BLOCK_SIZE * f.inode.blocks
  {
    m.(disk := Store(m.disk, BlockList(m.disk, f.inode), data))
  }

  lemma FdMapped(m: Meta, f: FdEntry)
    requires MetaOk(m) && FdOk(m, f)
    ensures WellMapped(m.disk, f.inode) && InData(BlockList(m.disk, f.inode)) && f.inode.size <= |f.data|
  {
    LiveOwnsUsed(m, f.inodeId);
    OwnedParts(m.disk, f.inode);
    SizeFits(f.inode, 0);
  }

  /** Writing over some of a file's blocks keeps the volume and every other inode. */
  lemma SomeStored(m: Meta, i: iptr, l: seq<iptr>, data: seq<byte>)
    requires MetaOk(m) && i in Live(m) && i < INODE_COUNT && InodeAt(m.disk, i).kind == ITYPE_FILE
             && Mapped(InodeAt(m.disk, i))
    requires InData(l) && |data| == BLOCK_SIZE * |l| && forall b :: b in l ==>
             b in BlockList(m.disk, InodeAt(m.disk, i))
    ensures OthersKept(m, m.(disk := Store(m.disk, l, data)), i)
  {
    hide Partition, OwnMap, DirMap, FileSet, SameView, Store, Content;
    var d' := Store(m.disk, l, data);
    assert InodeOk(m.disk, i);
    StoreFrame(m.disk, l, data);
    StoreTouches(m.disk, Live(m), Used(m), i, l, data);
    StoredMeta(m, l, data);
    StoredOwned(m.disk, InodeAt(m.disk, i), l, data);
    FileRewritten(m.disk, d', Live(m), Used(m), i, {}, Used(m));
  }

  /** A file that is being written over is in order after every block of it. */
  lemma PartlyOk(m: Meta, f: FdEntry, data: seq<byte>, k: nat)
    requires MetaOk(m) && FdOk(m, f) && |data| == |f.data| && k <= f.inode.blocks
    ensures Mapped(f.inode) && InData(BlockList(m.disk, f.inode))
    ensures MetaOk(m.(disk := Partly(m.disk, BlockList(m.disk, f.inode), data, k)))
  {
    FdMapped(m, f);
    MetaSized(m);
    hide MetaOk, Store, OthersKept, WellMapped, BlockList, InData;
    var l := BlockList(m.disk, f.inode);
    Front(l, k);
    SomeStored(m, f.inodeId, l[..k], data[..BLOCK_SIZE * k]);
    OthersKeptOk(m, m.(disk := Partly(m.disk, l, data, k)), f.inodeId);
  }

  lemma PartsOk(m: Meta, f: FdEntry, data: seq<byte>)
    requires MetaOk(m) && Sized(m) && FdOk(m, f) && |data| == |f.data| && Mapped(f.inode)
             && InData(BlockList(m.disk, f.inode))
    ensures forall k: nat :: k <= f.inode.blocks ==>
            MetaOk(m.(disk := Partly(m.disk, BlockList(m.disk, f.inode), data, k)))
  {
    hide MetaOk, Partly, BlockList, InData;
    forall k: nat | k <= f.inode.blocks
      ensures MetaOk(m.(disk := Partly(m.disk, BlockList(m.disk, f.inode), data, k)))
    {
      PartlyOk(m, f, data, k);
    }
  }

  lemma Front(l: seq<iptr>, k: nat)
    requires InData(l) && k <= |l|
    ensures InData(l[..k]) && forall b :: b in l[..k] ==> b in l
  {
  }

  /** llwrite of one file keeps the volume and every other inode; it reads back what was written. */
  lemma StoreOk(m: Meta, f: FdEntry, data: seq<byte>)
    requires MetaOk(m) && FdOk(m, f) && |data| == |f.data|
    ensures WellMapped(m.disk, f.inode) && InData(BlockList(m.disk, f.inode))
    ensures OthersKept(m, Stored(m, f, data), f.inodeId) && Sized(Stored(m, f, data))
    ensures FdOk(Stored(m, f, data), f.(data := data)) && Coherent(Stored(m, f, data), f.(data := data))
  {
    FdMapped(m, f);
    MetaSized(m);
    hide MetaOk, Store, Content, OthersKept, Coherent, WellMapped, BlockList, InData;
    SomeStored(m, f.inodeId, BlockList(m.disk, f.inode), data);
    ReadsBack(m, f, data);
  }

  lemma ReadsBack(m: Meta, f: FdEntry, data: seq<byte>)
    requires Sized(m) && FdOk(m, f) && WellMapped(m.disk, f.inode) && InData(BlockList(m.disk, f.inode))
             && |data| == |f.data|
    ensures Sized(Stored(m, f, data)) && FdOk(Stored(m, f, data), f.(data := data))
            && Coherent(Stored(m, f, data), f.(data := data))
  {
    StoreLoad(m.disk, f.inode, data);
    SameTable(m.disk, BlockList(m.disk, f.inode), data, f.inodeId);
  }

  /** Writing data blocks leaves the inode table alone. */
  lemma SameTable(d: Image, l: seq<iptr>, data: seq<byte>, i: iptr)
    requires Shape(d) && InData(l) && |data| == BLOCK_SIZE * |l| && i < INODE_COUNT
    ensures Shape(Store(d, l, data)) && InodeAt(Store(d, l, data), i) == InodeAt(d, i)
  {
    StoreFrame(d, l, data);
    assert InodeBlockOf(i) !in l;
  }

  lemma StoreTouches(d: Image, live: set<nat>, used: set<nat>, i: iptr, l: seq<iptr>, data: seq<byte>)
    requires Shape(d) && AllOk(d, live) && i in live && i < INODE_COUNT
    requires InData(l) && |data| == BLOCK_SIZE * |l| && Mapped(InodeAt(d, i))
    requires forall b :: b in l ==> b in BlockList(d, InodeAt(d, i))
    ensures OnlyTouches(d, Store(d, l, data), live, used, {i})
    ensures InodeAt(Store(d, l, data), i) == InodeAt(d, i)
  {
    StoreFrame(d, l, data);
    OwnedParts(d, InodeAt(d, i));
    assert forall b: nat :: b < BLOCKID_ROOT_DIR ==> b !in l;
  }

  lemma StoredMeta(m: Meta, l: seq<iptr>, data: seq<byte>)
    requires Counted(m) && Flushed(m) && InData(l) && |data| == BLOCK_SIZE * |l|
    ensures Counted(m.(disk := Store(m.disk, l, data))) && Flushed(m.(disk := Store(m.disk, l, data)))
  {
    StoreFrame(m.disk, l, data);
    assert forall b: nat :: b < BLOCKID_ROOT_DIR ==> b !in l;
  }

  lemma StoredOwned(d: Image, n: Inode, l: seq<iptr>, data: seq<byte>)
    requires Shape(d) && WellMapped(d, n) && InData(l) && |data| == BLOCK_SIZE * |l|
    requires forall b :: b in l ==> b in BlockList(d, n)
    ensures Shape(Store(d, l, data)) && WellMapped(Store(d, l, data), n)
    ensures OwnedSet(Store(d, l, data), n) == OwnedSet(d, n) + {}
  {
    OwnedParts(d, n);
    StoreFrame(d, l, data);
    BlockListAgrees(d, Store(d, l, data), n);
  }

  /** The descriptor after a write: content[..c] + buf + content[c+len..], the cursor advanced by len, and
      the disk equal to the cache. */
  ghost predicate Written(m: Meta, f: FdEntry, r: Meta, f': FdEntry, buf: seq<byte>)
  {
    && Sized(m) && Sized(r)
    && FdOk(r, f') && Coherent(r, f') && f'.state == f.state && f'.inodeId == f.inodeId
    && f.inode.size <= |f.data| && f'.inode.size <= |f'.data|
    && f'.cursor == f.cursor + |buf| && f.cursor <= f.inode.size
    && Text(f') == Text(f)[..f.cursor] + buf + (if f'.cursor <= f.inode.size then Text(f)[f'.cursor..] else [])
  }

  /** Making room, splicing into the cache and writing the whole file through. */
  lemma WriteOk(m: Meta, f: FdEntry, m1: Meta, f1: FdEntry, buf: seq<byte>, f2: FdEntry)
    requires OthersKept(m, m1, f.inodeId) && ExtendedTo(m, f, m1, f1, f.cursor + |buf|)
    requires f.cursor <= f.inode.size && f1.cursor + |buf| <= |f1.data|
    requires f2 == f1.(data := Splice(f1.data, f1.cursor, buf), cursor := f1.cursor + |buf|)
    ensures WellMapped(m1.disk, f1.inode) && InData(BlockList(m1.disk, f1.inode))
            && |f2.data| == BLOCK_SIZE * f1.inode.blocks
    ensures OthersKept(m, Stored(m1, f1, f2.data), f.inodeId)
    ensures Written(m, f, Stored(m1, f1, f2.data), f2, buf)
  {
    hide Stored, OthersKept, MetaOk, Coherent, Written;
    OthersKeptOk(m, m1, f.inodeId);
    StoreOk(m1, f1, f2.data);
    var r := Stored(m1, f1, f2.data);
    OthersKeptTrans(m, m1, r, f.inodeId);
    WrittenText(f, f1, buf, f2);
    WrittenFd(m, f, m1, f1, buf, r, f2);
  }

  lemma WrittenFd(m: Meta, f: FdEntry, m1: Meta, f1: FdEntry, buf: seq<byte>, r: Meta, f2: FdEntry)
    requires ExtendedTo(m, f, m1, f1, f.cursor + |buf|) && f.cursor <= f.inode.size && f1.cursor + |buf| <= |f1.data|
    requires f2 == f1.(data := Splice(f1.data, f1.cursor, buf), cursor := f1.cursor + |buf|)
    requires Sized(r) && FdOk(r, f1.(data := f2.data)) && Coherent(r, f1.(data := f2.data))
    requires f2.inode.size <= |f2.data|
    requires Text(f2) == Text(f)[..f.cursor] + buf + (if f2.cursor <= f.inode.size then Text(f)[f2.cursor..] else [])
    ensures Written(m, f, r, f2, buf)
  {
  }

  lemma WrittenText(f: FdEntry, f1: FdEntry, buf: seq<byte>, f': FdEntry)
    requires f.cursor <= f.inode.size <= |f.data| && f1.inode.size <= |f1.data| && f1.cursor == f.cursor
    requires f1.inode.size == if f.inode.size < f.cursor + |buf| then f.cursor + |buf| else f.inode.size
    requires Text(f1) == Text(f) + ZeroBytes(f1.inode.size - f.inode.size)
    requires f' == f1.(data := Splice(f1.data, f1.cursor, buf), cursor := f1.cursor + |buf|)
    ensures Text(f') == Text(f)[..f.cursor] + buf + if f'.cursor <= f.inode.size then Text(f)[f'.cursor..] else []
  {
    var c, e := f.cursor, f.cursor + |buf|;
    assert Text(f') == Text(f1)[..c] + buf + Text(f1)[e..];
    assert Text(f1)[..c] == Text(f)[..c];
    if e <= f.inode.size {
      assert Text(f1) == Text(f);
    } else {
      assert Text(f1)[e..] == [];
    }
  }
}
