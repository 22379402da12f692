/** The device with the three cached metadata blocks (src/fs.c:47-113, 134-169, 232-358; src/inode.c): the
    allocator, the inode table, block-list growth and whole-file transfers, in place. */
module StoreLayer {
  import opened Params
  import opened LittleEndian
  import opened Bitmap
  import opened Layout
  import opened BlockMap
  import opened Allocator
  import opened Growth
  import opened BlockDev
  import opened Dirent
  import opened DirOps
  import opened OpenFile
  import opened Format

  class Store {
    const dev: BlockDevice
    const blockBm: array<bv8>
    const inodeBm: array<bv8>
    var super: Superblock

    /** How many images the device had held when the volume was mounted. */
    ghost var epoch: nat

    /** The static caches of src/fs.c:47-50, zeroed, over an attached device. */
    constructor (device: BlockDevice)
      requires device.blocks.Length == BD_SIZE_BLOCKS && device.Recorded()
      ensures Parts() && dev == device && fresh(this) && fresh(blockBm) && fresh(inodeBm)
    {
      dev := device;
      blockBm := new bv8[BLOCK_SIZE](_ => 0);
      inodeBm := new bv8[BLOCK_SIZE](_ => 0);
      super := Superblock(0, 0, 0, 0, 0, 0);
      epoch := 0;
    }

    ghost function Repr(): set<object> {
      {this, dev, dev.blocks, blockBm, inodeBm}
    }

    ghost function M(): Meta
      reads this, dev, dev.blocks, blockBm, inodeBm
    {
      Meta(dev.blocks[..], super, blockBm[..], inodeBm[..])
    }

    ghost predicate Parts()
      reads this, dev, dev.blocks, blockBm, inodeBm
    {
      && dev.blocks.Length == BD_SIZE_BLOCKS && blockBm.Length == BLOCK_SIZE && inodeBm.Length == BLOCK_SIZE
      && blockBm != inodeBm && dev.Recorded()
    }

    /** A mounted store: well shaped, and every image the device has held since the mount is honest. */
    ghost predicate Ok()
      reads this, dev, dev.blocks, blockBm, inodeBm
    {
      && Parts() && Sized(M()) && super.state == ERROR_FS && super.magic == FS_MAGIC
      && epoch < |dev.history| && AllHonest(dev.history[epoch..])
    }

    /** The device only adds images to what it has held. */
    twostate predicate Later()
      reads this, dev, dev.blocks, blockBm, inodeBm
    {
      epoch == old(epoch) && old(dev.history) <= dev.history
    }

    lemma OkParts()
      requires Ok()
      ensures Parts() && Sized(M()) && super.state == ERROR_FS
    {
    }

    lemma OneMoreImage(h: seq<Image>, d: Image)
      requires epoch < |h| && AllHonest(h[epoch..]) && Honest(d)
      ensures AllHonest((h + [d])[epoch..])
    {
      hide Honest;
      assert (h + [d])[epoch..] == h[epoch..] + [d];
    }

    /** A block write outside the superblock and the bitmaps. Every image stays honest if the disk is marked dirty or
        the write leaves caches and volume in order. */
    method Write(lba: nat, b: Block)
      requires Parts() && BLOCKID_INODE_TABLE <= lba < BD_SIZE_BLOCKS
      requires Shape(M().disk[lba := b])
      modifies dev, dev.blocks
      ensures Parts() && Later() && M() == old(M()).(disk := old(M()).disk[lba := b])
      ensures old(Ok()) && (Dirty(M().disk) || MetaOk(M())) ==> Ok()
    {
      hide MetaOk, Mountable, Honest, AllHonest;
      ghost var m := M();
      if Ok() && (Dirty(m.disk) || MetaOk(m.(disk := m.disk[lba := b]))) {
        DataWriteHonest(m, lba, b);
        OneMoreImage(dev.history, m.disk[lba := b]);
      }
      var _ := dev.BlkWrite(lba, b);
    }

    /** src/fs.c:60-65 */
    method FlushMetadata()
      requires Ok()
      modifies dev, dev.blocks
      ensures Ok() && Later() && M() == Flush(old(M())) && Dirty(M().disk)
    {
      hide MetaOk, Mountable, Honest, AllHonest;
      ghost var m := M();
      ghost var h := dev.history;
      FlushHonest(m);
      ghost var d1 := m.disk[BLOCKID_SUPER := SuperBlock(super)];
      ghost var d2 := d1[BLOCKID_BLOCK_BITMAP := BitBlock(m.blockBm)];
      ghost var d3 := d2[BLOCKID_INODE_BITMAP := BitBlock(m.inodeBm)];
      OneMoreImage(h, d1);
      OneMoreImage(h + [d1], d2);
      OneMoreImage(h + [d1] + [d2], d3);
      var _ := dev.BlkWrite(BLOCKID_SUPER, SuperBlock(super));
      var _ := dev.BlkWrite(BLOCKID_BLOCK_BITMAP, BitBlock(blockBm[..]));
      var _ := dev.BlkWrite(BLOCKID_INODE_BITMAP, BitBlock(inodeBm[..]));
      assert dev.history == h + [d1] + [d2] + [d3];
      FlushFlushes(m);
    }

    /** src/fs.c:68-80 */
    method ReserveInode() returns (i: iptr)
      requires Ok()
      modifies this, dev, dev.blocks, blockBm, inodeBm
      ensures Ok() && Later() && M() == Allocator.ReserveInode(old(M())).0 && i == Allocator.ReserveInode(old(M())).1
      ensures old(super.freeInodes) > 0 ==> Dirty(M().disk)
    {
      hide MetaOk, Mountable, Honest, AllHonest, Flush;
      if super.freeInodes == 0 {
        return 0;
      }
      FirstFreeIsLeastAbsent(inodeBm[..]);
      i := FindFreeBit(inodeBm);
      SetBitmap(inodeBm, i);
      super := super.(freeInodes := super.freeInodes - 1);
      FlushMetadata();
    }

    /** src/fs.c:83-89 */
    method ReleaseInode(i: iptr)
      requires Ok() && i < 8 * BLOCK_SIZE
      modifies this, dev, dev.blocks, blockBm, inodeBm
      ensures Ok() && Later() && M() == Allocator.ReleaseInode(old(M()), i) && Dirty(M().disk)
    {
      hide MetaOk, Mountable, Honest, AllHonest, Flush;
      ClearBitmap(inodeBm, i);
      super := super.(freeInodes := super.freeInodes + 1);
      FlushMetadata();
    }

    /** src/fs.c:92-104 */
    method ReserveBlock() returns (b: iptr)
      requires Ok()
      modifies this, dev, dev.blocks, blockBm, inodeBm
      ensures Ok() && Later() && M() == Allocator.ReserveBlock(old(M())).0 && b == Allocator.ReserveBlock(old(M())).1
      ensures old(super.freeBlocks) > 0 || old(Dirty(M().disk)) ==> Dirty(M().disk)
    {
      hide MetaOk, Mountable, Honest, AllHonest, Flush;
      if super.freeBlocks == 0 {
        return 0;
      }
      FirstFreeIsLeastAbsent(blockBm[..]);
      b := FindFreeBit(blockBm);
      SetBitmap(blockBm, b);
      super := super.(freeBlocks := super.freeBlocks - 1);
      FlushMetadata();
    }

    /** src/fs.c:107-113 */
    method ReleaseBlock(b: iptr)
      requires Ok() && b < 8 * BLOCK_SIZE
      modifies this, dev, dev.blocks, blockBm, inodeBm
      ensures Ok() && Later() && M() == Allocator.ReleaseBlock(old(M()), b) && Dirty(M().disk)
    {
      hide MetaOk, Mountable, Honest, AllHonest, Flush;
      ClearBitmap(blockBm, b);
      super := super.(freeBlocks := super.freeBlocks + 1);
      FlushMetadata();
    }

    // ---- inodes ----

    /** src/inode.c:17-31 */
    method InodeWrite(i: iptr, n: Inode)
      requires Parts() && Shape(M().disk) && i < INODE_COUNT
      modifies dev, dev.blocks
      ensures Parts() && Later() && M() == old(M()).(disk := PutInode(old(M()).disk, i, n))
      ensures old(Ok()) && (Dirty(M().disk) || MetaOk(M())) ==> Ok()
    {
      hide MetaOk, Mountable, Honest, AllHonest;
      InodeTableIsMap(dev.blocks[..], i, n);
      var lba := InodeBlockOf(i);
      var _, blk := dev.BlkRead(lba, ByteBlock([]));
      Write(lba, InodeBlock(blk.slots[i % INODES_IN_BLOCK := n]));
    }

    /** src/inode.c:33-45 */
    method InodeRead(i: iptr) returns (n: Inode)
      requires Ok() && i < INODE_COUNT
      ensures n == InodeAt(M().disk, i)
    {
      var lba := InodeBlockOf(i);
      var _, blk := dev.BlkRead(lba, ByteBlock([]));
      n := blk.slots[i % INODES_IN_BLOCK];
    }

    // ---- growing a block list (src/fs.c:134-169) ----

    lemma FreeLeft(m: Meta, r: Meta, ids: seq<iptr>)
      requires Reserved(m, r, ids)
      ensures r.super.freeBlocks + |ids| == m.super.freeBlocks
    {
    }

    /** The loop over the direct pointers. */
    method GrowDirect(n: Inode, needed: nat) returns (n': Inode, ghost added: seq<iptr>)
      requires Ok() && n.blocks <= needed <= DIRECT && CanGrow(M(), n, needed)
      modifies this, dev, dev.blocks, blockBm, inodeBm
      ensures Ok() && Later() && n.blocks + |added| == needed
      ensures n' == n.(blocks := needed, data0 := n'.data0)
      ensures Grown(old(M()), n, M(), n', added, added, needed)
    {
      hide Reserved, Grown, CanGrow, Counted, Flushed, Shape, Allocator.ReserveBlock, AllHonest, Flush, Ok;
      ghost var m := M();
      CanGrowFacts(m, n, needed);
      ReservedNone(m);
      added := [];
      n' := n;
      assert PutDirect(n.data0, n.blocks, []) == n.data0;
      while n'.blocks < needed
        invariant Ok() && Later()
        invariant n.blocks <= n'.blocks == n.blocks + |added| <= needed
        invariant n' == n.(blocks := n.blocks + |added|, data0 := PutDirect(n.data0, n.blocks, added))
        invariant Reserved(m, M(), added)
      {
        FreeLeft(m, M(), added);
        ReservedOneMore(m, M(), added);
        var b := ReserveBlock();
        PutDirectNext(n.data0, n.blocks, added, b);
        n' := n'.(blocks := n'.blocks + 1, data0 := n'.data0[n'.blocks := b]);
        added := added + [b];
      }
      DirectGrown(m, n, M(), n', added);
    }

    lemma CanGrowFacts(m: Meta, n: Inode, needed: nat)
      requires CanGrow(m, n, needed) && n.blocks <= needed <= DIRECT
      ensures Counted(m) && Flushed(m) && OwnsUsed(m, n) && needed - n.blocks <= m.super.freeBlocks
    {
    }

    lemma PutDirectNext(data0: Direct, k: nat, ids: seq<iptr>, b: iptr)
      requires k + |ids| < DIRECT
      ensures PutDirect(data0, k, ids)[k + |ids| := b] == PutDirect(data0, k, ids + [b])
    {
    }

    /** An indirect block, read. */
    method PointersOf(ind: iptr) returns (ptrs: seq<iptr>)
      requires Ok() && DataBlock(ind)
      ensures ptrs == Pointers(Bytes(M().disk, ind)) && |ptrs| == INDIRECT
    {
      var _, blk := dev.BlkRead(ind, ByteBlock([]));
      ptrs := Pointers(blk.bytes);
    }

    method ReadPointers(ind: iptr, ptrs: array<iptr>)
      requires Ok() && ptrs.Length == INDIRECT && DataBlock(ind) && ptrs !in Repr()
      modifies ptrs
      ensures Ok() && M() == old(M()) && ptrs[..] == Pointers(Bytes(M().disk, ind))
    {
      var ps := PointersOf(ind);
      forall k | 0 <= k < INDIRECT {
        ptrs[k] := ps[k];
      }
      assert ptrs[..] == ps;
    }

    /** The indirect block in memory: a new, zeroed one, or the one on disk. */
    method IndirectBlock(n: Inode, ptrs: array<iptr>) returns (ind: iptr, ghost first: seq<iptr>)
      requires Ok() && ptrs.Length == INDIRECT && ptrs !in Repr() && (forall k :: 0 <= k < INDIRECT ==> ptrs[k] == 0)
      requires Counted(M()) && Flushed(M()) && (n.data1 != 0 ==> DataBlock(n.data1))
               && (n.data1 == 0 ==> super.freeBlocks > 0)
      modifies this, dev, dev.blocks, blockBm, inodeBm, ptrs
      ensures Ok() && Later() && HasIndirect(n, ind, first) && Reserved(old(M()), M(), first)
      ensures ptrs[..] == OldPointers(old(M()).disk, n)
    {
      hide Reserved, Counted, Flushed, Shape;
      ReservedNone(M());
      first := [];
      ind := n.data1;
      if n.data1 == 0 {
        ReservedOneMore(M(), M(), []);
        ind := ReserveBlock();
        first := [ind];
        assert [] + first == first;
        assert ptrs[..] == seq(INDIRECT, i => 0);
      } else {
        ReadPointers(n.data1, ptrs);
      }
    }

    lemma GrowFacts(m: Meta, n: Inode, needed: nat)
      requires CanGrow(m, n, needed) && n.blocks < needed
      ensures Counted(m) && Flushed(m) && OwnsUsed(m, n) && (n.data1 != 0 ==> DataBlock(n.data1))
              && needed <= MAX_BLOCKS
      ensures needed - n.blocks + (if needed > DIRECT && n.data1 == 0 then 1 else 0) <= m.super.freeBlocks
      ensures n.blocks <= DIRECT ==> n.data1 == 0
    {
    }

    /** One round of the loop over the indirect pointers. */
    method ReservePointer(ghost m1: Meta, ghost old0: seq<iptr>, ghost at: nat, ghost added: seq<iptr>,
            ptrs: array<iptr>, k: nat) returns (b: iptr)
      requires Ok() && ptrs !in Repr() && ptrs.Length == INDIRECT && |old0| == INDIRECT
      requires k == at + |added| < INDIRECT && ptrs[..] == PutIndirect(old0, at, added)
      requires Reserved(m1, M(), added) && M().super.freeBlocks > 0
      modifies this, dev, dev.blocks, blockBm, inodeBm, ptrs
      ensures Ok() && Later() && Reserved(m1, M(), added + [b]) && ptrs[..] == PutIndirect(old0, at, added + [b])
      ensures Dirty(M().disk)
    {
      hide Reserved, Allocator.ReserveBlock, Ok;
      ReservedOneMore(m1, M(), added);
      b := ReserveBlock();
      PutIndirectNext(old0, at, added, b);
      ptrs[k] := b;
    }

    /** The loop over the indirect pointers. */
    method FillIndirect(n: Inode, needed: nat, ptrs: array<iptr>) returns (n': Inode, ghost added: seq<iptr>)
      requires Ok() && ptrs.Length == INDIRECT && ptrs !in Repr() && Counted(M()) && Flushed(M())
      requires DIRECT <= n.blocks < needed <= MAX_BLOCKS && needed - n.blocks <= super.freeBlocks
      modifies this, dev, dev.blocks, blockBm, inodeBm, ptrs
      ensures Ok() && Later() && n.blocks + |added| == needed && n' == n.(blocks := needed)
      ensures ptrs[..] == PutIndirect(old(ptrs[..]), n.blocks - DIRECT, added) && Reserved(old(M()), M(), added)
      ensures Dirty(M().disk)
    {
      hide Reserved, Counted, Flushed, Ok, PutIndirect;
      ghost var m1, old0 := M(), ptrs[..];
      ReservedNone(m1);
      PutNothing(old0, n.blocks - DIRECT);
      added := [];
      n' := n;
      while n'.blocks < needed
        invariant Ok() && Later()
        invariant n.blocks <= n'.blocks == n.blocks + |added| <= needed && n' == n.(blocks := n'.blocks)
        invariant n'.blocks > n.blocks ==> Dirty(M().disk)
        invariant ptrs[..] == PutIndirect(old0, n.blocks - DIRECT, added)
        invariant Reserved(m1, M(), added)
      {
        FreeLeft(m1, M(), added);
        var b := ReservePointer(m1, old0, n.blocks - DIRECT, added, ptrs, n'.blocks - DIRECT);
        n' := n'.(blocks := n'.blocks + 1);
        added := added + [b];
      }
    }

    lemma PutNothing(ptrs: seq<iptr>, k: nat)
      requires |ptrs| == INDIRECT && k <= INDIRECT
      ensures PutIndirect(ptrs, k, []) == ptrs
    {
    }

    /** Allocating past the direct pointers, and the write of the indirect block. */
    method GrowIndirect(n: Inode, needed: nat) returns (n': Inode, ghost added: seq<iptr>, ghost taken: seq<iptr>)
      requires Ok() && DIRECT <= n.blocks < needed && CanGrow(M(), n, needed)
      modifies this, dev, dev.blocks, blockBm, inodeBm
      ensures Ok() && Later() && Grown(old(M()), n, M(), n', added, taken, needed)
    {
      hide Reserved, Counted, Flushed, Shape, Grown, OwnsUsed, CanGrow, PutIndirect, PointerBytes, OldPointers;
      ghost var m := M();
      GrowFacts(m, n, needed);
      var ptrs := new iptr[INDIRECT](_ => 0);
      var ind, first := IndirectBlock(n, ptrs);
      ghost var m1 := M();
      FreeLeft(m, m1, first);
      ReservedFacts(m, m1, first);
      n', added := FillIndirect(n.(data1 := ind), needed, ptrs);
      ghost var m2 := M();
      var bytes := PointerBytes(ptrs[..]);
      DataWriteShape(m2, ind, bytes);
      Write(ind, ByteBlock(bytes));
      taken := first + added;
      IndirectGrown(m, n, m1, ind, first, m2, added, bytes, n');
    }

    lemma ReservedFacts(m: Meta, r: Meta, ids: seq<iptr>)
      requires Reserved(m, r, ids)
      ensures Counted(r) && Flushed(r)
    {
    }

    lemma DataWriteShape(m: Meta, b: nat, bytes: seq<byte>)
      requires Sized(m) && DataBlock(b) && |bytes| == BLOCK_SIZE
      ensures Shape(m.disk[b := ByteBlock(bytes)])
    {
    }

    lemma PutIndirectNext(ptrs: seq<iptr>, k: nat, ids: seq<iptr>, b: iptr)
      requires |ptrs| == INDIRECT && k + |ids| < INDIRECT
      ensures PutIndirect(ptrs, k, ids)[k + |ids| := b] == PutIndirect(ptrs, k, ids + [b])
    {
    }

    /** Growing past what there is: the old list stays a prefix, the indirect block is allocated exactly once, and
        the counter drops by exactly what was taken. Nothing happens when the list is long enough. */
    method ReallocFsBlocks(n: Inode, needed: nat) returns (n': Inode, ghost added: seq<iptr>, ghost taken: seq<iptr>)
      requires Ok() && CanGrow(M(), n, needed)
      modifies this, dev, dev.blocks, blockBm, inodeBm
      ensures Ok() && Later()
      ensures needed > n.blocks ==> Grown(old(M()), n, M(), n', added, taken, needed)
      ensures needed <= n.blocks ==> n' == n && M() == old(M())
    {
      hide Grown, CanGrow, Shape, OwnsUsed, Counted;
      ghost var m := M();
      added, taken := [], [];
      n' := n;
      if needed > n.blocks {
        GrowFacts(m, n, needed);
        if n'.blocks <= DIRECT {
          var direct := if needed < DIRECT then needed else DIRECT;
          CanGrowLess(m, n, direct, needed);
          n', added := GrowDirect(n, direct);
          taken := added;
        }
        if n'.blocks < needed {
          ghost var m1, n1, a1 := M(), n', added;
          DirectThenIndirect(m, n, m1, n1, a1, needed);
          ghost var a2, t2;
          n', a2, t2 := GrowIndirect(n', needed);
          added, taken := a1 + a2, a1 + t2;
          if n.blocks <= DIRECT {
            GrownTwice(m, n, m1, n1, a1, M(), n', a2, t2, needed);
          } else {
            assert added == a2 && taken == t2;
          }
        }
      }
    }

    lemma CanGrowLess(m: Meta, n: Inode, direct: nat, needed: nat)
      requires CanGrow(m, n, needed) && n.blocks <= direct <= needed && direct <= DIRECT
      ensures CanGrow(m, n, direct)
    {
    }

    /** After the direct growth there is still room for the rest. */
    lemma DirectThenIndirect(m: Meta, n: Inode, m1: Meta, n1: Inode, a1: seq<iptr>, needed: nat)
      requires CanGrow(m, n, needed) && n1.blocks < needed
      requires if n.blocks <= DIRECT then Grown(m, n, m1, n1, a1, a1, DIRECT) else m1 == m && n1 == n
      requires Sized(m1)
      ensures CanGrow(m1, n1, needed) && DIRECT <= n1.blocks
    {
      if n.blocks <= DIRECT {
        GrownOwnsUsed(m, n, m1, n1, a1);
      }
    }

    // ---- whole files ----

    lemma ContentNext(d: Image, l: seq<iptr>, i: nat)
      requires Shape(d) && InData(l) && i < |l|
      ensures Content(d, l[..i + 1]) == Content(d, l[..i]) + Bytes(d, l[i])
    {
      assert l[..i + 1][..i] == l[..i];
    }

    /** src/fs.c:314-334 */
    method LlRead(n: Inode) returns (data: seq<byte>)
      requires Ok() && Mapped(n) && InData(BlockList(M().disk, n))
      ensures data == Load(M().disk, n)
    {
      hide MetaOk, Mountable, Honest, AllHonest;
      ghost var d, l := M().disk, BlockList(M().disk, n);
      data := [];
      var direct := if n.blocks < DIRECT then n.blocks else DIRECT;
      for i := 0 to direct
        invariant data == Content(d, l[..i])
      {
        ContentNext(d, l, i);
        var _, blk := dev.BlkRead(n.data0[i], ByteBlock([]));
        data := data + blk.bytes;
      }
      if n.blocks > DIRECT {
        var ptrs := PointersOf(n.data1);
        for j := 0 to n.blocks - DIRECT
          invariant data == Content(d, l[..DIRECT + j])
        {
          ContentNext(d, l, DIRECT + j);
          var _, blk := dev.BlkRead(ptrs[j], ByteBlock([]));
          data := data + blk.bytes;
        }
      }
      assert l[..|l|] == l;
    }

    lemma StoreNext(d: Image, l: seq<iptr>, data: seq<byte>, i: nat)
      requires Shape(d) && InData(l) && |data| == BLOCK_SIZE * |l| && i < |l|
      ensures BlockMap.Store(d, l[..i + 1], data[..BLOCK_SIZE * (i + 1)]) ==
              BlockMap.Store(d, l[..i],
                data[..BLOCK_SIZE * i])[l[i] := ByteBlock(data[BLOCK_SIZE * i..BLOCK_SIZE * (i + 1)])]
    {
      assert l[..i + 1][..i] == l[..i];
      var part := data[..BLOCK_SIZE * (i + 1)];
      assert part[..BLOCK_SIZE * i] == data[..BLOCK_SIZE * i];
      assert part[BLOCK_SIZE * i..] == data[BLOCK_SIZE * i..BLOCK_SIZE * (i + 1)];
    }

    ghost predicate Transfer(d: Image, n: Inode, data: seq<byte>) {
      Shape(d) && Mapped(n) && InData(BlockList(d, n)) && |data| == BLOCK_SIZE * n.blocks
    }

    /** Writing data over a file leaves every image honest: the disk is marked dirty, or caches and volume are in order
        after every block. */
    ghost predicate Safe(m: Meta, n: Inode, data: seq<byte>)
      requires Transfer(m.disk, n, data)
    {
      || Dirty(m.disk)
      || forall k: nat :: k <= n.blocks ==> MetaOk(m.(disk := Partly(m.disk, BlockList(m.disk, n), data, k)))
    }

    /** A transfer that has done the first i blocks. */
    ghost predicate Underway(m: Meta, n: Inode, data: seq<byte>, i: nat)
      requires Transfer(m.disk, n, data) && i <= n.blocks
      reads this, dev, dev.blocks, blockBm, inodeBm
    {
      && Ok() && Safe(m, n, data) && (Dirty(m.disk) ==> Dirty(M().disk))
      && M() == m.(disk := Partly(m.disk, BlockList(m.disk, n), data, i))
    }

    /** One block of a transfer. */
    method PutBlock(ghost m: Meta, n: Inode, data: seq<byte>, i: nat, b: iptr)
      requires Transfer(m.disk, n, data) && i < n.blocks && Underway(m, n, data, i) && b == BlockList(m.disk, n)[i]
      modifies dev, dev.blocks
      ensures Later() && Underway(m, n, data, i + 1)
    {
      UnderwayFacts(m, n, data, i);
      hide MetaOk, Ok, BlockList, Partly, Dirty, Safe;
      Write(b, ByteBlock(data[BLOCK_SIZE * i..BLOCK_SIZE * (i + 1)]));
      assert M() == m.(disk := Partly(m.disk, BlockList(m.disk, n), data, i + 1));
    }

    lemma UnderwayFacts(m: Meta, n: Inode, data: seq<byte>, i: nat)
      requires Transfer(m.disk, n, data) && i < n.blocks && Underway(m, n, data, i)
      ensures Parts() && Sized(M())
      ensures var b, next := BlockList(m.disk, n)[i], Partly(m.disk, BlockList(m.disk, n), data, i + 1);
              && BLOCKID_INODE_TABLE <= b < BD_SIZE_BLOCKS && Shape(next)
              && M().disk[b := ByteBlock(data[BLOCK_SIZE * i..BLOCK_SIZE * (i + 1)])] == next
              && (Dirty(M().disk) ==> Dirty(next)) && (Dirty(next) || MetaOk(m.(disk := next)))
    {
      OkParts();
      var d, l := m.disk, BlockList(m.disk, n);
      SafeBlock(m, n, data, M(), i);
      hide MetaOk, Ok, Safe, BlockList;
      StoreNext(d, l, data, i);
      StoreFrame(d, l[..i + 1], data[..BLOCK_SIZE * (i + 1)]);
    }

    lemma SafeBlock(m: Meta, n: Inode, data: seq<byte>, now: Meta, i: nat)
      requires Transfer(m.disk, n, data) && Safe(m, n, data) && i < n.blocks
      requires now == m.(disk := now.disk) && (Dirty(m.disk) ==> Dirty(now.disk))
      ensures Dirty(now.disk) || MetaOk(m.(disk := Partly(m.disk, BlockList(m.disk, n), data, i + 1)))
    {
      hide MetaOk, Partly, BlockList, Transfer;
    }

    lemma TransferStarts(m: Meta, n: Inode, data: seq<byte>)
      requires Ok() && M() == m && Transfer(m.disk, n, data) && Safe(m, n, data)
      ensures Underway(m, n, data, 0)
    {
      hide Ok, MetaOk;
    }

    lemma TransferEnds(m: Meta, n: Inode, data: seq<byte>)
      requires Transfer(m.disk, n, data) && Underway(m, n, data, n.blocks)
      ensures Ok() && M() == m.(disk := BlockMap.Store(m.disk, BlockList(m.disk, n), data))
    {
      hide Ok, MetaOk;
      var l := BlockList(m.disk, n);
      assert l[..|l|] == l && data[..|data|] == data;
    }

    /** What llwrite relies on. */
    lemma MappedTransfer(d: Image, n: Inode, data: seq<byte>)
      requires Shape(d) && WellMapped(d, n) && |data| == BLOCK_SIZE * n.blocks
      ensures Transfer(d, n, data)
      ensures n.blocks > DIRECT ==> DataBlock(n.data1)
      ensures forall i: nat :: i < n.blocks && i < DIRECT ==> BlockList(d, n)[i] == n.data0[i]
    {
      OwnedParts(d, n);
    }

    /** src/fs.c:338-358. The indirect block is read after the direct blocks were written. */
    method LlWrite(n: Inode, data: seq<byte>)
      requires Ok() && WellMapped(M().disk, n) && Transfer(M().disk, n, data) && Safe(M(), n, data)
      modifies dev, dev.blocks
      ensures InData(BlockList(old(M()).disk, n))
      ensures Ok() && Later() && M() == old(M()).(disk := BlockMap.Store(old(M()).disk, BlockList(old(M()).disk, n),
              data))
    {
      hide WellMapped, BlockMap.Store, Ok, MetaOk, Safe, Dirty, Partly, Underway, BlockList;
      ghost var m := M();
      MappedTransfer(m.disk, n, data);
      TransferStarts(m, n, data);
      var direct := if n.blocks < DIRECT then n.blocks else DIRECT;
      for i := 0 to direct
        invariant Later() && Underway(m, n, data, i)
      {
        PutBlock(m, n, data, i, n.data0[i]);
      }
      if n.blocks > DIRECT {
        LlWriteIndirect(m, n, data);
      }
      TransferEnds(m, n, data);
    }

    /** The second half of llwrite. */
    method LlWriteIndirect(ghost m: Meta, n: Inode, data: seq<byte>)
      requires Transfer(m.disk, n, data) && WellMapped(m.disk, n) && n.blocks > DIRECT && Underway(m, n, data, DIRECT)
      modifies dev, dev.blocks
      ensures Later() && Underway(m, n, data, n.blocks)
    {
      hide WellMapped, Underway, BlockList, Pointers, Shape, Transfer, Ok;
      IndirectStill(m, n, data);
      var ptrs := PointersOf(n.data1);
      for j := 0 to n.blocks - DIRECT
        invariant Later() && Underway(m, n, data, DIRECT + j)
      {
        PutBlock(m, n, data, DIRECT + j, ptrs[j]);
      }
    }

    /** After the direct blocks the disk still shows the pointers of the list. */
    lemma IndirectStill(m: Meta, n: Inode, data: seq<byte>)
      requires Transfer(m.disk, n, data) && WellMapped(m.disk, n) && n.blocks > DIRECT && Underway(m, n, data, DIRECT)
      ensures Ok() && DataBlock(n.data1) && Shape(M().disk) && n.blocks - DIRECT <= INDIRECT
      ensures forall j: nat :: j < n.blocks - DIRECT ==>
              BlockList(m.disk, n)[DIRECT + j] == Pointers(Bytes(M().disk, n.data1))[j]
    {
      OkParts();
      hide WellMapped, BlockList, Pointers, Ok, Safe;
      IndirectUntouched(m.disk, n, data);
    }

    /** Writing the direct blocks leaves the indirect block as it is. */
    lemma IndirectUntouched(d: Image, n: Inode, data: seq<byte>)
      requires Shape(d) && WellMapped(d, n) && |data| == BLOCK_SIZE * n.blocks && n.blocks > DIRECT
      requires InData(BlockList(d, n)[..DIRECT])
      ensures DataBlock(n.data1) && Shape(BlockMap.Store(d, BlockList(d, n)[..DIRECT], data[..BLOCK_SIZE * DIRECT]))
      ensures forall j: nat :: j < n.blocks - DIRECT ==>
                BlockList(d, n)[DIRECT + j] == Pointers(Bytes(BlockMap.Store(d, BlockList(d, n)[..DIRECT],
                  data[..BLOCK_SIZE * DIRECT]), n.data1))[j]
    {
      OwnedParts(d, n);
      StoreFrame(d, BlockList(d, n)[..DIRECT], data[..BLOCK_SIZE * DIRECT]);
    }

    // ---- mkfs (src/fs.c:218-309) ----

    method SuperblockInit()
      requires Parts()
      modifies dev, dev.blocks
      ensures Parts() && dev.blocks[..] == old(dev.blocks[..])[BLOCKID_SUPER := SuperBlock(NewSuper())]
    {
      var freeBlocks := BD_SIZE_BLOCKS - 4 - INODE_TABLE_BLOCKS;
      var sb := Superblock(INODE_COUNT, BD_SIZE_BLOCKS, INODE_COUNT - 1, freeBlocks, FS_MAGIC, VALID_FS);
      var _ := dev.BlkWrite(BLOCKID_SUPER, SuperBlock(sb));
    }

    /** A zeroed block of bits. */
    method ZeroedBits() returns (bits: array<bv8>)
      ensures fresh(bits) && bits.Length == BLOCK_SIZE && Bits(bits[..]) == {}
    {
      bits := new bv8[BLOCK_SIZE](_ => 0);
      ZeroBitmapIsEmpty(bits[..]);
    }

    /** Every metadata block and the root directory's block are marked as used. */
    method BlockBitmapInit() returns (ghost bb: seq<bv8>)
      requires Parts()
      modifies dev, dev.blocks
      ensures Parts() && dev.blocks[..] == old(dev.blocks[..])[BLOCKID_BLOCK_BITMAP := BitBlock(bb)]
      ensures |bb| == BLOCK_SIZE && forall b: nat :: b in Bits(bb) <==> b <= BLOCKID_ROOT_DIR
    {
      var bits := ZeroedBits();
      SetBitmap(bits, BLOCKID_SUPER);
      SetBitmap(bits, BLOCKID_BLOCK_BITMAP);
      SetBitmap(bits, BLOCKID_INODE_BITMAP);
      for i := BLOCKID_INODE_TABLE to INODE_TABLE_BLOCKS + BLOCKID_INODE_TABLE
        modifies bits
        invariant forall b: nat :: b in Bits(bits[..]) <==> b < i
      {
        SetBitmap(bits, i);
      }
      SetBitmap(bits, INODE_TABLE_BLOCKS + BLOCKID_INODE_TABLE);
      bb := bits[..];
      var _ := dev.BlkWrite(BLOCKID_BLOCK_BITMAP, BitBlock(bits[..]));
    }

    method InodeBitmapInit() returns (ghost ib: seq<bv8>)
      requires Parts()
      modifies dev, dev.blocks
      ensures Parts() && dev.blocks[..] == old(dev.blocks[..])[BLOCKID_INODE_BITMAP := BitBlock(ib)]
      ensures |ib| == BLOCK_SIZE && forall i: nat :: i in Bits(ib) <==> i == INODE_ROOTDIR
    {
      var bits := ZeroedBits();
      SetBitmap(bits, 0);
      ib := bits[..];
      var _ := dev.BlkWrite(BLOCKID_INODE_BITMAP, BitBlock(bits[..]));
    }

    /** The root's inode and its two records, both of which name inode 0. */
    method WriteRootDir()
      requires Parts() && Shape(M().disk)
      modifies dev, dev.blocks
      ensures Parts()
      ensures dev.blocks[..] == PutInode(old(M()).disk, INODE_ROOTDIR, DirInode(BLOCKID_ROOT_DIR))
                                [BLOCKID_ROOT_DIR := ByteBlock(NewDirBytes(INODE_ROOTDIR, INODE_ROOTDIR))]
    {
      var block := ZeroBytes(BLOCK_SIZE);
      var root := Inode(ITYPE_DIR, 0, 1, [BLOCKID_ROOT_DIR, 0, 0, 0, 0, 0, 0, 0], 0, 0);
      var self, parent := Entry(INODE_ROOTDIR, ITYPE_DIR, DOT), Entry(INODE_ROOTDIR, ITYPE_DIR, DOTDOT);
      block := PutRecord(block, 0, self);
      root := root.(size := root.size + 12);
      block := PutRecord(block, 12, parent);
      root := root.(size := root.size + 12);
      DotBytes(INODE_ROOTDIR, INODE_ROOTDIR);
      InodeTableIsMap(dev.blocks[..], INODE_ROOTDIR, root);
      InodeWrite(INODE_ROOTDIR, root);
      Write(BLOCKID_ROOT_DIR, ByteBlock(block));
    }

    /** src/fs.c:302-309 */
    method CnMkfs() returns (rc: int, ghost bb: seq<bv8>, ghost ib: seq<bv8>)
      requires Parts() && Shape(M().disk)
      modifies dev, dev.blocks
      ensures rc == 0 && Parts() && MadeFs(old(M()).disk, bb, ib, M().disk)
    {
      SuperblockInit();
      bb := BlockBitmapInit();
      ib := InodeBitmapInit();
      WriteRootDir();
      rc := 0;
    }

    // ---- mount and unmount (src/fs.c:183-213) ----

    method CopyBits(bits: seq<bv8>, cache: array<bv8>)
      requires |bits| == cache.Length
      modifies cache
      ensures cache[..] == bits
    {
      forall k | 0 <= k < |bits| {
        cache[k] := bits[k];
      }
      assert cache[..] == bits;
    }

    /** Read the caches; a clean superblock is marked dirty in memory, not on the disk. From here on every image
        of the device is on record as honest. */
    method Mount() returns (good: bool)
      requires Parts() && Mountable(M().disk)
      modifies this, dev, dev.blocks, blockBm, inodeBm
      ensures Ok() && M() == Mounted(old(M()).disk) && dev.history == old(dev.history)
      ensures good <==> old(M()).disk[BLOCKID_SUPER].sb.state == VALID_FS
    {
      hide MetaOk;
      ghost var d := dev.blocks[..];
      var _, s := dev.BlkRead(BLOCKID_SUPER, ByteBlock([]));
      var _, b := dev.BlkRead(BLOCKID_BLOCK_BITMAP, ByteBlock([]));
      var _, i := dev.BlkRead(BLOCKID_INODE_BITMAP, ByteBlock([]));
      super := s.sb;
      CopyBits(b.bits, blockBm);
      CopyBits(i.bits, inodeBm);
      good := super.magic == FS_MAGIC && super.state == VALID_FS;
      if good {
        super := super.(state := ERROR_FS);
      }
      epoch := |dev.history| - 1;
      assert dev.history[epoch..] == [d];
    }

    /** The clean flag, then the bitmaps, which the disk already holds. */
    method Umount()
      requires Ok() && MetaOk(M())
      modifies this, dev, dev.blocks, blockBm, inodeBm
      ensures Parts() && Later() && M() == Unmounted(old(M())) && Mountable(M().disk) && AllHonest(dev.history[epoch..])
    {
      hide MetaOk, Mountable, Honest, AllHonest;
      ghost var m := M();
      ghost var h := dev.history;
      UmountHonest(m);
      super := super.(state := VALID_FS);
      ghost var d1 := m.disk[BLOCKID_SUPER := SuperBlock(super)];
      ghost var d2 := d1[BLOCKID_BLOCK_BITMAP := BitBlock(m.blockBm)];
      ghost var d3 := d2[BLOCKID_INODE_BITMAP := BitBlock(m.inodeBm)];
      OneMoreImage(h, d1);
      OneMoreImage(h + [d1], d2);
      OneMoreImage(h + [d1] + [d2], d3);
      var _ := dev.BlkWrite(BLOCKID_SUPER, SuperBlock(super));
      var _ := dev.BlkWrite(BLOCKID_BLOCK_BITMAP, BitBlock(blockBm[..]));
      var _ := dev.BlkWrite(BLOCKID_INODE_BITMAP, BitBlock(inodeBm[..]));
      assert dev.history == h + [d1] + [d2] + [d3];
    }
  }
}
