/** Block and inode allocation with a free counter beside each bitmap (src/fs.c:59-113): the state it
    works on, what each call does to it, and why first fit stays in range. */
module Allocator {
  import opened Params
  import opened Bitmap
  import opened Layout

  /** The device image and the three metadata blocks cached in memory. */
  datatype Meta = Meta(disk: Image, super: Superblock, blockBm: seq<bv8>, inodeBm: seq<bv8>)

  ghost function Used(m: Meta): set<nat> { Bits(m.blockBm) }
  ghost function Live(m: Meta): set<nat> { Bits(m.inodeBm) }

  /** src/fs.c:60-65 */
  function Flush(m: Meta): Meta
    requires |m.disk| == BD_SIZE_BLOCKS
  {
    m.(disk := m.disk[BLOCKID_SUPER := SuperBlock(m.super)]
                     [BLOCKID_BLOCK_BITMAP := BitBlock(m.blockBm)][BLOCKID_INODE_BITMAP := BitBlock(m.inodeBm)])
  }

  ghost predicate Sized(m: Meta) {
    Shape(m.disk) && |m.blockBm| == BLOCK_SIZE && |m.inodeBm| == BLOCK_SIZE
  }

  /** src/fs.c:92-104 */
  function ReserveBlock(m: Meta): (r: (Meta, iptr))
    requires |m.disk| == BD_SIZE_BLOCKS && |m.blockBm| == BLOCK_SIZE
    ensures |r.0.disk| == BD_SIZE_BLOCKS && |r.0.blockBm| == BLOCK_SIZE
  {
    if m.super.freeBlocks == 0 then (m, 0)
    else
      var b := FirstFree(m.blockBm);
      FirstFreeIsLeastAbsent(m.blockBm);
      (Flush(m.(blockBm := SetBit(m.blockBm, b), super := m.super.(freeBlocks := m.super.freeBlocks - 1))), b)
  }

  /** src/fs.c:68-80 */
  function ReserveInode(m: Meta): (r: (Meta, iptr))
    requires |m.disk| == BD_SIZE_BLOCKS && |m.inodeBm| == BLOCK_SIZE
  {
    if m.super.freeInodes == 0 then (m, 0)
    else
      var i := FirstFree(m.inodeBm);
      FirstFreeIsLeastAbsent(m.inodeBm);
      (Flush(m.(inodeBm := SetBit(m.inodeBm, i), super := m.super.(freeInodes := m.super.freeInodes - 1))), i)
  }

  /** src/fs.c:107-113 */
  function ReleaseBlock(m: Meta, b: nat): Meta
    requires |m.disk| == BD_SIZE_BLOCKS && b < 8 * |m.blockBm|
  {
    Flush(m.(blockBm := ClearBit(m.blockBm, b), super := m.super.(freeBlocks := m.super.freeBlocks + 1)))
  }

  /** src/fs.c:83-89 */
  function ReleaseInode(m: Meta, i: nat): Meta
    requires |m.disk| == BD_SIZE_BLOCKS && i < 8 * |m.inodeBm|
  {
    Flush(m.(inodeBm := ClearBit(m.inodeBm, i), super := m.super.(freeInodes := m.super.freeInodes + 1)))
  }

  // ---- the invariant ----

  /** Each counter and its bitmap agree, no bit is set beyond the device, and the metadata blocks and
      the root inode are taken. */
  ghost predicate Counted(m: Meta) {
    && Sized(m)
    && (forall b :: b in Used(m) ==> b < BD_SIZE_BLOCKS) && m.super.freeBlocks + |Used(m)| == BD_SIZE_BLOCKS
    && (forall i :: i in Live(m) ==> i < INODE_COUNT) && m.super.freeInodes + |Live(m)| == INODE_COUNT
    && (forall b: nat :: b < BLOCKID_ROOT_DIR ==> b in Used(m))
    && INODE_ROOTDIR in Live(m)
  }

  /** The disk holds what the caches hold; only the clean flag may differ. */
  ghost predicate Flushed(m: Meta)
    requires Sized(m)
  {
    && m.disk[BLOCKID_SUPER].sb.(state := m.super.state) == m.super
    && m.disk[BLOCKID_BLOCK_BITMAP].bits == m.blockBm
    && m.disk[BLOCKID_INODE_BITMAP].bits == m.inodeBm
  }

  lemma FlushFlushes(m: Meta)
    requires Sized(m)
    ensures Sized(Flush(m)) && Flushed(Flush(m)) && SameData(m.disk, Flush(m).disk)
    ensures Flush(m) == m.(disk := Flush(m).disk)
  {
  }

  /** Pigeonhole: while the counter is positive, reserve_block returns the least free block, in range. */
  lemma ReserveBlockOk(m: Meta)
    requires Counted(m) && m.super.freeBlocks > 0
    ensures var (r, b) := ReserveBlock(m);
            && DataBlock(b) && b !in Used(m) && (forall k: nat :: k < b ==> k in Used(m))
            && Used(r) == Used(m) + {b} && r.inodeBm == m.inodeBm
            && r.super == m.super.(freeBlocks := m.super.freeBlocks - 1)
            && Counted(r) && Flushed(r) && SameData(m.disk, r.disk)
  {
    FirstFreeInRange(m.blockBm, BD_SIZE_BLOCKS);
    var b := FirstFree(m.blockBm);
    SetBitIsInsert(m.blockBm, b);
    var m1 := m.(blockBm := SetBit(m.blockBm, b), super := m.super.(freeBlocks := m.super.freeBlocks - 1));
    FlushFlushes(m1);
  }

  lemma ReserveInodeOk(m: Meta)
    requires Counted(m) && m.super.freeInodes > 0
    ensures var (r, i) := ReserveInode(m);
            && 0 < i < INODE_COUNT && i !in Live(m) && (forall k: nat :: k < i ==> k in Live(m))
            && Live(r) == Live(m) + {i} && r.blockBm == m.blockBm
            && r.super == m.super.(freeInodes := m.super.freeInodes - 1)
            && Counted(r) && Flushed(r) && SameData(m.disk, r.disk)
  {
    FirstFreeInRange(m.inodeBm, INODE_COUNT);
    var i := FirstFree(m.inodeBm);
    SetBitIsInsert(m.inodeBm, i);
    var m1 := m.(inodeBm := SetBit(m.inodeBm, i), super := m.super.(freeInodes := m.super.freeInodes - 1));
    FlushFlushes(m1);
  }

  lemma ReleaseBlockOk(m: Meta, b: nat)
    requires Counted(m) && DataBlock(b) && b in Used(m)
    ensures var r := ReleaseBlock(m, b);
            && Used(r) == Used(m) - {b} && r.inodeBm == m.inodeBm
            && r.super == m.super.(freeBlocks := m.super.freeBlocks + 1)
            && Counted(r) && Flushed(r) && SameData(m.disk, r.disk)
  {
    ClearBitIsRemove(m.blockBm, b);
    var m1 := m.(blockBm := ClearBit(m.blockBm, b), super := m.super.(freeBlocks := m.super.freeBlocks + 1));
    assert Used(m) == Used(m1) + {b};
    FlushFlushes(m1);
  }

  lemma ReleaseInodeOk(m: Meta, i: nat)
    requires Counted(m) && i in Live(m) && i != INODE_ROOTDIR
    ensures i < 8 * BLOCK_SIZE
    ensures var r := ReleaseInode(m, i);
            && Live(r) == Live(m) - {i} && r.blockBm == m.blockBm
            && r.super == m.super.(freeInodes := m.super.freeInodes + 1)
            && Counted(r) && Flushed(r) && SameData(m.disk, r.disk)
  {
    ClearBitIsRemove(m.inodeBm, i);
    var m1 := m.(inodeBm := ClearBit(m.inodeBm, i), super := m.super.(freeInodes := m.super.freeInodes + 1));
    assert Live(m) == Live(m1) + {i};
    FlushFlushes(m1);
  }

  /** Writing a data block leaves the allocator's state alone. */
  lemma DataWriteKeeps(m: Meta, b: nat, bytes: seq<byte>)
    requires Counted(m) && Flushed(m) && DataBlock(b) && |bytes| == BLOCK_SIZE
    ensures var r := m.(disk := m.disk[b := ByteBlock(bytes)]);
            Counted(r) && Flushed(r) && Used(r) == Used(m) && Live(r) == Live(m)
  {
  }

  /** Writing an inode slot leaves the allocator's state alone. */
  lemma InodeWriteKeeps(m: Meta, i: nat, n: Inode)
    requires Counted(m) && Flushed(m) && i < INODE_COUNT
    ensures var r := m.(disk := PutInode(m.disk, i, n));
            Counted(r) && Flushed(r) && Used(r) == Used(m) && Live(r) == Live(m)
  {
    InodeTableIsMap(m.disk, i, n);
  }

  ghost function SetOf(s: seq<iptr>): set<nat> {
    if s == [] then {} else SetOf(s[..|s| - 1]) + {s[|s| - 1]}
  }

  lemma {:induction false} SetOfMembers(s: seq<iptr>)
    ensures forall b: nat :: b in SetOf(s) <==> b in s
  {
    if s != [] {
      SetOfMembers(s[..|s| - 1]);
      assert s == s[..|s| - 1] + [s[|s| - 1]];
    }
  }

  predicate AllNew(s: seq<iptr>, used: set<nat>) {
    && (forall k :: 0 <= k < |s| ==> DataBlock(s[k]) && s[k] !in used)
    && (forall j, k :: 0 <= j < k < |s| ==> s[j] != s[k])
  }

  predicate LeastFree(x: nat, s: set<nat>) {
    x !in s && forall k: nat :: k < x ==> k in s
  }

  /** Each id was the least free one when its turn came. */
  ghost predicate InOrder(ids: seq<iptr>, used: set<nat>) {
    ids == [] || (InOrder(ids[..|ids| - 1], used) && LeastFree(ids[|ids| - 1], used + SetOf(ids[..|ids| - 1])))
  }

  /** The allocator of r is that of m with exactly the blocks ids taken, all of them fresh. */
  ghost predicate Took(m: Meta, r: Meta, ids: seq<iptr>) {
    && AllNew(ids, Used(m)) && InOrder(ids, Used(m))
    && Used(r) == Used(m) + SetOf(ids) && r.inodeBm == m.inodeBm
    && r.super.(freeBlocks := r.super.freeBlocks + |ids|) == m.super
    && Counted(r) && Flushed(r)
  }

  /** r is m after reserving exactly the blocks ids; nothing else is written. */
  ghost predicate Reserved(m: Meta, r: Meta, ids: seq<iptr>) {
    Took(m, r, ids) && SameData(m.disk, r.disk)
  }

  lemma ReservedNone(m: Meta)
    requires Counted(m) && Flushed(m)
    ensures Reserved(m, m, [])
  {
  }

  /** One more reservation after a row of them: the row stays fresh and pairwise distinct, and the counter
      has moved by exactly as many. */
  lemma ReservedOneMore(m: Meta, m1: Meta, ids: seq<iptr>)
    requires Reserved(m, m1, ids) && m1.super.freeBlocks > 0
    ensures var (m2, b) := ReserveBlock(m1); DataBlock(b) && Reserved(m, m2, ids + [b])
  {
    ReserveBlockOk(m1);
    var (m2, b) := ReserveBlock(m1);
    hide ReserveBlock;
    OneMore(m, m1, ids, m2, b);
  }

  lemma OneMore(m: Meta, m1: Meta, ids: seq<iptr>, m2: Meta, b: iptr)
    requires Reserved(m, m1, ids) && Counted(m2) && Flushed(m2) && SameData(m1.disk, m2.disk)
    requires DataBlock(b) && LeastFree(b, Used(m1)) && Used(m2) == Used(m1) + {b}
    requires m2.inodeBm == m1.inodeBm && m1.super.freeBlocks > 0
    requires m2.super == m1.super.(freeBlocks := m1.super.freeBlocks - 1)
    ensures Reserved(m, m2, ids + [b])
  {
    NewOnTop(ids, b, Used(m), Used(m1), Used(m2));
    assert (ids + [b])[..|ids|] == ids;
    assert InOrder(ids + [b], Used(m));
    hide InOrder, SetOf, AllNew, Counted, Flushed, Shape;
  }

  lemma SetOfConcat(a: seq<iptr>, b: seq<iptr>)
    ensures SetOf(a + b) == SetOf(a) + SetOf(b)
  {
    SetOfMembers(a);
    SetOfMembers(b);
    SetOfMembers(a + b);
  }

  lemma AllNewConcat(a: seq<iptr>, b: seq<iptr>, used: set<nat>, used1: set<nat>)
    requires AllNew(a, used) && AllNew(b, used1) && used1 == used + SetOf(a)
    ensures AllNew(a + b, used)
  {
    SetOfMembers(a);
    forall j, k | 0 <= j < k < |a + b| ensures (a + b)[j] != (a + b)[k] {
      if j < |a| <= k { assert a[j] in SetOf(a); }
    }
  }

  lemma TookTwice(m: Meta, m1: Meta, r: Meta, a: seq<iptr>, b: seq<iptr>)
    requires Took(m, m1, a) && Took(m1, r, b)
    ensures Took(m, r, a + b)
  {
    SetOfConcat(a, b);
    AllNewConcat(a, b, Used(m), Used(m1));
    InOrderConcat(a, b, Used(m), Used(m1));
  }

  lemma {:induction false} InOrderConcat(a: seq<iptr>, b: seq<iptr>, used: set<nat>, used1: set<nat>)
    requires InOrder(a, used) && InOrder(b, used1) && used1 == used + SetOf(a)
    ensures InOrder(a + b, used)
  {
    if b == [] {
      assert a + b == a;
    } else {
      var front := b[..|b| - 1];
      InOrderConcat(a, front, used, used1);
      SetOfConcat(a, front);
      assert (a + b)[..|a + b| - 1] == a + front;
      assert used1 + SetOf(front) == used + SetOf(a + front);
    }
  }

  // ---- the next free blocks ----

  function SetAll(bm: seq<bv8>, ids: seq<iptr>): (r: seq<bv8>)
    requires |bm| == BLOCK_SIZE && forall k :: 0 <= k < |ids| ==> ids[k] < 8 * BLOCK_SIZE
    ensures |r| == BLOCK_SIZE
  {
    if ids == [] then bm else SetBit(SetAll(bm, ids[..|ids| - 1]), ids[|ids| - 1])
  }

  /** The next n blocks that reserve_block will hand out. */
  function FreeRow(bm: seq<bv8>, n: nat): (ids: seq<iptr>)
    requires |bm| == BLOCK_SIZE
    ensures |ids| == n && forall k :: 0 <= k < |ids| ==> ids[k] < 8 * BLOCK_SIZE
  {
    if n == 0 then []
    else
      var front := FreeRow(bm, n - 1);
      FirstFreeIsLeastAbsent(SetAll(bm, front));
      front + [FirstFree(SetAll(bm, front))]
  }

  lemma {:induction false} SetAllBits(bm: seq<bv8>, ids: seq<iptr>)
    requires |bm| == BLOCK_SIZE && forall k :: 0 <= k < |ids| ==> ids[k] < 8 * BLOCK_SIZE
    ensures Bits(SetAll(bm, ids)) == Bits(bm) + SetOf(ids)
  {
    if ids != [] {
      SetAllBits(bm, ids[..|ids| - 1]);
      SetBitIsInsert(SetAll(bm, ids[..|ids| - 1]), ids[|ids| - 1]);
    }
  }

  /** What reservations take is determined by the bitmap they start from. */
  lemma {:induction false} InOrderIsFreeRow(bm: seq<bv8>, ids: seq<iptr>)
    requires |bm| == BLOCK_SIZE && AllNew(ids, Bits(bm)) && InOrder(ids, Bits(bm))
    ensures ids == FreeRow(bm, |ids|)
  {
    if ids != [] {
      var front, b := ids[..|ids| - 1], ids[|ids| - 1];
      InOrderFront(ids, Bits(bm));
      hide InOrder, AllNew, SetAll, FreeRow, LeastFree;
      InOrderIsFreeRow(bm, front);
      SetAllBits(bm, front);
      LeastIsFirstFree(SetAll(bm, front), b);
      FreeRowNext(bm, front);
      assert ids == front + [b];
    }
  }

  lemma InOrderFront(ids: seq<iptr>, used: set<nat>)
    requires ids != [] && AllNew(ids, used) && InOrder(ids, used)
    ensures AllNew(ids[..|ids| - 1], used) && InOrder(ids[..|ids| - 1], used)
    ensures LeastFree(ids[|ids| - 1], used + SetOf(ids[..|ids| - 1])) && DataBlock(ids[|ids| - 1])
  {
  }

  lemma FreeRowNext(bm: seq<bv8>, front: seq<iptr>)
    requires |bm| == BLOCK_SIZE && front == FreeRow(bm, |front|)
    ensures FreeRow(bm, |front| + 1) == front + [FirstFree(SetAll(bm, front))]
  {
  }

  lemma LeastIsFirstFree(bm: seq<bv8>, b: nat)
    requires LeastFree(b, Bits(bm)) && b < 8 * |bm|
    ensures FirstFree(bm) == b
  {
    FirstFreeIsLeastAbsent(bm);
  }

  lemma TookFreeRow(m: Meta, r: Meta, ids: seq<iptr>)
    requires Sized(m) && Took(m, r, ids)
    ensures ids == FreeRow(m.blockBm, |ids|)
  {
    InOrderIsFreeRow(m.blockBm, ids);
  }

  lemma TookAndWrote(m: Meta, r: Meta, ids: seq<iptr>, b: nat, bytes: seq<byte>)
    requires Took(m, r, ids) && DataBlock(b) && |bytes| == BLOCK_SIZE
    ensures Took(m, r.(disk := r.disk[b := ByteBlock(bytes)]), ids)
  {
    DataWriteKeeps(r, b, bytes);
  }

  lemma NewOnTop(ids: seq<iptr>, b: iptr, u: set<nat>, u1: set<nat>, u2: set<nat>)
    requires AllNew(ids, u) && u1 == u + SetOf(ids) && DataBlock(b) && b !in u1 && u2 == u1 + {b}
    ensures AllNew(ids + [b], u) && u2 == u + SetOf(ids + [b])
  {
    assert (ids + [b])[..|ids|] == ids;
    SetOfMembers(ids);
    forall k | 0 <= k < |ids| ensures ids[k] != b {
      assert ids[k] in SetOf(ids);
    }
  }
}
