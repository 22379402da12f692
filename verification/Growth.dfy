/** Growing the block list of a file (src/fs.c:134-169). */
module Growth {
  import opened Params
  import opened LittleEndian
  import opened Layout
  import opened BlockMap
  import opened Allocator

  /** How many blocks a growth takes from the free pool: the data blocks, and the indirect block when
      it is needed for the first time. */
  function NewBlocks(n: Inode, needed: nat): nat {
    if needed <= n.blocks then 0
    else needed - n.blocks + if needed > DIRECT && n.data1 == 0 then 1 else 0
  }

  /** The data blocks among what a growth takes: all but the new indirect block. */
  function DataOf(n: Inode, needed: nat, taken: seq<iptr>): seq<iptr>
    requires |taken| == NewBlocks(n, needed)
  {
    if n.blocks < needed && needed > DIRECT >= n.blocks && n.data1 == 0
    then taken[..DIRECT - n.blocks] + taken[DIRECT - n.blocks + 1..] else taken
  }

  /** The data blocks that growing to `needed` blocks will add, as the state before it tells. */
  function AddedBlocks(m: Meta, n: Inode, needed: nat): seq<iptr>
    requires |m.blockBm| == BLOCK_SIZE
  {
    DataOf(n, needed, FreeRow(m.blockBm, NewBlocks(n, needed)))
  }

  /** The inode owns what the bitmap says is taken. */
  ghost predicate OwnsUsed(m: Meta, n: Inode)
    requires Sized(m)
  {
    WellMapped(m.disk, n) && forall b :: b in Owned(m.disk, n) ==> b in Used(m)
  }

  ghost predicate CanGrow(m: Meta, n: Inode, needed: nat) {
    && Counted(m) && Flushed(m) && OwnsUsed(m, n)
    && needed <= MAX_BLOCKS && NewBlocks(n, needed) <= m.super.freeBlocks
  }

  /** Store a row of new direct pointers after the first k. */
  function PutDirect(data0: Direct, k: nat, ids: seq<iptr>): Direct
    requires k + |ids| <= DIRECT
  {
    data0[..k] + ids + data0[k + |ids|..]
  }

  /** Store a row of new indirect pointers after the first k. */
  function PutIndirect(ptrs: seq<iptr>, k: nat, ids: seq<iptr>): (r: seq<iptr>)
    requires |ptrs| == INDIRECT && k + |ids| <= INDIRECT
    ensures |r| == INDIRECT
  {
    ptrs[..k] + ids + ptrs[k + |ids|..]
  }

  /** The indirect block in memory before new pointers are stored: zeros when it is new. */
  function OldPointers(d: Image, n: Inode): (ps: seq<iptr>)
    requires Shape(d) && (n.data1 != 0 ==> DataBlock(n.data1))
    ensures |ps| == INDIRECT
  {
    if n.data1 == 0 then seq(INDIRECT, i => 0) else Pointers(Bytes(d, n.data1))
  }

  // ---- what growth achieves ----

  /** The new list: the old one is a prefix, the added blocks follow; size, kind and data2 are kept, and an
      indirect block that is already there stays. */
  ghost predicate Extended(d: Image, n: Inode, d': Image, n': Inode, added: seq<iptr>) {
    && Shape(d) && Shape(d') && Mapped(n)
    && n' == n.(blocks := n.blocks + |added|, data0 := n'.data0, data1 := n'.data1)
    && (n.blocks > DIRECT ==> n'.data1 == n.data1)
    && WellMapped(d', n')
    && BlockList(d', n') == BlockList(d, n) + added
  }

  /** The blocks of n' are those of n and the taken ones. */
  ghost predicate OwnsAlso(d: Image, n: Inode, d': Image, n': Inode, taken: seq<iptr>)
    requires Shape(d) && Shape(d') && Mapped(n) && Mapped(n')
  {
    forall b :: b in Owned(d', n') <==> b in Owned(d, n) || b in taken
  }

  /** No data block other than the indirect one is written, and the inode table is left alone. */
  ghost predicate OnlyIndirectWritten(d: Image, d': Image, n': Inode) {
    && |d| == |d'| == BD_SIZE_BLOCKS
    && forall b: nat :: BLOCKID_INODE_TABLE <= b < BD_SIZE_BLOCKS && (n'.blocks > DIRECT ==> b != n'.data1) ==>
      d'[b] == d[b]
  }

  /** r and n' are m and n after growing to `needed` blocks: the old list is a prefix of the new one, what
      was taken is fresh and pairwise distinct, is owned by n' from now on, and is exactly the added blocks
      plus the indirect block when that is new; the counter drops by exactly that many. */
  ghost predicate Grown(m: Meta, n: Inode, r: Meta, n': Inode, added: seq<iptr>, taken: seq<iptr>, needed: nat) {
    && n.blocks <= needed && |added| == needed - n.blocks && |taken| == NewBlocks(n, needed)
    && (forall b :: b in added ==> b in taken) && added == DataOf(n, needed, taken)
    && Took(m, r, taken)
    && Extended(m.disk, n, r.disk, n', added)
    && OwnsAlso(m.disk, n, r.disk, n', taken)
    && OnlyIndirectWritten(m.disk, r.disk, n')
  }

  lemma DirectList(n: Inode, ids: seq<iptr>)
    requires n.blocks + |ids| <= DIRECT
    ensures PutDirect(n.data0, n.blocks, ids)[..n.blocks + |ids|] == n.data0[..n.blocks] + ids
  {
  }

  lemma FreshDistinct(old0: seq<iptr>, ids: seq<iptr>, used: set<nat>)
    requires Distinct(old0) && InData(old0) && (forall b :: b in old0 ==> b in used) && AllNew(ids, used)
    ensures Distinct(old0 + ids) && InData(old0 + ids)
  {
    forall i, j | 0 <= i < j < |old0 + ids| ensures (old0 + ids)[i] != (old0 + ids)[j] {
      if i < |old0| <= j { assert old0[i] in old0; }
    }
  }

  /** Reserving direct blocks and storing them after the old pointers. */
  lemma DirectGrown(m: Meta, n: Inode, r: Meta, n': Inode, added: seq<iptr>)
    requires Counted(m) && OwnsUsed(m, n) && Reserved(m, r, added) && n.blocks + |added| <= DIRECT
    requires n' == n.(blocks := n.blocks + |added|, data0 := PutDirect(n.data0, n.blocks, added))
    ensures Grown(m, n, r, n', added, added, n.blocks + |added|)
  {
    DirectExtended(m, n, r, n', added);
  }

  lemma DirectExtended(m: Meta, n: Inode, r: Meta, n': Inode, added: seq<iptr>)
    requires Sized(m) && OwnsUsed(m, n) && Shape(r.disk) && SameData(m.disk, r.disk)
    requires AllNew(added, Used(m)) && n.blocks + |added| <= DIRECT
    requires n' == n.(blocks := n.blocks + |added|, data0 := PutDirect(n.data0, n.blocks, added))
    ensures Extended(m.disk, n, r.disk, n', added) && OwnsAlso(m.disk, n, r.disk, n', added)
  {
    var l := BlockList(m.disk, n);
    OwnedParts(m.disk, n);
    DirectList(n, added);
    FreshDistinct(l, added, Used(m));
    assert BlockList(r.disk, n') == l + added;
    assert Owned(r.disk, n') == l + added;
    assert Owned(m.disk, n) == l;
  }

  /** The disk after an indirect growth reads back the old pointers followed by the new ones. */
  lemma IndirectList(d: Image, n: Inode, n': Inode, old0: seq<iptr>, ind: iptr, ids: seq<iptr>)
    requires Shape(d) && DataBlock(ind) && |old0| == INDIRECT && DIRECT <= n.blocks < n.blocks + |ids| <= MAX_BLOCKS
    requires n' == n.(blocks := n.blocks + |ids|, data1 := ind)
    requires Bytes(d, ind) == PointerBytes(PutIndirect(old0, n.blocks - DIRECT, ids))
    ensures BlockList(d, n') == n.data0 + old0[..n.blocks - DIRECT] + ids
  {
    var k := n.blocks - DIRECT;
    var ps := PutIndirect(old0, k, ids);
    PointersRoundTrip(ps);
    assert ps[..k + |ids|] == old0[..k] + ids;
    assert BlockList(d, n') == n.data0 + ps[..k + |ids|];
  }

  lemma OldList(m: Meta, n: Inode)
    requires Sized(m) && WellMapped(m.disk, n) && DIRECT <= n.blocks
    ensures BlockList(m.disk, n) == n.data0 + OldPointers(m.disk, n)[..n.blocks - DIRECT]
  {
  }

  /** Reserving the indirect block if need be, then data blocks, then writing the pointers. */
  lemma IndirectGrown(m: Meta, n: Inode, m1: Meta, ind: iptr, first: seq<iptr>, m2: Meta, added: seq<iptr>,
          bytes: seq<byte>, n': Inode)
    requires Counted(m) && OwnsUsed(m, n) && DIRECT <= n.blocks < n.blocks + |added| <= MAX_BLOCKS
    requires HasIndirect(n, ind, first) && Reserved(m, m1, first) && Reserved(m1, m2, added)
    requires bytes == PointerBytes(PutIndirect(OldPointers(m.disk, n), n.blocks - DIRECT, added))
    requires n' == n.(blocks := n.blocks + |added|, data1 := ind)
    ensures Grown(m, n, m2.(disk := m2.disk[ind := ByteBlock(bytes)]), n', added, first + added, n.blocks + |added|)
  {
    hide Took, Reserved, Extended, OwnsAlso, OwnsUsed, Counted, PutIndirect, OldPointers, PointerBytes,
         OnlyIndirectWritten, DataOf, AllNew;
    IndirectFacts(m, n, m1, first, m2, added);
    var r := m2.(disk := m2.disk[ind := ByteBlock(bytes)]);
    TookTwice(m, m1, m2, first, added);
    TookAndWrote(m, m2, first + added, ind, bytes);
    TookAllNew(m, m2, first + added);
    DataOfIndirect(n, ind, first, added);
    IndirectExtended(m, n, m1, ind, first, added, r.disk, n');
    IndirectFrame(m, m1, first, m2, added, ind, bytes, n');
    assert forall b :: b in added ==> b in first + added;
  }

  lemma IndirectFacts(m: Meta, n: Inode, m1: Meta, first: seq<iptr>, m2: Meta, added: seq<iptr>)
    requires Counted(m) && OwnsUsed(m, n) && DIRECT <= n.blocks && Reserved(m, m1, first) && Reserved(m1, m2, added)
    ensures Sized(m) && Sized(m2) && Took(m, m1, first) && Took(m1, m2, added) && (n.data1 == 0 ==> n.blocks == DIRECT)
  {
  }

  lemma IndirectFrame(m: Meta, m1: Meta, first: seq<iptr>, m2: Meta, added: seq<iptr>, ind: iptr, bytes: seq<byte>,
          n': Inode)
    requires Sized(m) && Reserved(m, m1, first) && Reserved(m1, m2, added) && DataBlock(ind)
    requires n'.data1 == ind && n'.blocks > DIRECT
    ensures OnlyIndirectWritten(m.disk, m2.disk[ind := ByteBlock(bytes)], n')
  {
    hide Took;
  }

  lemma TookAllNew(m: Meta, r: Meta, ids: seq<iptr>)
    requires Took(m, r, ids)
    ensures AllNew(ids, Used(m)) && Sized(r)
  {
  }

  lemma DataOfIndirect(n: Inode, ind: iptr, first: seq<iptr>, added: seq<iptr>)
    requires HasIndirect(n, ind, first) && DIRECT <= n.blocks && added != [] && (n.data1 == 0 ==> n.blocks == DIRECT)
    ensures |first + added| == NewBlocks(n, n.blocks + |added|)
    ensures DataOf(n, n.blocks + |added|, first + added) == added
  {
  }

  lemma DataOfTwice(n: Inode, n1: Inode, a1: seq<iptr>, a2: seq<iptr>, t2: seq<iptr>, needed: nat)
    requires n.blocks <= DIRECT < needed && n.data1 == 0 && n1.blocks == DIRECT && n1.data1 == 0
             && |a1| == DIRECT - n.blocks
    requires |t2| == NewBlocks(n1, needed) && a2 == DataOf(n1, needed, t2)
    ensures |a1 + t2| == NewBlocks(n, needed) && DataOf(n, needed, a1 + t2) == a1 + a2
  {
    assert (a1 + t2)[..DIRECT - n.blocks] == a1 && (a1 + t2)[DIRECT - n.blocks + 1..] == t2[1..];
    assert a2 == t2[1..];
  }

  /** ind is the indirect block to use; `first` is what had to be taken for it. */
  predicate HasIndirect(n: Inode, ind: iptr, first: seq<iptr>) {
    DataBlock(ind) && if n.data1 == 0 then first == [ind] else first == [] && ind == n.data1
  }

  lemma IndirectExtended(m: Meta, n: Inode, m1: Meta, ind: iptr, first: seq<iptr>, added: seq<iptr>, d': Image,
          n': Inode)
    requires Sized(m) && OwnsUsed(m, n) && HasIndirect(n, ind, first) && AllNew(first + added, Used(m))
    requires DIRECT <= n.blocks < n.blocks + |added| <= MAX_BLOCKS
    requires n' == n.(blocks := n.blocks + |added|, data1 := ind)
    requires Shape(d') && Bytes(d', ind) == PointerBytes(PutIndirect(OldPointers(m.disk, n), n.blocks - DIRECT, added))
    ensures Extended(m.disk, n, d', n', added) && OwnsAlso(m.disk, n, d', n', first + added)
  {
    var l := BlockList(m.disk, n);
    OldList(m, n);
    IndirectList(d', n, n', OldPointers(m.disk, n), ind, added);
    assert Owned(d', n') == l + added + [ind];
    IndirectDistinct(m, n, ind, first, added);
    assert n.data1 != 0 ==> Owned(m.disk, n) == l + [ind];
  }

  lemma IndirectDistinct(m: Meta, n: Inode, ind: iptr, first: seq<iptr>, added: seq<iptr>)
    requires Sized(m) && OwnsUsed(m, n) && HasIndirect(n, ind, first) && AllNew(first + added, Used(m))
    requires DIRECT <= n.blocks
    ensures var l := BlockList(m.disk, n) + added + [ind]; Distinct(l) && InData(l)
  {
    var l := BlockList(m.disk, n);
    OwnedParts(m.disk, n);
    AddedNew(first, added, Used(m));
    FreshDistinct(l, added, Used(m));
    assert ind !in l;
    assert ind !in added;
  }

  lemma AddedNew(first: seq<iptr>, added: seq<iptr>, used: set<nat>)
    requires AllNew(first + added, used)
    ensures AllNew(added, used) && forall b :: b in first ==> b !in used && b !in added
  {
    var a := first + added;
    assert forall k :: 0 <= k < |added| ==> added[k] == a[|first| + k];
    assert forall k :: 0 <= k < |first| ==> first[k] == a[k];
  }

  lemma ExtendedTwice(d: Image, n: Inode, d1: Image, n1: Inode, a1: seq<iptr>, d2: Image, n2: Inode, a2: seq<iptr>)
    requires Extended(d, n, d1, n1, a1) && Extended(d1, n1, d2, n2, a2) && n.blocks <= DIRECT
    ensures Extended(d, n, d2, n2, a1 + a2)
  {
    assert BlockList(d, n) + a1 + a2 == BlockList(d, n) + (a1 + a2);
  }

  lemma OwnsTwice(d: Image, n: Inode, d1: Image, n1: Inode, t1: seq<iptr>, d2: Image, n2: Inode, t2: seq<iptr>)
    requires Shape(d) && Shape(d1) && Shape(d2) && Mapped(n) && Mapped(n1) && Mapped(n2)
    requires OwnsAlso(d, n, d1, n1, t1) && OwnsAlso(d1, n1, d2, n2, t2)
    ensures OwnsAlso(d, n, d2, n2, t1 + t2)
  {
    hide Owned;
  }

  lemma GrownPieces(m: Meta, n: Inode, m1: Meta, n1: Inode, a1: seq<iptr>)
    requires Grown(m, n, m1, n1, a1, a1, DIRECT) && n.data1 == 0
    ensures n1.blocks == DIRECT && n1.data1 == 0 && |a1| == DIRECT - n.blocks
  {
  }

  /** Growth past the direct pointers is direct growth followed by indirect growth. */
  lemma GrownTwice(m: Meta, n: Inode, m1: Meta, n1: Inode, a1: seq<iptr>, r: Meta, n': Inode, a2: seq<iptr>,
          t2: seq<iptr>, needed: nat)
    requires n.blocks <= DIRECT < needed && n.data1 == 0
    requires Grown(m, n, m1, n1, a1, a1, DIRECT) && Grown(m1, n1, r, n', a2, t2, needed)
    ensures Grown(m, n, r, n', a1 + a2, a1 + t2, needed)
  {
    TookTwice(m, m1, r, a1, t2);
    ExtendedTwice(m.disk, n, m1.disk, n1, a1, r.disk, n', a2);
    OwnsTwice(m.disk, n, m1.disk, n1, a1, r.disk, n', t2);
    GrownPieces(m, n, m1, n1, a1);
    DataOfTwice(n, n1, a1, a2, t2, needed);
    hide Took, Extended, OwnsAlso, DataOf;
  }

  /** Which blocks a growth adds follows from the state before it. */
  lemma GrownAdds(m: Meta, n: Inode, r: Meta, n': Inode, added: seq<iptr>, taken: seq<iptr>, needed: nat)
    requires Sized(m) && Grown(m, n, r, n', added, taken, needed)
    ensures added == AddedBlocks(m, n, needed)
  {
    TookFreeRow(m, r, taken);
  }

  lemma GrownNothing(m: Meta, n: Inode)
    requires Counted(m) && Flushed(m) && OwnsUsed(m, n)
    ensures Grown(m, n, m, n, [], [], n.blocks)
  {
    ReservedNone(m);
    assert BlockList(m.disk, n) + [] == BlockList(m.disk, n);
  }

  /** After a growth the inode still owns only what is taken. */
  lemma GrownOwnsUsed(m: Meta, n: Inode, m1: Meta, n1: Inode, taken: seq<iptr>)
    requires Sized(m) && Sized(m1) && OwnsUsed(m, n) && WellMapped(m1.disk, n1)
    requires OwnsAlso(m.disk, n, m1.disk, n1, taken) && Used(m1) == Used(m) + SetOf(taken)
    ensures OwnsUsed(m1, n1)
  {
    SetOfMembers(taken);
  }
}
