/** The block list of an inode, and whole-file transfers along it (src/fs.c:314-358). */
module BlockMap {
  import opened Params
  import opened LittleEndian
  import opened Layout

  /** The list can be read: not too long, and the indirect pointer, when in use, is a data address. */
  predicate Mapped(n: Inode) {
    n.blocks <= MAX_BLOCKS && (n.blocks > DIRECT ==> DataBlock(n.data1))
  }

  /** The data blocks of a file, in order: eight direct ones, then those of the indirect block. */
  function BlockList(d: Image, n: Inode): (bs: seq<u32>)
    requires Shape(d) && Mapped(n)
    ensures |bs| == n.blocks
  {
    if n.blocks <= DIRECT then n.data0[..n.blocks]
    else n.data0 + Pointers(Bytes(d, n.data1))[..n.blocks - DIRECT]
  }

  /** Every block an inode holds: its data blocks and its indirect block. */
  function Owned(d: Image, n: Inode): seq<u32>
    requires Shape(d) && Mapped(n)
  {
    BlockList(d, n) + if n.blocks > DIRECT then [n.data1] else []
  }

  predicate Distinct(s: seq<u32>) {
    forall i, j :: 0 <= i < j < |s| ==> s[i] != s[j]
  }

  predicate InData(s: seq<u32>) {
    forall i :: 0 <= i < |s| ==> DataBlock(s[i])
  }

  ghost predicate WellMapped(d: Image, n: Inode)
    requires Shape(d)
  {
    && Mapped(n)
    && (n.data1 != 0 <==> n.blocks > DIRECT)
    && InData(Owned(d, n))
    && Distinct(Owned(d, n))
  }

  /** The bytes of a list of blocks. */
  function Content(d: Image, bs: seq<u32>): (r: seq<byte>)
    requires Shape(d) && InData(bs)
    ensures |r| == BLOCK_SIZE * |bs|
  {
    if bs == [] then []
    else var n := |bs| - 1; Content(d, bs[..n]) + Bytes(d, bs[n])
  }

  /** The image after writing data over a list of blocks, first to last. */
  function Store(d: Image, bs: seq<u32>, data: seq<byte>): (r: Image)
    requires Shape(d) && InData(bs) && |data| == BLOCK_SIZE * |bs|
    ensures |r| == |d|
  {
    if bs == [] then d
    else
      var n := |bs| - 1;
      Store(d, bs[..n], data[..BLOCK_SIZE * n])[bs[n] := ByteBlock(data[BLOCK_SIZE * n..])]
  }

  /** The image in the middle of such a write, after the first k blocks. */
  function Partly(d: Image, bs: seq<u32>, data: seq<byte>, k: nat): Image
    requires Shape(d) && InData(bs) && |data| == BLOCK_SIZE * |bs| && k <= |bs|
  {
    Store(d, bs[..k], data[..BLOCK_SIZE * k])
  }

  /** What llread delivers. */
  function Load(d: Image, n: Inode): seq<byte>
    requires Shape(d) && Mapped(n) && InData(BlockList(d, n))
  {
    Content(d, BlockList(d, n))
  }

  // ---- frames ----

  lemma OwnedParts(d: Image, n: Inode)
    requires Shape(d) && WellMapped(d, n)
    ensures InData(BlockList(d, n)) && Distinct(BlockList(d, n))
    ensures n.blocks > DIRECT ==> n.data1 !in BlockList(d, n) && n.data1 in Owned(d, n)
    ensures forall b :: b in BlockList(d, n) ==> b in Owned(d, n)
  {
    var o, l := Owned(d, n), BlockList(d, n);
    assert forall i :: 0 <= i < |l| ==> o[i] == l[i];
    if n.blocks > DIRECT { assert o[|l|] == n.data1; }
  }

  lemma {:induction false} ContentAgrees(d: Image, e: Image, bs: seq<u32>)
    requires Shape(d) && Shape(e) && InData(bs)
    requires forall b :: b in bs ==> d[b] == e[b]
    ensures Content(e, bs) == Content(d, bs)
  {
    if bs != [] {
      var n := |bs| - 1;
      assert bs[n] in bs;
      ContentAgrees(d, e, bs[..n]);
    }
  }

  lemma BlockListAgrees(d: Image, e: Image, n: Inode)
    requires Shape(d) && Shape(e) && Mapped(n)
    requires n.blocks > DIRECT ==> d[n.data1] == e[n.data1]
    ensures BlockList(e, n) == BlockList(d, n) && Owned(e, n) == Owned(d, n)
  {
  }

  /** Storing touches the listed blocks and nothing else. */
  lemma {:induction false} StoreFrame(d: Image, bs: seq<u32>, data: seq<byte>)
    requires Shape(d) && InData(bs) && |data| == BLOCK_SIZE * |bs|
    ensures Shape(Store(d, bs, data))
    ensures forall k: nat :: k < |d| && k !in bs ==> Store(d, bs, data)[k] == d[k]
  {
    if bs != [] {
      var n := |bs| - 1;
      StoreFrame(d, bs[..n], data[..BLOCK_SIZE * n]);
      assert bs[n] in bs;
    }
  }

  lemma {:induction false} StoreContent(d: Image, bs: seq<u32>, data: seq<byte>)
    requires Shape(d) && InData(bs) && |data| == BLOCK_SIZE * |bs| && Distinct(bs)
    ensures Shape(Store(d, bs, data)) && Content(Store(d, bs, data), bs) == data
  {
    StoreFrame(d, bs, data);
    if bs != [] {
      var n := |bs| - 1;
      var front, head := bs[..n], data[..BLOCK_SIZE * n];
      StoreFrame(d, front, head);
      StoreContent(d, front, head);
      assert bs[n] !in front;
      ContentAgrees(Store(d, front, head), Store(d, bs, data), front);
      assert head + data[BLOCK_SIZE * n..] == data;
    }
  }

  lemma {:induction false} ContentConcat(d: Image, a: seq<u32>, b: seq<u32>)
    requires Shape(d) && InData(a) && InData(b)
    ensures InData(a + b) && Content(d, a + b) == Content(d, a) + Content(d, b)
  {
    if b == [] {
      assert a + b == a;
    } else {
      var n := |b| - 1;
      ContentConcat(d, a, b[..n]);
      var ab := a + b;
      assert ab[..|ab| - 1] == a + b[..n] && ab[|ab| - 1] == b[n];
    }
  }

  // ---- round trip ----

  /** llwrite then llread of one inode returns the buffer, up to 1032 blocks; the list itself, and with
      it the indirect block, is not disturbed. */
  lemma StoreLoad(d: Image, n: Inode, data: seq<byte>)
    requires Shape(d) && WellMapped(d, n) && |data| == BLOCK_SIZE * n.blocks
    ensures InData(BlockList(d, n)) && Shape(Store(d, BlockList(d, n), data))
    ensures BlockList(Store(d, BlockList(d, n), data), n) == BlockList(d, n)
    ensures WellMapped(Store(d, BlockList(d, n), data), n)
    ensures Load(Store(d, BlockList(d, n), data), n) == data
  {
    OwnedParts(d, n);
    var l := BlockList(d, n);
    StoreFrame(d, l, data);
    BlockListAgrees(d, Store(d, l, data), n);
    StoreContent(d, l, data);
  }

  lemma StoreElsewhere(d: Image, l: seq<u32>, data: seq<byte>, m: Inode)
    requires Shape(d) && InData(l) && |data| == BLOCK_SIZE * |l|
    requires WellMapped(d, m) && forall b :: b in Owned(d, m) ==> b !in l
    ensures InData(BlockList(d, m)) && Shape(Store(d, l, data))
    ensures BlockList(Store(d, l, data), m) == BlockList(d, m)
    ensures Load(Store(d, l, data), m) == Load(d, m)
  {
    OwnedParts(d, m);
    StoreFrame(d, l, data);
    hide Store, Content, WellMapped, Owned;
    BlockListAgrees(d, Store(d, l, data), m);
    ContentAgrees(d, Store(d, l, data), BlockList(d, m));
  }

  /** llwrite of one inode changes neither the inode table nor the list or the bytes of an inode whose
      blocks are disjoint from it. */
  lemma StoreNonInterference(d: Image, n: Inode, data: seq<byte>, m: Inode)
    requires Shape(d) && WellMapped(d, n) && |data| == BLOCK_SIZE * n.blocks
    requires WellMapped(d, m) && forall b :: b in Owned(d, n) ==> b !in Owned(d, m)
    ensures InData(BlockList(d, n)) && InData(BlockList(d, m)) && Shape(Store(d, BlockList(d, n), data))
    ensures forall k: nat :: k < BLOCKID_ROOT_DIR ==> Store(d, BlockList(d, n), data)[k] == d[k]
    ensures BlockList(Store(d, BlockList(d, n), data), m) == BlockList(d, m)
    ensures Load(Store(d, BlockList(d, n), data), m) == Load(d, m)
  {
    OwnedParts(d, n);
    hide WellMapped, Owned, Store, Content;
    StoreFrame(d, BlockList(d, n), data);
    StoreElsewhere(d, BlockList(d, n), data, m);
  }
}
