/** What the blocks of the device hold, and the inode table as a map
    (include/inode.h, include/fsparams.h, the superblock of src/fs.c:20-32). */
module Layout {
  import opened Params

  /** The eight direct pointers of an inode. */
  type Direct = s: seq<u32> | |s| == 8 witness [0, 0, 0, 0, 0, 0, 0, 0]

  datatype Inode = Inode(kind: nat, size: nat, blocks: nat, data0: Direct, data1: u32, data2: u32)

  datatype Superblock = Superblock(inodeCount: nat, blockCount: nat, freeInodes: nat, freeBlocks: nat,
                                   magic: nat, state: nat)

  /** A block as the cast that the code applies to it sees it. Directory files, file data and
      indirect blocks are all plain bytes. */
  datatype Block =
    | SuperBlock(sb: Superblock)
    | BitBlock(bits: seq<bv8>)
    | InodeBlock(slots: seq<Inode>)
    | ByteBlock(bytes: seq<byte>)

  type Image = seq<Block>

  /** Which kind of block lives at which address. */
  ghost predicate Shape(d: Image) {
    && |d| == BD_SIZE_BLOCKS
    && d[BLOCKID_SUPER].SuperBlock?
    && d[BLOCKID_BLOCK_BITMAP].BitBlock? && |d[BLOCKID_BLOCK_BITMAP].bits| == BLOCK_SIZE
    && d[BLOCKID_INODE_BITMAP].BitBlock? && |d[BLOCKID_INODE_BITMAP].bits| == BLOCK_SIZE
    && (forall k :: BLOCKID_INODE_TABLE <= k < BLOCKID_ROOT_DIR ==> d[k].InodeBlock? && |d[k].slots| == INODES_IN_BLOCK)
    && (forall k :: BLOCKID_ROOT_DIR <= k < BD_SIZE_BLOCKS ==> d[k].ByteBlock? && |d[k].bytes| == BLOCK_SIZE)
  }

  /** Addresses that may hold file or directory data. */
  predicate DataBlock(b: int) { BLOCKID_ROOT_DIR <= b < BD_SIZE_BLOCKS }

  function Bytes(d: Image, b: nat): (r: seq<byte>)
    requires Shape(d) && DataBlock(b)
    ensures |r| == BLOCK_SIZE
  {
    d[b].bytes
  }

  function ZeroBytes(n: nat): (r: seq<byte>)
    ensures |r| == n
  {
    seq(n, i => 0)
  }

  // ---- the inode table ----

  /** src/inode.c:11-14, with the offset of the table added as its callers do. */
  function InodeBlockOf(i: nat): nat { BLOCKID_INODE_TABLE + i / INODES_IN_BLOCK }

  function InodeAt(d: Image, i: nat): Inode
    requires Shape(d) && i < INODE_COUNT
  {
    d[InodeBlockOf(i)].slots[i % INODES_IN_BLOCK]
  }

  function PutInode(d: Image, i: nat, n: Inode): Image
    requires Shape(d) && i < INODE_COUNT
  {
    d[InodeBlockOf(i) := InodeBlock(d[InodeBlockOf(i)].slots[i % INODES_IN_BLOCK := n])]
  }

  /** The table is a map: a write changes exactly the slot it names, and only one block in 3..102. */
  lemma InodeTableIsMap(d: Image, i: nat, n: Inode)
    requires Shape(d) && i < INODE_COUNT
    ensures Shape(PutInode(d, i, n))
    ensures forall j: nat :: j < INODE_COUNT ==> InodeAt(PutInode(d, i, n), j) == if j == i then n else InodeAt(d, j)
    ensures BLOCKID_INODE_TABLE <= InodeBlockOf(i) < BLOCKID_ROOT_DIR
    ensures forall b: nat :: b < |d| && b != InodeBlockOf(i) ==> PutInode(d, i, n)[b] == d[b]
  {
    var d' := PutInode(d, i, n);
    forall j: nat | j < INODE_COUNT ensures InodeAt(d', j) == if j == i then n else InodeAt(d, j) {
      SlotsDistinct(i, j);
    }
  }

  lemma SlotsDistinct(i: nat, j: nat)
    ensures i == j <==> InodeBlockOf(i) == InodeBlockOf(j) && i % INODES_IN_BLOCK == j % INODES_IN_BLOCK
  {
  }

  /** Images that agree from the inode table on. */
  ghost predicate SameData(d: Image, d': Image) {
    |d| == |d'| && forall k :: BLOCKID_INODE_TABLE <= k < |d| ==> d[k] == d'[k]
  }

  lemma SameDataSameInodes(d: Image, d': Image)
    requires Shape(d) && Shape(d') && SameData(d, d')
    ensures forall j: nat :: j < INODE_COUNT ==> InodeAt(d', j) == InodeAt(d, j)
    ensures forall b: nat :: DataBlock(b) ==> d'[b] == d[b]
  {
  }
}
