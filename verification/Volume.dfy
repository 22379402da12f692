/** The volume invariant: every live inode is well formed, every taken block has exactly one owner, and
    the directories form a tree. Stated on a device image and the sets of live inodes and taken blocks. */
module Volume {
  import opened Params
  import opened Layout
  import opened BlockMap
  import opened Dirent
  import opened Namespace

  /** blocks follows from size alone, and grows one block early. */
  predicate SizeOk(n: Inode) {
    if n.size == 0 then n.blocks == 0 else n.blocks == n.size / BLOCK_SIZE + 1
  }

  function NodeFrom(es: seq<Entry>): DirNode
    requires |es| >= 2
  {
    DirNode(es[1].inode, es[2..])
  }

  /** A directory: one block of records, the first two of which are "." and "..". */
  predicate DirFormat(d: Image, i: iptr, n: Inode)
    requires Shape(d) && WellMapped(d, n)
  {
    && n.blocks == 1 && n.size <= BLOCK_SIZE && DataBlock(n.data0[0])
    && Chain(Bytes(d, n.data0[0]), 0, n.size)
    && var es := Parse(Bytes(d, n.data0[0]), 0, n.size);
       |es| >= 2 && es == AllOf(i, NodeFrom(es))
  }

  ghost predicate InodeOk(d: Image, i: iptr)
    requires Shape(d)
  {
    && i < INODE_COUNT
    && var n := InodeAt(d, i);
       && WellMapped(d, n)
       && if n.kind == ITYPE_DIR then DirFormat(d, i, n) else n.kind == ITYPE_FILE && SizeOk(n)
  }

  ghost predicate IsDir(d: Image, i: iptr)
    requires Shape(d)
  {
    InodeOk(d, i) && InodeAt(d, i).kind == ITYPE_DIR
  }

  function DirBlock(n: Inode): iptr { n.data0[0] }

  ghost function NodeOf(d: Image, i: iptr): DirNode
    requires Shape(d) && IsDir(d, i)
  {
    var n := InodeAt(d, i);
    NodeFrom(Parse(Bytes(d, DirBlock(n)), 0, n.size))
  }

  ghost predicate AllOk(d: Image, live: set<nat>)
    requires Shape(d)
  {
    forall i: nat :: i in live ==> i < INODE_COUNT && InodeOk(d, i)
  }

  // ---- the three views of a volume ----

  function OwnedSet(d: Image, n: Inode): set<int>
    requires Shape(d) && Mapped(n)
  {
    set b: int | b in Owned(d, n)
  }

  ghost function OwnMap(d: Image, live: set<nat>): map<int, set<int>>
    requires Shape(d) && AllOk(d, live)
  {
    map i: int | i in live :: OwnedSet(d, InodeAt(d, i))
  }

  ghost function DirMap(d: Image, live: set<nat>): Nodes
    requires Shape(d) && AllOk(d, live)
  {
    map i: iptr | i in live && InodeAt(d, i).kind == ITYPE_DIR :: NodeOf(d, i)
  }

  ghost function FileSet(d: Image, live: set<nat>): set<iptr>
    requires Shape(d) && AllOk(d, live)
  {
    set i: iptr | i in live && InodeAt(d, i).kind == ITYPE_FILE
  }

  // ---- ownership ----

  /** `owner` names the one inode that holds a taken data block. */
  ghost predicate OwnedBy(own: map<int, set<int>>, used: set<int>, owner: map<int, int>) {
    && (forall b: int :: b in owner <==> b in used && b >= BLOCKID_ROOT_DIR)
    && (forall i: int, b: int :: i in own && b in own[i] ==> b in owner && owner[b] == i)
    && (forall b: int :: b in owner ==> owner[b] in own && b in own[owner[b]])
  }

  /** The taken data blocks are the disjoint union of what the live inodes own. */
  ghost predicate Partition(own: map<int, set<int>>, used: set<int>) {
    exists owner :: OwnedBy(own, used, owner)
  }

  lemma OwnerOf(own: map<int, set<int>>, used: set<int>, owner: map<int, int>, i: int, b: int)
    requires OwnedBy(own, used, owner) && i in own && b in own[i]
    ensures b in owner && owner[b] == i && b in used && b >= BLOCKID_ROOT_DIR
  {
  }

  /** What the partition means: no block has two owners ... */
  lemma OneOwner(own: map<int, set<int>>, used: set<int>, i: int, j: int, b: int)
    requires Partition(own, used) && i in own && j in own && b in own[i] && b in own[j]
    ensures i == j && b in used
  {
    var owner :| OwnedBy(own, used, owner);
    OwnerOf(own, used, owner, i, b);
    OwnerOf(own, used, owner, j, b);
  }

  /** ... and no taken data block is without one. */
  lemma SomeOwner(own: map<int, set<int>>, used: set<int>, b: int) returns (i: int)
    requires Partition(own, used) && b in used && b >= BLOCKID_ROOT_DIR
    ensures i in own && b in own[i]
  {
    var owner :| OwnedBy(own, used, owner);
    assert b in owner;
    i := owner[b];
  }

  lemma OwnedByIntro(own: map<int, set<int>>, used: set<int>, owner: map<int, int>)
    requires forall b: int :: b in owner <==> b in used && b >= BLOCKID_ROOT_DIR
    requires forall i: int, b: int :: i in own && b in own[i] ==> b in owner && owner[b] == i
    requires forall b: int :: b in owner ==> owner[b] in own && b in own[owner[b]]
    ensures Partition(own, used)
  {
    assert OwnedBy(own, used, owner);
  }

  /** An inode, old or new, comes to own the free blocks `taken` besides what it had. */
  lemma PartitionGrows(own: map<int, set<int>>, used: set<int>, i: int, s: set<int>, taken: set<int>, used': set<int>)
    requires Partition(own, used)
    requires forall b: int :: b in taken ==> b !in used && b >= BLOCKID_ROOT_DIR
    requires s == if i in own then own[i] + taken else taken
    requires forall b: int :: b in used' <==> b in used || b in taken
    ensures Partition(own[i := s], used')
  {
    var owner :| OwnedBy(own, used, owner);
    var own' := own[i := s];
    var all := owner.Keys + taken;
    var owner': map<int, int> := map b: int | b in all :: if b in taken then i else owner[b];
    forall j: int, b: int | j in own' && b in own'[j] ensures b in owner' && owner'[b] == j {
      if j != i || b !in taken { OwnerOf(own, used, owner, j, b); }
    }
    GrownOwners(own, used, owner, i, s, taken, owner');
    OwnedByIntro(own', used', owner');
  }

  lemma GrownOwners(own: map<int, set<int>>, used: set<int>, owner: map<int, int>, i: int, s: set<int>, taken: set<int>,
          owner': map<int, int>)
    requires OwnedBy(own, used, owner)
    requires s == if i in own then own[i] + taken else taken
    requires forall b: int :: b in owner' ==> if b in taken then owner'[b] == i else b in owner && owner'[b] == owner[b]
    ensures forall b: int :: b in owner' ==> owner'[b] in own[i := s] && b in own[i := s][owner'[b]]
  {
    forall b: int | b in owner' ensures owner'[b] in own[i := s] && b in own[i := s][owner'[b]] {
      if b !in taken { assert b in own[owner[b]]; }
    }
  }

  /** An inode goes away and its blocks become free. */
  lemma PartitionShrinks(own: map<int, set<int>>, used: set<int>, i: int, used': set<int>)
    requires Partition(own, used) && i in own
    requires forall b: int :: b in used' <==> b in used && b !in own[i]
    ensures Partition(own - {i}, used')
  {
    var owner :| OwnedBy(own, used, owner);
    var own' := own - {i};
    var owner': map<int, int> := map b: int | b in owner && b !in own[i] :: owner[b];
    forall j: int, b: int | j in own' && b in own'[j] ensures b in owner' && owner'[b] == j {
      OwnerOf(own, used, owner, j, b);
      if b in own[i] { OwnerOf(own, used, owner, i, b); }
    }
    OwnedByIntro(own', used', owner');
  }

  // ---- the invariant ----

  ghost predicate VolumeOk(d: Image, live: set<nat>, used: set<nat>) {
    && Shape(d) && AllOk(d, live)
    && Partition(OwnMap(d, live), used)
    && Tree(DirMap(d, live), FileSet(d, live))
  }

  // ---- frames ----

  /** Nothing that belongs to inode i differs. */
  ghost predicate SameInode(d: Image, d': Image, i: iptr)
    requires Shape(d) && Shape(d') && InodeOk(d, i)
  {
    InodeAt(d', i) == InodeAt(d, i) && forall b: iptr :: b in Owned(d, InodeAt(d, i)) ==> d'[b] == d[b]
  }

  lemma SameInodeFrame(d: Image, d': Image, i: iptr)
    requires Shape(d) && Shape(d') && InodeOk(d, i) && SameInode(d, d', i)
    ensures InodeOk(d', i) && Owned(d', InodeAt(d', i)) == Owned(d, InodeAt(d, i))
    ensures BlockList(d', InodeAt(d', i)) == BlockList(d, InodeAt(d, i))
    ensures InData(BlockList(d, InodeAt(d, i))) && Load(d', InodeAt(d', i)) == Load(d, InodeAt(d, i))
    ensures IsDir(d, i) ==> IsDir(d', i) && NodeOf(d', i) == NodeOf(d, i)
  {
    var n := InodeAt(d, i);
    OwnedParts(d, n);
    BlockListAgrees(d, d', n);
    ContentAgrees(d, d', BlockList(d, n));
    if n.kind == ITYPE_DIR { assert n.data0[0] == BlockList(d, n)[0]; }
  }

  /** d' differs from d only in the inodes T and in blocks that are free or belong to T. */
  ghost predicate OnlyTouches(d: Image, d': Image, live: set<nat>, used: set<nat>, t: set<iptr>)
    requires Shape(d) && AllOk(d, live)
  {
    && Shape(d')
    && (forall j: iptr :: j < INODE_COUNT && j !in t ==> InodeAt(d', j) == InodeAt(d, j))
    && (forall b: iptr :: DataBlock(b) && b in used && d'[b] != d[b] ==>
          exists i :: i in t && i in live && b in Owned(d, InodeAt(d, i)))
  }

  lemma UntouchedSame(d: Image, d': Image, live: set<nat>, used: set<nat>, t: set<iptr>, j: iptr)
    requires VolumeOk(d, live, used) && OnlyTouches(d, d', live, used, t) && j in live && j !in t
    ensures SameInode(d, d', j)
  {
    var own := OwnMap(d, live);
    forall b | b in Owned(d, InodeAt(d, j)) ensures d'[b] == d[b] {
      assert b in own[j];
      UntouchedBlock(d, d', live, used, t, j, b);
    }
  }

  lemma UntouchedBlock(d: Image, d': Image, live: set<nat>, used: set<nat>, t: set<iptr>, j: iptr, b: iptr)
    requires VolumeOk(d, live, used) && OnlyTouches(d, d', live, used, t) && j in live && j !in t
    requires b in Owned(d, InodeAt(d, j))
    ensures d'[b] == d[b]
  {
    var own := OwnMap(d, live);
    OneOwner(own, used, j, j, b);
    forall i: iptr | i in t && i in live ensures b !in Owned(d, InodeAt(d, i)) {
      if b in own[i] { OneOwner(own, used, i, j, b); }
    }
  }
}
