/** mkdir, creat and rmdir on the volume (src/fs.c:544-598, 622-665, 718-749): from the blocks they write
    to the tree they leave. */
module DirOps {
  import opened Params
  import opened Layout
  import opened BlockMap
  import opened Dirent
  import opened Namespace
  import opened Volume
  import opened VolumeOps

  /** A directory with one block, as cnmkdir and write_root_dir build it. */
  function DirInode(b: iptr): Inode {
    Inode(ITYPE_DIR, 24, 1, [b, 0, 0, 0, 0, 0, 0, 0], 0, 0)
  }

  /** The empty file of cncreat. */
  function EmptyFile(): Inode {
    Inode(ITYPE_FILE, 0, 0, [0, 0, 0, 0, 0, 0, 0, 0], 0, 0)
  }

  /** The two records of a new directory. */
  function DotEntries(self: iptr, parent: iptr): seq<Entry> {
    [Entry(self, ITYPE_DIR, DOT), Entry(parent, ITYPE_DIR, DOTDOT)]
  }

  lemma DotEntriesFit(self: iptr, parent: iptr)
    ensures TotalLen(DotEntries(self, parent)) == 24
    ensures forall e :: e in DotEntries(self, parent) ==> ValidName(e.name)
  {
    var es := DotEntries(self, parent);
    var rest := es[1..];
    assert rest == [es[1]] && rest[1..] == [];
    assert TotalLen(rest) == EntryLen(2) == 12 && TotalLen(es) == EntryLen(1) + TotalLen(rest);
  }

  function NewDirBytes(self: iptr, parent: iptr): (b: seq<byte>)
    ensures |b| == BLOCK_SIZE
  {
    DotEntriesFit(self, parent);
    Pack(DotEntries(self, parent))
  }

  /** The block that the code builds record by record. */
  lemma DotBytes(self: iptr, parent: iptr)
    ensures EntryLen(1) == 12 && EntryLen(2) == 12
    ensures var b := PutRecord(ZeroBytes(BLOCK_SIZE), 0, Entry(self, ITYPE_DIR, DOT));
            PutRecord(b, 12, Entry(parent, ITYPE_DIR, DOTDOT)) == NewDirBytes(self, parent)
  {
    DotEntriesFit(self, parent);
    PackTwo(Entry(self, ITYPE_DIR, DOT), Entry(parent, ITYPE_DIR, DOTDOT));
  }

  lemma PackOne(a: Entry)
    requires |a.name| == 1
    ensures TotalLen([a]) == 12 && Pack([a]) == PutRecord(ZeroBytes(BLOCK_SIZE), 0, a)
  {
    hide PutRecord, ZeroBytes;
    var none: seq<Entry> := [];
    assert none + [a] == [a];
    PackSnoc(none, a);
  }

  lemma PackTwo(a: Entry, b: Entry)
    requires |a.name| == 1 && |b.name| == 2
    ensures TotalLen([a, b]) == 24
    ensures Pack([a, b]) == PutRecord(PutRecord(ZeroBytes(BLOCK_SIZE), 0, a), 12, b)
  {
    PackOne(a);
    assert EntryLen(2) == 12;
    hide Pack, PutRecord, TotalLen, ZeroBytes, EntryLen;
    assert [a] + [b] == [a, b];
    PackSnoc([a], b);
  }

  // ---- one-block files ----

  /** A one-block map owns exactly its first direct block. */
  lemma OneBlockMap(d: Image, n: Inode)
    requires Shape(d) && n.blocks == 1 && n.data1 == 0 && DataBlock(n.data0[0])
    ensures WellMapped(d, n) && BlockList(d, n) == [n.data0[0]] && Owned(d, n) == [n.data0[0]]
    ensures OwnedSet(d, n) == {n.data0[0] as int}
  {
    assert n.data0[..1] == [n.data0[0]];
  }

  lemma NoBlockMap(d: Image, n: Inode)
    requires Shape(d) && n.blocks == 0 && n.data1 == 0
    ensures WellMapped(d, n) && Owned(d, n) == [] && OwnedSet(d, n) == {}
  {
  }

  lemma DirIsOneBlock(d: Image, p: iptr)
    requires Shape(d) && IsDir(d, p)
    ensures var n := InodeAt(d, p);
            n.blocks == 1 && n.data1 == 0 && DataBlock(DirBlock(n)) && Owned(d, n) == [DirBlock(n)]
            && OwnedSet(d, n) == {DirBlock(n) as int}
  {
    OneBlockMap(d, InodeAt(d, p));
  }

  // ---- the parent ----

  /** The records of directory p. */
  ghost function EntriesOf(d: Image, p: iptr): seq<Entry>
    requires Shape(d) && IsDir(d, p)
  {
    var n := InodeAt(d, p);
    Parse(Bytes(d, DirBlock(n)), 0, n.size)
  }

  lemma EntriesAre(d: Image, p: iptr)
    requires Shape(d) && IsDir(d, p)
    ensures EntriesOf(d, p) == AllOf(p, NodeOf(d, p))
    ensures InodeAt(d, p).size == TotalLen(EntriesOf(d, p)) <= BLOCK_SIZE
    ensures forall e :: e in EntriesOf(d, p) ==> ValidName(e.name)
  {
    var n := InodeAt(d, p);
    ChainLength(Bytes(d, DirBlock(n)), 0, n.size);
  }

  /** d' holds directory p with the given inode and bytes. */
  ghost predicate HoldsDir(d': Image, p: iptr, n: Inode, bytes: seq<byte>) {
    && Shape(d') && p < INODE_COUNT && InodeAt(d', p) == n
    && n.kind == ITYPE_DIR && n.blocks == 1 && n.data1 == 0 && DataBlock(n.data0[0])
    && Bytes(d', n.data0[0]) == bytes
  }

  /** Bytes that parse to "." and ".." and then the children make a directory. */
  lemma DirFromRecords(d': Image, p: iptr, n: Inode, bytes: seq<byte>, node: DirNode)
    requires HoldsDir(d', p, n, bytes) && n.size <= BLOCK_SIZE
    requires Chain(bytes, 0, n.size) && Parse(bytes, 0, n.size) == AllOf(p, node)
    ensures IsDir(d', p) && NodeOf(d', p) == node && OwnedSet(d', n) == {n.data0[0] as int}
  {
    OneBlockMap(d', n);
    var es := Parse(bytes, 0, n.size);
    assert es[2..] == node.children;
    assert NodeFrom(es) == node;
  }

  /** Appending a record at index = size lists one more child. */
  lemma ParentAppended(d: Image, d': Image, p: iptr, e: Entry)
    requires Shape(d) && IsDir(d, p) && ValidName(e.name)
    requires InodeAt(d, p).size + EntryLen(|e.name|) <= BLOCK_SIZE
    requires var n := InodeAt(d, p);
             HoldsDir(d', p, n.(size := n.size + EntryLen(|e.name|)), PutRecord(Bytes(d, DirBlock(n)), n.size, e))
    ensures IsDir(d', p) && NodeOf(d', p) == DirNode(NodeOf(d, p).parent, NodeOf(d, p).children + [e])
    ensures OwnedSet(d', InodeAt(d', p)) == OwnedSet(d, InodeAt(d, p))
  {
    var n := InodeAt(d, p);
    var node := NodeOf(d, p);
    DirIsOneBlock(d, p);
    EntriesAre(d, p);
    ParseAppend(Bytes(d, DirBlock(n)), 0, n.size, e);
    hide Parse, Chain, PutRecord, IsDir, NodeOf, OwnedSet, TotalLen;
    assert AllOf(p, node) + [e] == AllOf(p, DirNode(node.parent, node.children + [e]));
    DirFromRecords(d', p, InodeAt(d', p), Bytes(d', DirBlock(n)), DirNode(node.parent, node.children + [e]));
  }

  /** rmdir's rewritten directory: the records without the named one, packed anew. */
  lemma ParentCompacted(d: Image, d': Image, p: iptr, name: seq<byte>)
    requires Shape(d) && IsDir(d, p) && name != DOT && name != DOTDOT
    requires forall x :: x in Without(EntriesOf(d, p), name) ==> |x.name| <= 255
    requires var es := Without(EntriesOf(d, p), name);
             TotalLen(es) <= BLOCK_SIZE && HoldsDir(d', p, InodeAt(d, p).(size := TotalLen(es)), Pack(es))
    ensures IsDir(d', p) && NodeOf(d', p) == DirNode(NodeOf(d, p).parent, Without(NodeOf(d, p).children, name))
    ensures OwnedSet(d', InodeAt(d', p)) == OwnedSet(d, InodeAt(d, p))
  {
    var node := NodeOf(d, p);
    DirIsOneBlock(d, p);
    EntriesAre(d, p);
    var es := Without(EntriesOf(d, p), name);
    PackRoundTrip(es);
    WithoutDots(p, node, name);
    DirFromRecords(d', p, InodeAt(d', p), Pack(es), DirNode(node.parent, Without(node.children, name)));
  }

  lemma WithoutHead(x: Entry, rest: seq<Entry>, name: seq<byte>)
    requires x.name != name
    ensures Without([x] + rest, name) == [x] + Without(rest, name)
  {
    assert ([x] + rest)[1..] == rest;
  }

  lemma WithoutTwo(a: Entry, b: Entry, rest: seq<Entry>, name: seq<byte>)
    requires a.name != name && b.name != name
    ensures Without([a, b] + rest, name) == [a, b] + Without(rest, name)
  {
    hide Without;
    WithoutHead(a, [b] + rest, name);
    WithoutHead(b, rest, name);
    assert [a, b] + rest == [a] + ([b] + rest);
  }

  lemma WithoutDots(p: iptr, node: DirNode, name: seq<byte>)
    requires name != DOT && name != DOTDOT
    ensures Without(AllOf(p, node), name) == AllOf(p, DirNode(node.parent, Without(node.children, name)))
  {
    hide Without;
    WithoutTwo(Entry(p, ITYPE_DIR, DOT), Entry(node.parent, ITYPE_DIR, DOTDOT), node.children, name);
  }

  // ---- the new inode ----

  lemma NewDirOk(d': Image, i: iptr, p: iptr, nb: iptr)
    requires HoldsDir(d', i, DirInode(nb), NewDirBytes(i, p))
    ensures IsDir(d', i) && NodeOf(d', i) == DirNode(p, []) && OwnedSet(d', InodeAt(d', i)) == {nb as int}
  {
    DotEntriesFit(i, p);
    PackRoundTrip(DotEntries(i, p));
    assert DotEntries(i, p) == AllOf(i, DirNode(p, []));
    DirFromRecords(d', i, DirInode(nb), NewDirBytes(i, p), DirNode(p, []));
  }

  lemma NewFileOk(d': Image, i: iptr)
    requires Shape(d') && i < INODE_COUNT && InodeAt(d', i) == EmptyFile()
    ensures InodeOk(d', i) && InodeAt(d', i).kind == ITYPE_FILE && OwnedSet(d', InodeAt(d', i)) == {}
  {
    NoBlockMap(d', EmptyFile());
  }

  // ---- one inode and one block written ----

  /** d' is d with inode i and data block b rewritten; the metadata blocks are not looked at. */
  ghost predicate Edited(d: Image, d': Image, i: iptr, n: Inode, b: iptr, bytes: seq<byte>) {
    && Shape(d) && Shape(d') && i < INODE_COUNT && DataBlock(b)
    && InodeAt(d', i) == n && d'[b] == ByteBlock(bytes)
    && (forall j: iptr :: j < INODE_COUNT && j != i ==> InodeAt(d', j) == InodeAt(d, j))
    && (forall c: iptr :: DataBlock(c) && c != b ==> d'[c] == d[c])
  }

  lemma EditedBy(d: Image, d1: Image, i: iptr, n: Inode, b: iptr, bytes: seq<byte>)
    requires Shape(d) && Shape(d1) && SameData(d, d1) && i < INODE_COUNT && DataBlock(b) && |bytes| == BLOCK_SIZE
    ensures Edited(d, PutInode(d1, i, n)[b := ByteBlock(bytes)], i, n, b, bytes)
  {
    InodeTableIsMap(d1, i, n);
    SameDataSameInodes(d, d1);
    var d2 := PutInode(d1, i, n);
    assert forall j: iptr :: j < INODE_COUNT ==> InodeAt(d2[b := ByteBlock(bytes)], j) == InodeAt(d2, j);
  }

  /** d' is d with inode i rewritten. */
  ghost predicate EditedInode(d: Image, d': Image, i: iptr, n: Inode) {
    && Shape(d) && Shape(d') && i < INODE_COUNT && InodeAt(d', i) == n
    && (forall j: iptr :: j < INODE_COUNT && j != i ==> InodeAt(d', j) == InodeAt(d, j))
    && (forall c: iptr :: DataBlock(c) ==> d'[c] == d[c])
  }

  lemma EditedInodeBy(d: Image, d1: Image, i: iptr, n: Inode)
    requires Shape(d) && Shape(d1) && SameData(d, d1) && i < INODE_COUNT
    ensures EditedInode(d, PutInode(d1, i, n), i, n)
  {
    InodeTableIsMap(d1, i, n);
    SameDataSameInodes(d, d1);
  }

  /** Directory p with the record e appended. */
  ghost predicate Appended(d: Image, d': Image, p: iptr, e: Entry) {
    && Shape(d) && IsDir(d, p) && ValidName(e.name) && InodeAt(d, p).size + EntryLen(|e.name|) <= BLOCK_SIZE
    && var n := InodeAt(d, p);
       Edited(d, d', p, n.(size := n.size + EntryLen(|e.name|)), DirBlock(n),
         PutRecord(Bytes(d, DirBlock(n)), n.size, e))
  }

  /** The parent and a free inode edited: nothing of any other live inode is touched. */
  lemma AppendTouches(d: Image, d1: Image, d2: Image, live: set<nat>, used: set<nat>, p: iptr, e: Entry)
    requires Shape(d) && AllOk(d, live) && p in live && Appended(d, d1, p, e) && Shape(d2)
    requires forall j: iptr :: j < INODE_COUNT && j != e.inode ==> InodeAt(d2, j) == InodeAt(d1, j)
    requires forall c: iptr :: DataBlock(c) && c in used ==> d2[c] == d1[c]
    ensures OnlyTouches(d, d2, live, used, {p, e.inode})
  {
    DirIsOneBlock(d, p);
    assert DirBlock(InodeAt(d, p)) in Owned(d, InodeAt(d, p));
  }

  lemma ParentHeld(d: Image, d1: Image, d2: Image, p: iptr, e: Entry)
    requires Appended(d, d1, p, e) && Shape(d2)
    requires InodeAt(d2, p) == InodeAt(d1, p) && d2[DirBlock(InodeAt(d, p))] == d1[DirBlock(InodeAt(d, p))]
    ensures IsDir(d2, p) && NodeOf(d2, p) == DirNode(NodeOf(d, p).parent, NodeOf(d, p).children + [e])
    ensures OwnedSet(d2, InodeAt(d2, p)) == OwnedSet(d, InodeAt(d, p))
  {
    DirIsOneBlock(d, p);
    ParentAppended(d, d2, p, e);
  }

  // ---- mkdir and creat ----

  /** The facts that make up Added. */
  lemma AddedIntro(d: Image, d': Image, live: set<nat>, p: iptr, e: Entry)
    requires Shape(d) && Shape(d') && AllOk(d, live) && p in live && IsDir(d, p) && IsDir(d', p)
    requires e.inode !in live && InodeOk(d', e.inode) && InodeAt(d', e.inode).kind == e.kind
    requires OwnedSet(d', InodeAt(d', p)) == OwnedSet(d, InodeAt(d, p))
    requires NodeOf(d', p) == DirNode(NodeOf(d, p).parent, NodeOf(d, p).children + [e])
    requires e.kind == ITYPE_DIR ==> NodeOf(d', e.inode) == DirNode(p, [])
    requires forall j: iptr :: j in live && j !in {p, e.inode} ==> SameView(d, d', j)
    ensures Added(d, d', live, p, e, live + {e.inode as nat})
  {
    AllOkAfter(d, d', live, live + {e.inode as nat}, {p, e.inode});
  }

  lemma MkdirAdds(d: Image, d1: Image, d2: Image, live: set<nat>, p: iptr, e: Entry, nb: iptr)
    requires Shape(d) && AllOk(d, live) && p in live && Appended(d, d1, p, e) && e.kind == ITYPE_DIR
    requires Edited(d1, d2, e.inode, DirInode(nb), nb, NewDirBytes(e.inode, p))
    requires e.inode !in live && nb != DirBlock(InodeAt(d, p))
    requires forall j: iptr :: j in live && j !in {p, e.inode} ==> SameView(d, d2, j)
    ensures Added(d, d2, live, p, e, live + {e.inode as nat})
    ensures OwnedSet(d2, InodeAt(d2, e.inode)) == {nb as int}
  {
    ParentHeld(d, d1, d2, p, e);
    NewDirOk(d2, e.inode, p, nb);
    hide Appended, Edited;
    AddedIntro(d, d2, live, p, e);
  }

  lemma CreatAdds(d: Image, d1: Image, d2: Image, live: set<nat>, p: iptr, e: Entry)
    requires Shape(d) && AllOk(d, live) && p in live && Appended(d, d1, p, e) && e.kind == ITYPE_FILE
    requires EditedInode(d1, d2, e.inode, EmptyFile())
    requires e.inode !in live && DataBlock(DirBlock(InodeAt(d, p)))
    requires forall j: iptr :: j in live && j !in {p, e.inode} ==> SameView(d, d2, j)
    ensures Added(d, d2, live, p, e, live + {e.inode as nat})
    ensures OwnedSet(d2, InodeAt(d2, e.inode)) == {}
  {
    ParentHeld(d, d1, d2, p, e);
    NewFileOk(d2, e.inode);
    hide Appended, EditedInode;
    AddedIntro(d, d2, live, p, e);
  }

  // ---- rmdir ----

  /** Directory p rewritten without its entry of that name. */
  ghost predicate Compacted(d: Image, d': Image, p: iptr, name: seq<byte>) {
    && Shape(d) && IsDir(d, p) && name != DOT && name != DOTDOT
    && var es := Without(EntriesOf(d, p), name);
       && (forall x :: x in es ==> |x.name| <= 255) && TotalLen(es) <= BLOCK_SIZE
       && Edited(d, d', p, InodeAt(d, p).(size := TotalLen(es)), DirBlock(InodeAt(d, p)), Pack(es))
  }

  lemma CompactTouches(d: Image, d': Image, live: set<nat>, used: set<nat>, p: iptr, name: seq<byte>)
    requires Shape(d) && AllOk(d, live) && p in live && Compacted(d, d', p, name)
    ensures OnlyTouches(d, d', live, used, {p})
  {
    DirIsOneBlock(d, p);
    assert DirBlock(InodeAt(d, p)) in Owned(d, InodeAt(d, p));
  }

  lemma SiblingsIntact(d: Image, d': Image, live: set<nat>, used: set<nat>, p: iptr, name: seq<byte>)
    requires VolumeOk(d, live, used) && p in live && Compacted(d, d', p, name)
    ensures forall j: iptr :: j in live && j !in {p} ==> SameView(d, d', j)
  {
    CompactTouches(d, d', live, used, p, name);
    hide Compacted;
    Untouched(d, d', live, used, {p});
  }

  lemma RmdirRemoves(d: Image, d': Image, live: set<nat>, p: iptr, e: Entry)
    requires Shape(d) && AllOk(d, live) && p in live && Compacted(d, d', p, e.name)
    requires e.inode in live && e.inode != p && e.inode < INODE_COUNT && InodeAt(d, e.inode).kind == ITYPE_DIR
    requires forall j: iptr :: j in live && j !in {p} ==> SameView(d, d', j)
    ensures Removed(d, d', live, p, e, live - {e.inode as nat})
  {
    ParentCompacted(d, d', p, e.name);
    hide Compacted;
    AllOkAfter(d, d', live, live - {e.inode as nat}, {p});
  }
}
