/** Concrete inputs on which the code does not do what a caller would expect. The lemmas that say exactly when it
    does are ReadOps.ReadIsExpected, Coherence.SeekSurvivesReopen, Walks.OpenIsFold, Walks.LandsOnDirectory,
    System.OpenKeepsWhen, Paths.MkdirWalkIsFold and Paths.MkdirWorksWhere. */
module Findings {
  import opened Params
  import opened Layout
  import opened BlockMap
  import opened Allocator
  import opened Dirent
  import opened Namespace
  import opened OpenFile
  import opened DirOps
  import opened MetaOps
  import opened Steps
  import opened System
  import opened Format
  import opened Runs
  import opened Calls
  import opened BlockDev
  import opened StoreLayer
  import opened Fs
  import opened Volume
  import opened VolumeOps
  import opened Bitmap
  import opened FileOps
  import opened ReadOps
  import opened Coherence
  import opened Paths
  import opened Walks

  /** A file of the two bytes 97, 98, open at some cursor. */
  function TwoBytes(cursor: nat): FdEntry {
    FdEntry(FD_READ, 1, Inode(ITYPE_FILE, 2, 1, [104, 0, 0, 0, 0, 0, 0, 0], 0, 0), cursor, [97, 98] + ZeroBytes(4094))
  }

  /** Reading two bytes of it from the start delivers one. */
  lemma ReadStopsShort()
    ensures ReadFits(TwoBytes(0), 2) && Expected(TwoBytes(0), 2) == [97, 98] && Delivered(TwoBytes(0), 2) == [97]
  {
    assert TwoBytes(0).data[..2] == [97, 98];
    assert TwoBytes(0).data[0..1] == [97];
  }

  /** Reading one byte at its end delivers a byte of padding, where none is expected. */
  lemma ReadPastEnd()
    ensures ReadFits(TwoBytes(2), 1) && Expected(TwoBytes(2), 1) == [] && Delivered(TwoBytes(2), 1) == [0]
  {
    assert ReadBound(TwoBytes(2)) == TWO32 - 1;
    assert TwoBytes(2).data[2..3] == [0];
  }

  /** An empty file open for reading. */
  function NoBytes(): FdEntry {
    FdEntry(FD_READ, 1, Inode(ITYPE_FILE, 0, 0, [0, 0, 0, 0, 0, 0, 0, 0], 0, 0), 0, [])
  }

  /** Reading one byte of it copies from a buffer that does not exist. */
  lemma ReadOfNothing()
    ensures Expected(NoBytes(), 1) == [] && ReadLen(NoBytes(), 1) == 1 && !ReadFits(NoBytes(), 1)
  {
    assert ReadBound(NoBytes()) == TWO32 - 1;
  }

  /** The root with one empty directory "a". */
  function OneDir(): Nodes {
    map[0 := DirNode(0, [Entry(1, ITYPE_DIR, [97])]), 1 := DirNode(0, [])]
  }

  lemma OneDirIsTree()
    ensures Tree(OneDir(), {})
  {
    var nodes, home, depth := OneDir(), map[1 := 0], map[0 := 0, 1 := 1];
    var e := Entry(1, ITYPE_DIR, [97]);
    assert nodes[0].children == [e] && e in nodes[0].children;
    assert EntryOk(nodes, {}, home, 0, e);
    assert DirOk(nodes, {}, home, 0) && DirOk(nodes, {}, home, 1);
    assert Holds(nodes, 0, 1);
    assert TreeBy(nodes, {}, home, depth);
  }

  lemma LookupInOneDir(name: seq<byte>)
    requires name == [97] || name == [98]
    ensures 0 in OneDir() && 1 in OneDir()
    ensures Lookup(OneDir(), 0, name) == if name == [97] then Some(Entry(1, ITYPE_DIR, [97])) else None
    ensures Lookup(OneDir(), 1, name).None?
  {
    FindInAll(OneDir(), 0, name);
    FindInAll(OneDir(), 1, name);
    var e := Entry(1, ITYPE_DIR, [97]);
    assert OneDir()[0].children == [e] && [e][1..] == [];
  }

  /** Opening "a/b", of which only "a" exists, answers with "a". */
  lemma MissingComponentOpensParent()
    ensures Tree(OneDir(), {}) && 0 in OneDir() && Resolve(OneDir(), 0, [[97], [98]]).None?
    ensures OpenPath(OneDir(), 0, Path(false, [[97], [98]])) == Some(1)
  {
    OneDirIsTree();
    LookupInOneDir([97]);
    LookupInOneDir([98]);
    var comps, rest: seq<Name> := [[97], [98]], [[98]];
    assert comps[1..] == rest;
  }

  /** Making "b/c", of which "b" does not exist, makes "c" in the current directory. */
  lemma MkdirSkipsMissing()
    ensures Tree(OneDir(), {}) && 0 in OneDir() && Resolve(OneDir(), 0, [[98]]).None?
    ensures MkdirWalk(OneDir(), 0, [[98]]) == 0
  {
    OneDirIsTree();
    LookupInOneDir([98]);
    var comps: seq<Name> := [[98]];
    assert comps[1..] == [];
  }

  /** Making "/c" with "a" as the current directory makes "c" in "a", although the path names the root. */
  lemma MkdirForgetsRoot()
    ensures Tree(OneDir(), {}) && 0 in OneDir() && 1 in OneDir()
    ensures var path := Path(true, [[99]]);
            MkdirWalk(OneDir(), 1, Via(path)) == 1 && Resolve(OneDir(), Start(1, path), Via(path)) == Some(0)
  {
    OneDirIsTree();
  }

  /** The root with two empty directories "a" and "b". */
  function TwoDirs(): Nodes {
    AddDir(OneDir(), 0, Entry(2, ITYPE_DIR, [98]))
  }

  lemma TwoDirsIsTree()
    ensures Tree(TwoDirs(), {})
  {
    OneDirIsTree();
    LookupInOneDir([98]);
    MkdirKeepsTree(OneDir(), {}, 0, Entry(2, ITYPE_DIR, [98]));
  }

  lemma OneComponent(nodes: Nodes, d: iptr, name: Name)
    requires d in nodes
    ensures Resolve(nodes, d, [name]) == Child(nodes, d, name)
    ensures MkdirWalk(nodes, d, [name]) == if Child(nodes, d, name).Some? then Child(nodes, d, name).value else d
  {
    var comps: seq<Name> := [name];
    assert comps[1..] == [];
  }

  lemma ChildInTwoDirs()
    ensures 0 in TwoDirs() && 1 in TwoDirs()
    ensures Child(TwoDirs(), 0, [98]) == Some(2) && Child(TwoDirs(), 1, [98]) == None
  {
    FindInAll(TwoDirs(), 0, [98]);
    FindInAll(TwoDirs(), 1, [98]);
    FindSecond(Entry(1, ITYPE_DIR, [97]), Entry(2, ITYPE_DIR, [98]));
  }

  lemma FindSecond(a: Entry, b: Entry)
    requires a.name != b.name
    ensures Find([a, b], b.name) == Some(b)
  {
    assert [a, b][1..] == [b];
  }

  /** Making "/b/c" with "a" as the current directory makes "c" in "a", although "/b" is there. */
  lemma MkdirMissesSibling()
    ensures Tree(TwoDirs(), {}) && 0 in TwoDirs() && 1 in TwoDirs()
    ensures var path := Path(true, [[98], [99]]);
            MkdirWalk(TwoDirs(), 1, Via(path)) == 1 && Resolve(TwoDirs(), Start(1, path), Via(path)) == Some(2)
  {
    TwoDirsIsTree();
    ChildInTwoDirs();
    hide TwoDirs, Tree, Child, Resolve, MkdirWalk;
    OneComponent(TwoDirs(), 0, [98]);
    OneComponent(TwoDirs(), 1, [98]);
    assert Via(Path(true, [[98], [99]])) == [[98]];
  }

  /** Two absolute paths that are worked where they say although the current directory is not the root: "/a/c" and
      "/../c" from "a". */
  lemma MkdirHitsByChance()
    ensures 0 in OneDir() && 1 in OneDir()
    ensures MkdirWalk(OneDir(), 1, [[97]]) == 1 && Resolve(OneDir(), 0, [[97]]) == Some(1)
    ensures MkdirWalk(OneDir(), 1, [DOTDOT]) == 0 && Resolve(OneDir(), 0, [DOTDOT]) == Some(0)
  {
    LookupInOneDir([97]);
    OneComponent(OneDir(), 0, [97]);
    OneComponent(OneDir(), 1, [97]);
    FindInAll(OneDir(), 0, DOTDOT);
    FindInAll(OneDir(), 1, DOTDOT);
    OneComponent(OneDir(), 0, DOTDOT);
    OneComponent(OneDir(), 1, DOTDOT);
  }

  // ---- a seek that exposes old bytes ----

  /** A device that has been in use: block 104 starts with a 7. */
  function OldBlock(k: nat): Block {
    if k == BLOCKID_SUPER then SuperBlock(NewSuper())
    else if k < BLOCKID_INODE_TABLE then BitBlock(seq(BLOCK_SIZE, i => 0))
    else if k < BLOCKID_ROOT_DIR then InodeBlock(seq(INODES_IN_BLOCK, i => EmptyFile()))
    else if k == 104 then ByteBlock([7] + ZeroBytes(BLOCK_SIZE - 1))
    else ByteBlock(ZeroBytes(BLOCK_SIZE))
  }

  function OldDevice(): (d: Image)
    ensures |d| == BD_SIZE_BLOCKS && Shape(d) && Bytes(d, 104)[0] == 7
  {
    seq(BD_SIZE_BLOCKS, k requires 0 <= k < BD_SIZE_BLOCKS => OldBlock(k))
  }

  const F: Name := [102]

  /** A volume whose next free block is 104, which still starts with a 7. */
  ghost predicate OldByteNext(m: Meta) {
    && Sized(m) && Bytes(m.disk, 104)[0] == 7
    && (forall b: nat :: b in Used(m) <==> b <= BLOCKID_ROOT_DIR) && m.super.freeBlocks > 0
  }

  lemma NextIs104(m: Meta)
    requires OldByteNext(m)
    ensures FreeRow(m.blockBm, 1) == [104]
  {
    NextIs(m, 104);
  }

  lemma NextIs(m: Meta, b: nat)
    requires Sized(m) && b < BD_SIZE_BLOCKS && forall c: nat :: c in Used(m) <==> c < b
    ensures FreeRow(m.blockBm, 1) == [b]
  {
    var none: seq<iptr> := [];
    assert FreeRow(m.blockBm, 0) == none && SetAll(m.blockBm, none) == m.blockBm;
    assert Used(m) == Bits(m.blockBm);
    assert b !in Used(m) && forall k: nat :: k < b ==> k in Used(m);
    LeastIsFirstFree(m.blockBm, b);
    FreeRowNext(m.blockBm, none);
    assert none + [b] == [b];
  }

  /** After cnmkfs and cnmount "f" can be made in the root. */
  lemma FreshReady(bb: seq<bv8>, ib: seq<bv8>, d: Image)
    requires MadeFs(OldDevice(), bb, ib, d)
    ensures Shape(d) && MetaOk(Mounted(d)) && OldByteNext(Mounted(d)) && 0 in Names(Mounted(d))
    ensures Lookup(Names(Mounted(d)), 0, F).None? && CanCreat(Mounted(d), 0, F)
  {
    hide MetaOk, OldDevice, MadeFs, Mounted, Fits, Mountable, DirMap, FileSet, AllOk, Shape;
    MkfsThenMount(OldDevice(), bb, ib, d);
    MountableFacts(d);
    FreshByte(bb, ib, d);
    FreshRoom(bb, ib, d);
    NothingInRoot(Names(Mounted(d)));
  }

  lemma NothingInRoot(nodes: Nodes)
    requires nodes == map[0 := DirNode(0, [])]
    ensures Lookup(nodes, 0, F).None? && FreshName(nodes, 0, F)
  {
    FindInAll(nodes, 0, F);
  }

  lemma FreshRoom(bb: seq<bv8>, ib: seq<bv8>, d: Image)
    requires MadeFs(OldDevice(), bb, ib, d)
    ensures Sized(Mounted(d)) && Fits(Mounted(d), 0, F)
    ensures Mounted(d).super.freeInodes > 0 && Mounted(d).super.freeBlocks > 0
  {
    FreshImage(OldDevice(), bb, ib, d);
    hide OldDevice, MadeFs, NewDirBytes;
  }

  lemma FreshByte(bb: seq<bv8>, ib: seq<bv8>, d: Image)
    requires MadeFs(OldDevice(), bb, ib, d) && Shape(d)
    ensures Bytes(d, 104)[0] == 7
  {
    hide OldDevice;
    assert d[104] == OldDevice()[104];
  }

  /** "f" has just been made and opened for writing: descriptor fd is on the empty file i, and nothing else is open. */
  ghost predicate JustOpened(s: Sys, fd: nat, i: iptr) {
    && SysInv(s) && 0 in Names(s.m) && OldByteNext(s.m)
    && Lookup(Names(s.m), 0, F) == Some(Entry(i, ITYPE_FILE, F)) && i !in Names(s.m)
    && fd < |s.fds| && s.fds[fd] == FdEntry(FD_WRITE, i, EmptyFile(), 0, [])
    && forall k: nat :: k < |s.fds| && k != fd ==> !InUse(s.fds[k])
  }

  /** cncreat leaves every data block alone but the directory's. */
  lemma CreatLeavesBlocks(m: Meta, p: iptr, name: Name, m1: Meta, i: iptr, r: Meta, b: nat)
    requires Counted(m) && m.super.freeInodes > 0 && CreatSteps(m, p, name, m1, i, r) && Sized(r)
    requires DataBlock(b) && b != DirBlock(InodeAt(m.disk, p))
    ensures r.disk[b] == m.disk[b]
  {
    Reserving(m, p, name);
    hide Allocator.ReserveInode, Fits, Counted;
    AppendShape(m1, p, Entry(i, ITYPE_FILE, name));
    InodeTableIsMap(AppendEntry(m1, p, Entry(i, ITYPE_FILE, name)).disk, i, EmptyFile());
  }

  /** The root directory of a volume whose taken blocks are 0..103 is in block 103, so block 104 is not its. */
  lemma RootElsewhere(m: Meta, p: iptr)
    requires MetaOk(m) && p in Names(m) && OldByteNext(m)
    ensures p < INODE_COUNT && DirBlock(InodeAt(m.disk, p)) != 104
  {
    hide AllOk, Partition, Tree, DirMap;
    InTree(m, p);
  }

  lemma CreatKeepsOldByte(m: Meta, m1: Meta, i: iptr, r: Meta)
    requires MetaOk(m) && 0 in Names(m) && OldByteNext(m) && CanCreat(m, 0, F) && CreatSteps(m, 0, F, m1, i, r)
    ensures OldByteNext(r) && FileMade(m, r, 0, Entry(i, ITYPE_FILE, F))
  {
    hide MetaOk, AllOk, DirMap, CreatSteps, FileMade, CanCreat;
    CreatMakes(m, 0, F, m1, i, r);
    RootElsewhere(m, 0);
    CanCreatFacts(m, 0, F);
    MadeKeepsBlocks(m, r, 0, Entry(i, ITYPE_FILE, F));
    CreatLeavesBlocks(m, 0, F, m1, i, r, 104);
  }

  lemma MadeKeepsBlocks(m: Meta, r: Meta, p: iptr, e: Entry)
    requires FileMade(m, r, p, e)
    ensures Sized(m) && Sized(r) && Used(r) == Used(m) && r.super.freeBlocks == m.super.freeBlocks
  {
    hide AllOk, Partition, Tree, DirMap, SameView, Flushed;
  }

  lemma AfterOpen(s: Sys, t: Sys, fd: int) returns (i: iptr)
    requires SysInv(s) && AtRest(s) && 0 in Names(s.m) && OldByteNext(s.m)
    requires Lookup(Names(s.m), 0, F).None? && CanCreat(s.m, 0, F) && SysInv(t) && OpenEnds(s, 0, F, FD_WRITE, fd, t)
    ensures 0 <= fd && JustOpened(t, fd, i)
  {
    hide MetaOk, FdsOk, OldByteNext, CanCreat, CreatSteps, Lookup, FdOpened, FileMade, AllOk, DirMap;
    var m1, j :| Sized(t.m) && CreatSteps(s.m, 0, F, m1, j, t.m) && FdOpened(s.(m := t.m), j, FD_WRITE, t);
    i := j;
    SysMeta(s);
    CreatKeepsOldByte(s.m, m1, i, t.m);
    FreshOf(s.m);
    MadeIsFound(s.m, 0, F, i, t.m);
    MadeEmpty(s.m, t.m, i);
    OnlyOneOpen(s, t, i, fd);
  }

  lemma SysMeta(s: Sys)
    requires SysInv(s)
    ensures MetaOk(s.m)
  {
  }

  lemma FreshOf(m: Meta)
    requires CanCreat(m, 0, F)
    ensures 0 in Names(m) && FreshName(Names(m), 0, F)
  {
  }

  lemma MadeEmpty(m: Meta, r: Meta, i: iptr)
    requires FileMade(m, r, 0, Entry(i, ITYPE_FILE, F))
    ensures Sized(r) && i < INODE_COUNT && InodeAt(r.disk, i) == EmptyFile() && i !in Names(r)
    ensures Mapped(EmptyFile()) && BlockList(r.disk, EmptyFile()) == [] && Load(r.disk, EmptyFile()) == []
  {
    hide AllOk, Partition, Tree, DirMap, SameView, Flushed;
    MadeIsFile(m, r, 0, Entry(i, ITYPE_FILE, F));
    NotNamed(r, i);
  }

  lemma OnlyOneOpen(s: Sys, t: Sys, i: iptr, fd: int)
    requires AtRest(s) && Sized(t.m) && i < INODE_COUNT && InodeAt(t.m.disk, i) == EmptyFile()
    requires Mapped(EmptyFile()) && BlockList(t.m.disk, EmptyFile()) == [] && Load(t.m.disk, EmptyFile()) == []
    requires FdOpened(s.(m := t.m), i, FD_WRITE, t) && fd == FirstFree(s.fdBm)
    ensures 0 <= fd < |t.fds| && t.fds[fd] == FdEntry(FD_WRITE, i, EmptyFile(), 0, [])
    ensures forall k: nat :: k < |t.fds| && k != fd ==> !InUse(t.fds[k])
  {
    hide FirstFree;
  }

  /** The seek to 5: room for one block, the cache shows zeros, and opening the file again shows the old byte. */
  lemma AfterSeek(s: Sys, fd: nat, i: iptr, t: Sys)
    requires JustOpened(s, fd, i) && SeekStep(s, fd, 5, t) && SysInv(t)
    ensures fd < |t.fds| && t.fds[fd].inode.size == 5 <= |t.fds[fd].data| && Text(t.fds[fd]) == [0, 0, 0, 0, 0]
    ensures IsFile(t.m, i) && 0 in Names(t.m) && Lookup(Names(t.m), 0, F) == Some(Entry(i, ITYPE_FILE, F))
            && i !in Names(t.m)
    ensures Mapped(InodeAt(t.m.disk, i)) && InData(BlockList(t.m.disk, InodeAt(t.m.disk, i)))
    ensures Opened(t.m, i, FD_READ).inode.size == 5 <= |Opened(t.m, i, FD_READ).data|
            && Opened(t.m, i, FD_READ).data[0] == 7
    ensures forall k: nat :: k < |t.fds| && k != fd ==> !InUse(t.fds[k])
  {
    hide SysInv, MetaOk, FdOk, Resized, OthersKept, Sought, Room, OldByteNext, Lookup, IsFile, AllOk, DirMap;
    SeekKeeps(s, fd, 5, t);
    var f1 :| Resized(s.m, s.fds[fd], 5, t.m, f1) && t.fds[fd] == f1.(cursor := 5);
    Extendable(s, fd, 5);
    SysMeta(s);
    MetaSized(s.m);
    SeekShowsOld(s.m, s.fds[fd], t.m, f1);
    OthersSame(s.m, t.m, i);
  }

  lemma OthersSame(m: Meta, r: Meta, i: iptr)
    requires OthersKept(m, r, i) && Sized(m)
    ensures MetaOk(r) && Sized(r) && AllOk(r.disk, Live(r)) && AllOk(m.disk, Live(m)) && Names(r) == Names(m)
  {
    hide AllOk, Partition, Tree, DirMap, SameView, Flushed;
  }

  lemma SeekShowsOld(m: Meta, f: FdEntry, r: Meta, f1: FdEntry)
    requires OldByteNext(m) && CanExtend(m, f, 5) && f == FdEntry(FD_WRITE, f.inodeId, EmptyFile(), 0, [])
    requires Resized(m, f, 5, r, f1)
    ensures f1.inode.size == 5 <= |f1.data| && Text(f1) == [0, 0, 0, 0, 0] && IsFile(r, f.inodeId)
    ensures Mapped(InodeAt(r.disk, f.inodeId)) && InData(BlockList(r.disk, InodeAt(r.disk, f.inodeId)))
    ensures Opened(r, f.inodeId, FD_READ).inode.size == 5 <= |Opened(r, f.inodeId, FD_READ).data|
    ensures Opened(r, f.inodeId, FD_READ).data[0] == 7
  {
    hide MetaOk, FdOk, Resized, CanExtend, Stretched, OldByteNext, IsFile, FreeRow;
    var added := StretchedBy(m, f, r, f1, 5);
    NextIs104(m);
    assert added == [104];
    StretchedText(m, f, r, f1, added, 5);
    StretchedOpened(m, f, r, f1, added, 5, FD_READ);
    OldContent(m, f);
    assert ZeroBytes(5) == [0, 0, 0, 0, 0];
  }

  lemma OldContent(m: Meta, f: FdEntry)
    requires OldByteNext(m) && f.inode == EmptyFile()
    ensures Mapped(f.inode) && InData(BlockList(m.disk, f.inode)) && Load(m.disk, f.inode) == []
    ensures InData([104]) && |Content(m.disk, [104])| == BLOCK_SIZE && Content(m.disk, [104])[0] == 7
  {
    OneBlockContent(m.disk, 104);
  }

  lemma OneBlockContent(d: Image, b: iptr)
    requires Shape(d) && DataBlock(b)
    ensures InData([b]) && Content(d, [b]) == Bytes(d, b)
  {
    var none: seq<iptr> := [];
    assert [b][..0] == none && Content(d, none) == [];
  }

  lemma RestHasRoom(s: Sys)
    requires AtRest(s)
    ensures NoneOpen(s.fds, {0}) && |s.fds| == MAX_FD && !InUse(s.fds[0])
  {
  }

  /** Mounted on the old device, and "f" can be made. */
  ghost predicate ReadyForF(s: Sys) {
    && SysInv(s) && AtRest(s) && 0 in Names(s.m) && OldByteNext(s.m)
    && Lookup(Names(s.m), 0, F).None? && CanCreat(s.m, 0, F)
  }

  /** A mounted file system on the old device. */
  method MountOld() returns (fs: FileSystem)
    ensures fresh(fs) && fresh(fs.fdTbl) && fresh(fs.fdBm) && fresh(fs.store) && fresh(fs.store.dev)
            && fresh(fs.store.dev.blocks)
    ensures fresh(fs.store.blockBm) && fresh(fs.store.inodeBm)
    ensures fs.Valid() && ReadyForF(fs.S())
  {
    hide FileSystem.Valid, Store.Ok, SysInv, FileSystem.Dirs, MetaOk, AtRest, Mounted, CanCreat, Lookup, OldByteNext,
         OldDevice, MadeFs;
    var dev := new BlockDevice(OldDevice());
    var store := new Store(dev);
    fs := new FileSystem(store);
    var _, bb, ib := store.CnMkfs();
    FreshReady(bb, ib, fs.M().disk);
    FreshClean(bb, ib, fs.M().disk);
    var _ := fs.CnMount();
    fs.View();
  }

  lemma FreshClean(bb: seq<bv8>, ib: seq<bv8>, d: Image)
    requires MadeFs(OldDevice(), bb, ib, d)
    ensures Shape(d) && d[BLOCKID_SUPER].sb.state == VALID_FS && d[BLOCKID_SUPER].sb.magic == FS_MAGIC
  {
    hide OldDevice;
    FreshImage(OldDevice(), bb, ib, d);
  }

  /** "f" made in the root and opened for writing. */
  method OpenNew(fs: FileSystem) returns (fd: nat, ghost i: iptr)
    requires fs.Valid() && ReadyForF(fs.S())
    modifies fs.fdTbl, fs.fdBm, fs.store, fs.store.dev, fs.store.dev.blocks, fs.store.blockBm, fs.store.inodeBm
    ensures fs.Valid() && JustOpened(fs.S(), fd, i) && fd < MAX_FD
  {
    hide FileSystem.Valid, SysInv, MetaOk, FileSystem.Dirs, FileSystem.Lands, CanCreat, Lookup, OldByteNext, OpenEnds,
         JustOpened, Store.Ok, ReadyForF, AtRest, AllOk, DirMap, NoneOpen, NoDirectory, Sized, Shape, Inflates, Load;
    ghost var s := fs.S();
    ReadyFacts(s);
    fs.View();
    fs.RootPath();
    var dir := fs.CnOpendir(Path(true, []));
    var r := fs.CnOpen(dir, F, FD_WRITE);
    fs.View();
    i := AfterOpen(s, fs.S(), r);
    JustOpenedFd(fs.S(), r, i);
    fd := r;
  }

  lemma ReadyFacts(s: Sys)
    requires ReadyForF(s)
    ensures SysInv(s) && AtRest(s) && 0 in Names(s.m) && OldByteNext(s.m) && Lookup(Names(s.m), 0, F).None?
            && CanCreat(s.m, 0, F)
    ensures |s.fds| == MAX_FD && !InUse(s.fds[0]) && NoDirectory(Names(s.m), 0, F)
  {
    RestHasRoom(s);
  }

  lemma JustOpenedFd(s: Sys, fd: nat, i: iptr)
    requires JustOpened(s, fd, i)
    ensures fd < MAX_FD && fd < |s.fds| && InUse(s.fds[fd]) && s.fds[fd].cursor == 0
    ensures forall n: nat :: n < BLOCK_SIZE ==> Room(s.m, s.fds[fd], n)
  {
    hide MetaOk;
  }

  /** Nothing is open, "f" is file i, and opening it for reading will give the descriptor `shown`, of 5 bytes. */
  ghost predicate Reopenable(s: Sys, i: iptr, shown: FdEntry) {
    && SysInv(s) && IsFile(s.m, i) && 0 in Names(s.m) && i !in Names(s.m)
    && Lookup(Names(s.m), 0, F) == Some(Entry(i, ITYPE_FILE, F))
    && (forall k: nat :: k < |s.fds| ==> !InUse(s.fds[k]))
    && Mapped(InodeAt(s.m.disk, i)) && InData(BlockList(s.m.disk, InodeAt(s.m.disk, i)))
    && shown == Opened(s.m, i, FD_READ) && shown.inode.size == 5 <= |shown.data|
  }

  lemma ReopenableFacts(s: Sys, i: iptr, shown: FdEntry)
    requires Reopenable(s, i, shown)
    ensures SysInv(s) && 0 in Names(s.m) && Lookup(Names(s.m), 0, F) == Some(Entry(i, ITYPE_FILE, F))
            && i !in Names(s.m)
    ensures NoneOpen(s.fds, {i}) && |s.fds| == MAX_FD && !InUse(s.fds[0]) && shown.inode.size == 5 <= |shown.data|
  {
    hide MetaOk, IsFile, Opened;
    NothingOpen(s, i);
  }

  /** "f" opened again for reading, and its text. */
  method ReadAgain(fs: FileSystem, ghost i: iptr, ghost shown: FdEntry) returns (text: seq<byte>)
    requires fs.Valid() && Reopenable(fs.S(), i, shown)
    modifies fs.fdTbl, fs.fdBm, fs.store, fs.store.dev, fs.store.dev.blocks, fs.store.blockBm, fs.store.inodeBm
    ensures shown.inode.size == 5 <= |shown.data| && text == shown.data[..5]
  {
    hide FileSystem.Valid, SysInv, MetaOk, FileSystem.Dirs, FileSystem.Lands, Lookup, OpenEnds, Store.Ok, Reopenable,
         NoneOpen, AllOk, DirMap, NoDirectory, Sized, Shape, Inflates, Load, IsFile;
    ghost var s := fs.S();
    ReopenableFacts(s, i, shown);
    fs.View();
    fs.RootPath();
    var dir := fs.CnOpendir(Path(true, []));
    var fd := fs.CnOpen(dir, F, FD_READ);
    ReadsOpened(s, i, fd, fs.S(), shown);
    text := fs.fdTbl[fd].data[..fs.fdTbl[fd].inode.size];
  }

  lemma NothingOpen(s: Sys, i: iptr)
    requires SysInv(s) && forall k: nat :: k < |s.fds| ==> !InUse(s.fds[k])
    ensures NoneOpen(s.fds, {i}) && |s.fds| == MAX_FD && !InUse(s.fds[0])
  {
    hide MetaOk;
  }

  lemma ReadsOpened(s: Sys, i: iptr, fd: int, t: Sys, shown: FdEntry)
    requires SysInv(s) && Reopenable(s, i, shown) && OpenEnds(s, 0, F, FD_READ, fd, t)
    ensures 0 <= fd < |t.fds| && t.fds[fd] == shown
  {
    hide MetaOk, FdsOk, Lookup, FirstFree, AllOk, DirMap;
  }

  ghost predicate StartsWith7(shown: FdEntry) {
    5 <= |shown.data| && shown.data[0] == 7
  }

  /** After the seek: five zeros in descriptor fd's cache, while an open of file i would show the 7. */
  ghost predicate Sought5(s: Sys, fd: nat, i: iptr, shown: FdEntry) {
    && SysInv(s) && fd < MAX_FD && fd < |s.fds|
    && s.fds[fd].inode.size == 5 <= |s.fds[fd].data| && Text(s.fds[fd]) == [0, 0, 0, 0, 0]
    && IsFile(s.m, i) && 0 in Names(s.m) && i !in Names(s.m)
    && Lookup(Names(s.m), 0, F) == Some(Entry(i, ITYPE_FILE, F))
    && (forall k: nat :: k < |s.fds| && k != fd ==> !InUse(s.fds[k]))
    && Mapped(InodeAt(s.m.disk, i)) && InData(BlockList(s.m.disk, InodeAt(s.m.disk, i)))
    && shown == Opened(s.m, i, FD_READ) && shown.inode.size == 5 && StartsWith7(shown)
  }

  lemma SeekDone(s: Sys, fd: nat, i: iptr, t: Sys) returns (shown: FdEntry)
    requires JustOpened(s, fd, i) && SeekStep(s, fd, 5, t) && SysInv(t) && fd < MAX_FD
    ensures Sought5(t, fd, i, shown)
  {
    hide SysInv, MetaOk, JustOpened, SeekStep, Lookup, IsFile, Opened, AllOk, DirMap;
    AfterSeek(s, fd, i, t);
    FileInflates(t.m, i);
    SysMeta(t);
    MetaSized(t.m);
    shown := Opened(t.m, i, FD_READ);
  }

  lemma CloseDone(t: Sys, fd: nat, i: iptr, shown: FdEntry, u: Sys)
    requires Sought5(t, fd, i, shown) && CloseStep(t, fd, u) && SysInv(u)
    ensures Reopenable(u, i, shown) && StartsWith7(shown)
  {
    hide SysInv, MetaOk, Lookup, IsFile, Opened, AllOk, DirMap, StartsWith7;
    assert u.m == t.m;
    FileInflates(u.m, i);
    SysMeta(u);
    MetaSized(u.m);
    SevenLong(shown);
  }

  lemma SevenLong(shown: FdEntry)
    requires StartsWith7(shown)
    ensures 5 <= |shown.data|
  {
  }

  lemma SoughtText(t: Sys, fd: nat, i: iptr, shown: FdEntry)
    requires Sought5(t, fd, i, shown)
    ensures fd < MAX_FD && fd < |t.fds| && t.fds[fd].inode.size <= |t.fds[fd].data|
    ensures t.fds[fd].data[..t.fds[fd].inode.size] == [0, 0, 0, 0, 0]
  {
    hide SysInv, MetaOk, Lookup, IsFile, Opened;
  }

  /** "f" grown to 5 bytes by a seek, and what its own cache then shows. */
  method Grow(fs: FileSystem, fd: nat, ghost i: iptr) returns (text: seq<byte>, ghost shown: FdEntry)
    requires fs.Valid() && JustOpened(fs.S(), fd, i) && fd < MAX_FD
    modifies fs.fdTbl, fs.store, fs.store.dev, fs.store.dev.blocks, fs.store.blockBm, fs.store.inodeBm
    ensures fs.Valid() && text == [0, 0, 0, 0, 0] && Sought5(fs.S(), fd, i, shown)
  {
    hide FileSystem.Valid, FileSystem.Dirs, SysInv, MetaOk, JustOpened, Store.Ok, SeekStep, Sought, Room, Sought5,
         AllOk, DirMap;
    ghost var s1 := fs.S();
    JustOpenedFd(s1, fd, i);
    var _ := fs.CnSeek(fd, 5);
    fs.View();
    shown := SeekDone(s1, fd, i, fs.S());
    SoughtText(fs.S(), fd, i, shown);
    text := fs.fdTbl[fd].data[..fs.fdTbl[fd].inode.size];
  }

  method CloseF(fs: FileSystem, fd: nat, ghost i: iptr, ghost shown: FdEntry)
    requires fs.Valid() && Sought5(fs.S(), fd, i, shown)
    modifies fs.fdTbl, fs.fdBm
    ensures fs.Valid() && Reopenable(fs.S(), i, shown) && StartsWith7(shown)
  {
    hide FileSystem.Valid, FileSystem.Dirs, SysInv, MetaOk, Store.Ok, CloseStep, Sought5, Reopenable, AllOk, DirMap;
    ghost var t := fs.S();
    SoughtText(t, fd, i, shown);
    var _ := fs.CnClose(fd);
    fs.View();
    CloseDone(t, fd, i, shown, fs.S());
  }

  /** Make "f" on the old device, seek to 5, close, open again: through its own cache the file is five zeros, afterwards
      it starts with the 7 that was in block 104 before the volume was made. */
  method SeekExposesOldByte() returns (before: seq<byte>, after: seq<byte>)
    ensures before == [0, 0, 0, 0, 0] && |after| == 5 && after[0] == 7
  {
    hide FileSystem.Valid, ReadyForF, JustOpened, Reopenable, Sought5;
    var fs := MountOld();
    ghost var i, shown;
    var fd;
    fd, i := OpenNew(fs);
    before, shown := Grow(fs, fd, i);
    CloseF(fs, fd, i, shown);
    after := ReadAgain(fs, i, shown);
  }

  // ---- a walk through a file ----

  const X: Name := [120]

  /** The bytes of a record that says: "x" is the directory with inode 0. */
  const FORGED: seq<byte> := [0, 0, 0, 0, 12, 0, 1, 1, 120]

  /** A search for "x" in a file that starts with these bytes finds the root. */
  lemma ForgedIsFound(data: seq<byte>)
    requires |data| >= 9 && data[..9] == FORGED
    ensures Search(data, 0, 9, X) == Hit(0)
  {
    assert data[0] == data[..9][0] && data[1] == data[..9][1] && data[2] == data[..9][2] && data[3] == data[..9][3];
    assert data[6] == data[..9][6] && data[8] == data[..9][8];
    assert data[8..9] == X;
    NoNul(X);
  }

  /** In a file of zeros a search never ends: every record has length 0. */
  lemma ZerosNeverEnd(n: nat, size: nat, name: Name)
    requires size > 0 && name != []
    ensures Search(ZeroBytes(n), 0, size, name) == Unreadable
  {
  }

  /** "f" is a file of the root, "f" alone leads to it, and "f/x" leads to the root. */
  ghost predicate LeadsThrough(s: Sys, i: iptr) {
    && SysInv(s) && s.cwd == 0 && 0 in Names(s.m) && i !in Names(s.m) && IsFile(s.m, i)
    && Reach(s.m.disk, 0, [F]) == At(i, false) && Reach(s.m.disk, 0, [F, X]) == At(0, false)
    && !OnlyDirs(Names(s.m), 0, [F]) && !OnlyDirs(Names(s.m), 0, [F, X])
  }

  /** A file that holds the forged record. */
  ghost predicate Holding(m: Meta, i: iptr) {
    && IsFile(m, i) && Sized(m) && AllOk(m.disk, Live(m)) && 0 in Names(m) && i !in Names(m)
    && Lookup(Names(m), 0, F) == Some(Entry(i, ITYPE_FILE, F)) && Inflates(m.disk, i)
      && SearchIn(m.disk, i, X) == Hit(0)
  }

  lemma WrittenForged(s: Sys, fd: nat, i: iptr, t: Sys)
    requires JustOpened(s, fd, i) && WriteStep(s, fd, FORGED, t) && SysInv(t)
    ensures Holding(t.m, i) && t.cwd == s.cwd
  {
    hide SysInv, MetaOk, FdOk, Resized, OthersKept, Written, Room, OldByteNext, Lookup, IsFile, AllOk, DirMap,
         PutThrough, Coherent;
    WriteKeeps(s, fd, FORGED, t);
    SysMeta(s);
    MetaSized(s.m);
    OthersSame(s.m, t.m, i);
    WrittenFile(s.m, s.fds[fd], t.m, t.fds[fd]);
  }

  lemma WrittenFile(m: Meta, f: FdEntry, r: Meta, f': FdEntry)
    requires Written(m, f, r, f', FORGED) && f == FdEntry(FD_WRITE, f.inodeId, EmptyFile(), 0, []) && MetaOk(r)
    ensures IsFile(r, f.inodeId) && Inflates(r.disk, f.inodeId) && SearchIn(r.disk, f.inodeId, X) == Hit(0)
  {
    hide MetaOk, Load, BlockList, InData, Search;
    assert Text(f') == FORGED;
    SizeIs9(m, f, r, f');
    ForgedIsFound(f'.data);
  }

  lemma SizeIs9(m: Meta, f: FdEntry, r: Meta, f': FdEntry)
    requires Written(m, f, r, f', FORGED) && f == FdEntry(FD_WRITE, f.inodeId, EmptyFile(), 0, [])
    ensures f'.inode.size == 9 <= |f'.data| && f'.data[..9] == FORGED
  {
    hide Load, BlockList, InData, FdOk, Coherent;
    var none: seq<byte> := [];
    assert Text(f)[..0] == none;
    assert Text(f') == FORGED;
    assert |Text(f')| == f'.inode.size;
  }

  lemma HoldingLeads(m: Meta, i: iptr)
    requires Holding(m, i) && MetaOk(m)
    ensures Reach(m.disk, 0, [F]) == At(i, false) && Reach(m.disk, 0, [F, X]) == At(0, false)
    ensures !OnlyDirs(Names(m), 0, [F]) && !OnlyDirs(Names(m), 0, [F, X])
  {
    hide MetaOk, AllOk, DirMap, Lookup, SearchIn, Inflates, IsFile, Reach, OnlyDirs;
    ThroughAndBack(m, 0, F, i, X);
  }

  /** A file f of p in whose bytes x leads back to p. */
  lemma ThroughAndBack(m: Meta, p: iptr, f: Name, i: iptr, x: Name)
    requires MetaOk(m) && Sized(m) && AllOk(m.disk, Live(m)) && p in Names(m) && i !in Names(m) && Inflates(m.disk, i)
    requires Lookup(Names(m), p, f) == Some(Entry(i, ITYPE_FILE, f)) && SearchIn(m.disk, i, x) == Hit(p)
    ensures Reach(m.disk, p, [f]) == At(i, false) && Reach(m.disk, p, [f, x]) == At(p, false)
    ensures !OnlyDirs(Names(m), p, [f]) && !OnlyDirs(Names(m), p, [f, x])
  {
    hide MetaOk, AllOk, DirMap, Lookup, SearchIn, Inflates;
    var one, two, rest, none: seq<Name> := [f], [f, x], [x], [];
    assert one[1..] == none && two[1..] == rest && rest[1..] == none;
    SearchIsLookup(m, p, f);
    DirInflates(m, p);
    assert Follow(m.disk, i, rest) == Follow(m.disk, p, none) == At(p, false);
    assert Follow(m.disk, i, none) == At(i, false);
  }

  /** "f" made in the root of a new volume, with the forged record written into it. */
  method ForgedFile() returns (fs: FileSystem, ghost i: iptr)
    ensures fresh(fs) && fs.Valid() && LeadsThrough(fs.S(), i)
  {
    hide FileSystem.Valid, FileSystem.Dirs, FileSystem.Lands, ReadyForF, JustOpened, SysInv, MetaOk, Store.Ok,
         WriteStep, Written, Holding, Room, AllOk, DirMap, OnlyDirs, Reach, IsFile;
    fs := MountOld();
    ReadyFacts(fs.S());
    assert fs.Cwd() == 0;
    var fd;
    fd, i := OpenNew(fs);
    ghost var s := fs.S();
    JustOpenedFd(s, fd, i);
    var _ := fs.CnWrite(fd, FORGED);
    fs.View();
    WrittenForged(s, fd, i, fs.S());
    HoldingFacts(fs.S().m, i);
    HoldingLeads(fs.S().m, i);
  }

  lemma HoldingFacts(m: Meta, i: iptr)
    requires Holding(m, i)
    ensures IsFile(m, i) && Sized(m) && AllOk(m.disk, Live(m)) && 0 in Names(m) && i !in Names(m) && MetaOk(m)
  {
    hide MetaOk, AllOk, DirMap;
  }

  /** cd to "f" makes the file the current directory, and the system is not in order any more. */
  method CdOnFile() returns (rc: int, fs: FileSystem)
    ensures rc == 0 && !fs.Valid()
  {
    hide FileSystem.Valid, FileSystem.Dirs, LeadsThrough;
    ghost var i;
    fs, i := ForgedFile();
    LandsOnF(fs, i);
    rc := fs.CnCd(Path(false, [F]));
  }

  /** cd to "f/x" goes through the bytes of the file and ends in the root, in good order, although "f" is no directory.
      */
  method CdThroughFile() returns (rc: int, fs: FileSystem)
    ensures rc == 0 && fs.Valid() && fs.Cwd() == INODE_ROOTDIR
  {
    hide FileSystem.Valid, FileSystem.Dirs, LeadsThrough, CdCode;
    ghost var i;
    fs, i := ForgedFile();
    LandsOnF(fs, i);
    ghost var s := fs.S();
    rc := fs.CnCd(Path(false, [F, X]));
    CdToRoot(s, i, fs.S());
  }

  lemma LandsOnF(fs: FileSystem, i: iptr)
    requires fs.Valid() && LeadsThrough(fs.S(), i)
    ensures fs.Lands(Path(false, [F])) == At(i, false) && fs.Lands(Path(false, [F, X])) == At(0, false)
    ensures i !in fs.Dirs() && 0 in fs.Dirs()
  {
    fs.View();
    hide FileSystem.Valid, SysInv, MetaOk, AllOk, DirMap, Reach, OnlyDirs, IsFile;
  }

  lemma CdToRoot(s: Sys, i: iptr, t: Sys)
    requires LeadsThrough(s, i) && CdCode(s, Path(false, [F, X]), t)
    ensures t.cwd == 0
  {
    hide SysInv, MetaOk, AllOk, DirMap, Reach, OnlyDirs, IsFile;
  }

  /** Opening "." of a new volume succeeds: the root directory is open as a file, and the system is not in order any
      more. */
  method OpenRoot() returns (fd: int, fs: FileSystem)
    ensures 0 <= fd && !fs.Valid()
  {
    hide FileSystem.Valid, SysInv, MetaOk, FileSystem.Dirs, FileSystem.Lands, Lookup, OpenEnds, Store.Ok, ReadyForF,
         AtRest, NoneOpen, AllOk, DirMap, Sized, Shape, Inflates, Load, NoDirectory;
    fs := MountOld();
    ghost var s := fs.S();
    ReadyFacts(s);
    RestHasRoom(s);
    fs.View();
    fs.RootPath();
    var dir := fs.CnOpendir(Path(true, []));
    DotIsDirectory(fs.Dirs(), 0);
    fd := fs.CnOpen(dir, DOT, FD_READ);
    OpenedOne(s, fd, fs.S());
  }

  lemma DotIsDirectory(nodes: Nodes, d: iptr)
    requires d in nodes
    ensures !NoDirectory(nodes, d, DOT) && Lookup(nodes, d, DOT) == Some(Entry(d, ITYPE_DIR, DOT))
  {
    FindInAll(nodes, d, DOT);
  }

  lemma OpenedOne(s: Sys, fd: int, t: Sys)
    requires SysInv(s) && 0 in Names(s.m) && Lookup(Names(s.m), 0, DOT).Some? && OpenEnds(s, 0, DOT, FD_READ, fd, t)
    ensures 0 <= fd
  {
    hide SysInv, MetaOk, AllOk, DirMap, Lookup, OpenCode;
  }
}
