/** What each call amounts to, on values: its outcome in terms of the tree, the descriptors and the volume, and
    the lemmas that lead there from the steps of the code. */
module Calls {
  import opened Params
  import opened Bitmap
  import opened Layout
  import opened BlockMap
  import opened Allocator
  import opened Growth
  import opened Dirent
  import opened Namespace
  import opened Volume
  import opened VolumeOps
  import opened OpenFile
  import opened FileOps
  import opened Coherence
  import opened DirOps
  import opened MetaOps
  import opened Steps
  import opened Paths
  import opened Walks
  import opened TreeWalk
  import opened System
  import opened Format
  import opened Runs

  // ---- handles on directories ----

  /** Entries of a handle that shows its directory; a name is found by searching them. */
  lemma ShownLookup(m: Meta, p: iptr, inode: Inode, data: seq<byte>, name: Name)
    requires MetaOk(m) && p in Names(m) && p < INODE_COUNT && inode == InodeAt(m.disk, p)
    requires DataBlock(DirBlock(inode)) && data == Bytes(m.disk, DirBlock(inode))
    ensures inode.size <= |data| && Chain(data, 0, inode.size)
    ensures Find(Parse(data, 0, inode.size), name) == Lookup(Names(m), p, name)
  {
    hide MetaOk, AllOk, DirMap, Chain, Parse, Find;
    ShowsEntries(m, p, inode, data);
  }

  /** The records of a directory are "." and ".." and its children. */
  lemma EntriesNamed(m: Meta, p: iptr)
    requires MetaOk(m) && p in Names(m)
    ensures p < INODE_COUNT && IsDir(m.disk, p) && EntriesOf(m.disk, p) == AllEntries(Names(m), p)
  {
    InTree(m, p);
    EntriesAre(m.disk, p);
  }

  /** 24 bytes are "." and ".." alone. */
  lemma EmptyIs24(m: Meta, p: iptr)
    requires MetaOk(m) && p in Names(m)
    ensures p < INODE_COUNT && (InodeAt(m.disk, p).size == 24 <==> Names(m)[p].children == [])
  {
    hide Partition, Tree, Flushed, AllOk;
    InTree(m, p);
    EntriesAre(m.disk, p);
    SizeOfAll(p, NodeOf(m.disk, p));
  }

  lemma NamesUnique(nodes: Nodes, files: set<iptr>, d: iptr)
    requires Tree(nodes, files) && d in nodes
    ensures UniqueNames(AllEntries(nodes, d))
  {
    var home, depth :| TreeBy(nodes, files, home, depth);
    assert DirOk(nodes, files, home, d);
    forall e | e in nodes[d].children ensures e.name != DOT && e.name != DOTDOT {
      assert EntryOk(nodes, files, home, d, e);
    }
  }

  lemma LookupIs(nodes: Nodes, d: iptr, name: Name)
    requires d in nodes
    ensures Lookup(nodes, d, name) == Find(AllEntries(nodes, d), name)
  {
  }

  // ---- path walking and cd ----

  /** The components that cnopendir works through: "." for the empty path. */
  function Tokens(path: Path): seq<Name> {
    if path == Path(false, []) then [DOT] else path.comps
  }

  lemma TokensReach(m: Meta, cwd: iptr, path: Path)
    requires MetaOk(m) && Sized(m) && AllOk(m.disk, Live(m)) && cwd in Names(m)
    ensures Reach(m.disk, Start(cwd, path), Tokens(path)) == Reach(m.disk, Start(cwd, path), path.comps)
  {
    hide MetaOk, AllOk, DirMap, Reach, Follow;
    if path == Path(false, []) { ReachDot(m, cwd); }
  }

  lemma CdMoves(s: Sys, path: Path, t: Sys)
    requires SysInv(s) && CdCode(s, path, t)
    ensures SysInv(t) <==> t.cwd in Names(s.m)
  {
    CdKeepsWhen(s, path, t);
  }

  lemma SingleStep(s: Sys, name: Name, t: Sys)
    requires SysInv(s) && CdCode(s, Path(false, [name]), t) && Child(Names(s.m), s.cwd, name).Some?
    ensures t == s.(cwd := Child(Names(s.m), s.cwd, name).value)
  {
    CdFacts(s);
    hide MetaOk, AllOk, DirMap, Child, FdsOk, Reach, Follow;
    ReachOne(s.m, s.cwd, name);
  }

  // ---- the recursive listing ----

  lemma Measures(nodes: Nodes, files: set<iptr>) returns (home: map<iptr, iptr>, depth: map<iptr, nat>, bound: nat)
    requires Tree(nodes, files)
    ensures TreeBy(nodes, files, home, depth) && Bounded(nodes, depth, bound)
    ensures forall d :: d in nodes ==> d in depth
  {
    home, depth :| TreeBy(nodes, files, home, depth);
    bound := TreeBounded(nodes, files, home, depth);
  }

  lemma BoundedRanked(nodes: Nodes, depth: map<iptr, nat>, bound: nat)
    requires Bounded(nodes, depth, bound)
    ensures Ranked(nodes, depth)
  {
  }

  lemma DownFacts(nodes: Nodes, files: set<iptr>, home: map<iptr, iptr>, depth: map<iptr, nat>, bound: nat, d: iptr,
          e: Entry)
    requires TreeBy(nodes, files, home, depth) && Bounded(nodes, depth, bound) && Lists(nodes, d, e)
             && e.kind == ITYPE_DIR
    ensures d in depth && e.inode in depth && e.inode in nodes && depth[e.inode] == depth[d] + 1 <= bound
    ensures Child(nodes, d, e.name) == Some(e.inode)
    ensures Child(nodes, e.inode, DOT) == Some(e.inode) && Child(nodes, e.inode, DOTDOT) == Some(d)
  {
    assert Tree(nodes, files);
    ChildDown(nodes, files, d, e);
    ChildDeeper(nodes, files, home, depth, d, e);
    ChildUp(nodes, e.inode);
    DotIsChild(nodes, e.inode);
  }

  lemma StartOfListing(nodes: Nodes, files: set<iptr>, home: map<iptr, iptr>, depth: map<iptr, nat>, bound: nat,
          d: iptr)
    requires TreeBy(nodes, files, home, depth) && Bounded(nodes, depth, bound) && d in nodes
    ensures Proper(AllEntries(nodes, d)) == nodes[d].children && EntriesIn(nodes, d, nodes[d].children)
    ensures [] + Listing(nodes, depth, bound, d, nodes[d].children) ==
            Listing(nodes, depth, bound, d, nodes[d].children)
  {
    ProperOfAll(nodes, files, home, depth, d);
  }

  lemma JoinParts(visited: seq<Entry>, part: seq<Entry>, rest: seq<Entry>)
    ensures visited + (part + rest) == visited + part + rest
  {
  }

  lemma EndOfListing(nodes: Nodes, depth: map<iptr, nat>, bound: nat, d: iptr)
    requires Bounded(nodes, depth, bound) && d in nodes
    ensures Proper([]) == [] && EntriesIn(nodes, d, []) && Listing(nodes, depth, bound, d, []) == []
  {
  }

  // ---- creat ----

  /** r is m with an empty file of that name made in p. */
  ghost predicate NewFile(m: Meta, r: Meta, p: iptr, name: Name) {
    exists i :: FileMade(m, r, p, Entry(i, ITYPE_FILE, name))
  }

  /** cncreat of a name in directory p. */
  ghost predicate CreatEnds(s: Sys, p: iptr, name: Name, rc: int, t: Sys)
    requires SysInv(s)
  {
    && p in Names(s.m) && CreatStep(s, p, name, t)
    && rc == (if Lookup(Names(s.m), p, name).Some? then -1 else 0)
    && (rc == 0 ==> NewFile(s.m, t.m, p, name))
  }

  lemma CanCreatFacts(m: Meta, p: iptr, name: Name)
    requires CanCreat(m, p, name)
    ensures Counted(m) && m.super.freeInodes > 0 && CanAppend(m, p, name) && p in Live(m)
  {
    hide AllOk, Partition, Tree, DirMap;
    InTree(m, p);
  }

  /** A reservation of an inode leaves the parent as it is. */
  lemma Reserving(m: Meta, p: iptr, name: Name)
    requires Counted(m) && m.super.freeInodes > 0 && CanAppend(m, p, name)
    ensures var r := Allocator.ReserveInode(m);
            && Sized(r.0) && SameData(m.disk, r.0.disk) && CanAppend(r.0, p, name) && r.1 < INODE_COUNT
            && InodeAt(r.0.disk, p) == InodeAt(m.disk, p) && r.1 !in Live(m)
  {
    ReserveInodeOk(m);
    SameDataSameInodes(m.disk, Allocator.ReserveInode(m).0.disk);
  }

  lemma AppendShape(m: Meta, p: iptr, e: Entry)
    requires CanAppend(m, p, e.name)
    ensures InodeAt(m.disk, p).size + EntryLen(|e.name|) <= BLOCK_SIZE
    ensures Shape(PutInode(m.disk, p, InodeAt(m.disk, p).(size := InodeAt(m.disk, p).size + EntryLen(|e.name|))))
    ensures Sized(AppendEntry(m, p, e)) && InodeAt(AppendEntry(m, p, e).disk, p) ==
            InodeAt(m.disk, p).(size := InodeAt(m.disk, p).size + EntryLen(|e.name|))
  {
    InodeTableIsMap(m.disk, p, InodeAt(m.disk, p).(size := InodeAt(m.disk, p).size + EntryLen(|e.name|)));
  }

  lemma CreatRefused(s: Sys, p: iptr, name: Name)
    requires SysInv(s) && p in Names(s.m) && Lookup(Names(s.m), p, name).Some?
    ensures CreatEnds(s, p, name, -1, s)
  {
  }

  lemma CreatDone(s: Sys, p: iptr, name: Name, m1: Meta, i: iptr, t: Sys)
    requires SysInv(s) && p in Names(s.m) && Lookup(Names(s.m), p, name).None? && CanCreat(s.m, p, name)
    requires CreatSteps(s.m, p, name, m1, i, t.m) && t == s.(m := t.m)
    ensures SysInv(t) && CreatEnds(s, p, name, 0, t)
  {
    hide MetaOk, AllOk, DirMap, FdsOk, CreatSteps, FileMade, Lookup, CanCreat;
    CreatMakes(s.m, p, name, m1, i, t.m);
    CreatKeeps(s, p, name, t);
  }

  // ---- mkdir ----

  /** r is m with a directory of that name made in p. */
  ghost predicate NewDir(m: Meta, r: Meta, p: iptr, name: Name) {
    exists i, nb :: DirMade(m, r, p, Entry(i, ITYPE_DIR, name), nb)
  }

  /** cnmkdir of a path. */
  ghost predicate MkdirEnds(s: Sys, path: Path, rc: int, t: Sys)
    requires SysInv(s)
  {
    && path.comps != [] && MkdirStep(s, path, t)
    && var p, name := MkdirWalk(Names(s.m), s.cwd, Via(path)), Last(path);
       && rc == (if Lookup(Names(s.m), p, name).Some? then -1 else 0)
       && (rc == 0 ==> NewDir(s.m, t.m, p, name))
  }

  lemma CanMkdirFacts(m: Meta, p: iptr, name: Name)
    requires CanMkdir(m, p, name)
    ensures Counted(m) && m.super.freeInodes > 0 && m.super.freeBlocks > 0 && CanAppend(m, p, name) && p in Live(m)
  {
    hide AllOk, Partition, Tree, DirMap;
    InTree(m, p);
  }

  lemma AppendCounted(m1: Meta, p: iptr, e: Entry)
    requires Counted(m1) && CanAppend(m1, p, e.name)
    ensures Counted(AppendEntry(m1, p, e)) && AppendEntry(m1, p, e).super == m1.super
  {
    AppendShape(m1, p, e);
  }

  /** Room for the new directory's block is left after the parent was written. */
  lemma ReservingBlock(m: Meta, m1: Meta, p: iptr, e: Entry)
    requires Counted(m) && m.super.freeInodes > 0 && m1 == Allocator.ReserveInode(m).0 && m.super.freeBlocks > 0
    requires CanAppend(m1, p, e.name) && Sized(AppendEntry(m1, p, e))
    ensures var r := Allocator.ReserveBlock(AppendEntry(m1, p, e)); Sized(r.0) && DataBlock(r.1)
  {
    ReserveInodeOk(m);
    hide Allocator.ReserveInode;
    AppendCounted(m1, p, e);
    hide AppendEntry, CanAppend;
    ReserveBlockOk(AppendEntry(m1, p, e));
  }

  lemma MkdirRefused(s: Sys, path: Path)
    requires SysInv(s) && path.comps != [] && MkdirOnlyDirs(Names(s.m), s.cwd, Via(path))
    requires Lookup(Names(s.m), MkdirWalk(Names(s.m), s.cwd, Via(path)), Last(path)).Some?
    ensures MkdirEnds(s, path, -1, s)
  {
    hide MetaOk, AllOk, DirMap, FdsOk, Lookup, MkdirWalk, MkdirOnlyDirs;
  }

  lemma MkdirDone(s: Sys, path: Path, m1: Meta, i: iptr, m3: Meta, nb: iptr, t: Sys)
    requires SysInv(s) && path.comps != [] && MkdirOnlyDirs(Names(s.m), s.cwd, Via(path)) && t == s.(m := t.m)
    requires var p, name := MkdirWalk(Names(s.m), s.cwd, Via(path)), Last(path);
             && Lookup(Names(s.m), p, name).None? && CanMkdir(s.m, p, name)
             && MkdirSteps(s.m, p, name, m1, i, m3, nb, t.m)
    ensures SysInv(t) && MkdirEnds(s, path, 0, t)
  {
    hide AllOk, DirMap, FdsOk, Partition, Tree, Flushed, MkdirSteps, DirMade, Lookup, CanMkdir, MkdirWalk,
         MkdirOnlyDirs;
    var p, name := MkdirWalk(Names(s.m), s.cwd, Via(path)), Last(path);
    MkdirMakes(s.m, p, name, m1, i, m3, nb, t.m);
    MkdirKeeps(s, path, t);
  }

  // ---- rmdir ----

  /** cnrmdir of a name. */
  ghost predicate RmdirEnds(s: Sys, name: Name, rc: int, t: Sys)
    requires SysInv(s)
  {
    && RmdirStep(s, name, t)
    && match Lookup(Names(s.m), s.cwd, name)
       case None => rc == -1
       case Some(e) =>
         && rc == (if Names(s.m)[e.inode].children == [] then 0 else -1)
         && (rc == 0 ==> DirGone(s.m, t.m, s.cwd, e))
  }

  /** m with block b and inode i given back. */
  function Freed(m: Meta, b: nat, i: nat): Meta
    requires Sized(m) && DataBlock(b) && i < INODE_COUNT
  {
    Allocator.ReleaseInode(Allocator.ReleaseBlock(m, b), i)
  }

  lemma FreedSized(m: Meta, b: nat, i: nat)
    requires Sized(m) && DataBlock(b) && i < INODE_COUNT
    ensures Sized(Allocator.ReleaseBlock(m, b)) && Sized(Allocator.ReleaseInode(Allocator.ReleaseBlock(m, b), i))
    ensures Freed(m, b, i) == Allocator.ReleaseInode(Allocator.ReleaseBlock(m, b), i)
  {
  }

  lemma FreedDirty(m: Meta, b: nat, i: nat)
    requires Sized(m) && DataBlock(b) && i < INODE_COUNT && m.super.state == ERROR_FS
    ensures Dirty(Freed(m, b, i).disk)
  {
    FreedSized(m, b, i);
  }

  /** The records of a list without one name, packed into a zeroed block. */
  ghost predicate Copied(es: seq<Entry>, name: Name, data: seq<byte>, size: nat) {
    var kept := Without(es, name);
    && (forall x :: x in kept ==> |x.name| <= 255) && TotalLen(kept) <= BLOCK_SIZE
    && data == Pack(kept) && size == TotalLen(kept)
  }

  /** Where the copy stands: `passed` has been read and copied without the name, `rest` is still to come, and the
      target was given back when it came by. */
  ghost predicate CopyState(m: Meta, all: seq<Entry>, passed: seq<Entry>, rest: seq<Entry>, name: Name, e: Entry,
                            released: bool, data: seq<byte>, size: nat, now: Meta) {
    && all == passed + rest && TotalLen(all) <= BLOCK_SIZE && UniqueNames(rest)
    && Find(rest, name) == (if released then None else Some(e))
    && Copied(passed, name, data, size)
    && Sized(m) && e.inode < INODE_COUNT && DataBlock(DirBlock(InodeAt(m.disk, e.inode)))
    && (released ==> InodeAt(m.disk, e.inode).size == 24)
    && now == if released then Freed(m, DirBlock(InodeAt(m.disk, e.inode)), e.inode) else m
  }

  lemma RestNames(data: seq<byte>, index: nat, size: nat)
    requires size <= |data| && Chain(data, index, size)
    ensures forall x :: x in Parse(data, index, size) ==> ValidName(x.name)
  {
    ChainLength(data, index, size);
  }

  lemma {:induction false} TotalLenConcat(a: seq<Entry>, b: seq<Entry>)
    ensures TotalLen(a + b) == TotalLen(a) + TotalLen(b)
  {
    if a == [] {
      assert a + b == b;
    } else {
      TotalLenConcat(a[1..], b);
      assert (a + b)[1..] == a[1..] + b;
    }
  }

  lemma {:induction false} WithoutShorter(es: seq<Entry>, name: Name)
    ensures TotalLen(Without(es, name)) <= TotalLen(es)
  {
    if es != [] {
      WithoutShorter(es[1..], name);
      var w := Without(es[1..], name);
      assert ([es[0]] + w)[1..] == w;
    }
  }

  /** What the search sees of the next record. */
  lemma NextName(x: Entry, rest: seq<Entry>, name: Name)
    requires UniqueNames([x] + rest)
    ensures UniqueNames(rest)
    ensures if x.name == name then Find([x] + rest, name) == Some(x) && Find(rest, name).None?
            else Find([x] + rest, name) == Find(rest, name)
  {
    var all := [x] + rest;
    assert all[1..] == rest && all[0] == x;
    UniqueHead(all);
  }

  lemma CopyFits(passed: seq<Entry>, x: Entry, rest: seq<Entry>, name: Name)
    requires TotalLen(passed + ([x] + rest)) <= BLOCK_SIZE
    ensures TotalLen(Without(passed, name)) + EntryLen(|x.name|) <= BLOCK_SIZE
  {
    hide Without;
    TotalLenConcat(passed, [x] + rest);
    WithoutShorter(passed, name);
    assert ([x] + rest)[1..] == rest;
  }

  /** The named record is left out. */
  lemma CopySkips(passed: seq<Entry>, x: Entry, name: Name, data: seq<byte>, size: nat)
    requires Copied(passed, name, data, size) && x.name == name
    ensures Copied(passed + [x], name, data, size)
  {
    hide Without, Pack;
    WithoutSnoc(passed, x, name);
    assert Without(passed, name) + [] == Without(passed, name);
  }

  /** Any other record is appended to the block. */
  lemma CopyKeeps(passed: seq<Entry>, x: Entry, rest: seq<Entry>, name: Name, data: seq<byte>, size: nat)
    requires Copied(passed, name, data, size) && x.name != name && ValidName(x.name)
    requires TotalLen(passed + ([x] + rest)) <= BLOCK_SIZE
    ensures size + EntryLen(|x.name|) <= BLOCK_SIZE == |data|
    ensures Copied(passed + [x], name, PutRecord(data, size, x), size + EntryLen(|x.name|))
  {
    hide Without, Pack, TotalLen, PutRecord;
    WithoutSnoc(passed, x, name);
    CopyFits(passed, x, rest, name);
    PackSnoc(Without(passed, name), x);
  }

  lemma StartOfCopy(m: Meta, all: seq<Entry>, name: Name, e: Entry)
    requires TotalLen(all) <= BLOCK_SIZE && UniqueNames(all) && Find(all, name) == Some(e)
    requires Sized(m) && e.inode < INODE_COUNT && DataBlock(DirBlock(InodeAt(m.disk, e.inode)))
    ensures CopyState(m, all, [], all, name, e, false, ZeroBytes(BLOCK_SIZE), 0, m)
  {
    assert Without([], name) == [];
    assert all == [] + all;
  }

  /** One more record: the named one is the target, seen for the first and only time; any other is appended. */
  lemma CopyRound(m: Meta, all: seq<Entry>, passed: seq<Entry>, x: Entry, rest: seq<Entry>, name: Name, e: Entry,
                  released: bool, data: seq<byte>, size: nat, now: Meta)
    requires CopyState(m, all, passed, [x] + rest, name, e, released, data, size, now) && ValidName(x.name)
    ensures x.name == name ==> x == e && !released && now == m && e.inode < INODE_COUNT && Sized(m)
    ensures x.name == name ==> DataBlock(DirBlock(InodeAt(m.disk, e.inode)))
    ensures x.name == name && InodeAt(m.disk, e.inode).size == 24 ==>
              CopyState(m, all, passed + [x], rest, name, e, true, data, size,
                Freed(m, DirBlock(InodeAt(m.disk, e.inode)), e.inode))
    ensures x.name != name ==>
              && size + EntryLen(|x.name|) <= BLOCK_SIZE == |data|
              && CopyState(m, all, passed + [x], rest, name, e, released, PutRecord(data, size, x),
                size + EntryLen(|x.name|), now)
  {
    hide UniqueNames, Find, Copied, TotalLen, Freed, PutRecord;
    NextName(x, rest, name);
    assert all == (passed + [x]) + rest;
    if x.name == name {
      CopySkips(passed, x, name, data, size);
    } else {
      CopyKeeps(passed, x, rest, name, data, size);
    }
  }

  lemma CopyKnows(m: Meta, all: seq<Entry>, passed: seq<Entry>, rest: seq<Entry>, name: Name, e: Entry,
                  released: bool, data: seq<byte>, size: nat, now: Meta)
    requires CopyState(m, all, passed, rest, name, e, released, data, size, now)
    ensures Sized(m) && e.inode < INODE_COUNT
  {
  }

  lemma EndOfCopy(m: Meta, all: seq<Entry>, passed: seq<Entry>, name: Name, e: Entry, released: bool, data: seq<byte>,
          size: nat, now: Meta)
    requires CopyState(m, all, passed, [], name, e, released, data, size, now)
    ensures InodeAt(m.disk, e.inode).size == 24 && Copied(all, name, data, size)
    ensures now == Freed(m, DirBlock(InodeAt(m.disk, e.inode)), e.inode)
  {
    assert Find([], name).None?;
    assert passed + [] == passed;
  }

  /** One block written through the list of a one-block file. */
  lemma OneBlockStore(d: Image, n: Inode, data: seq<byte>)
    requires Shape(d) && n.blocks == 1 && n.data1 == 0 && DataBlock(n.data0[0]) && |data| == BLOCK_SIZE
    ensures WellMapped(d, n) && InData(BlockList(d, n))
    ensures BlockMap.Store(d, BlockList(d, n), data) == d[n.data0[0] := ByteBlock(data)]
  {
    OneBlockMap(d, n);
    var none: seq<iptr> := [];
    var nothing: seq<byte> := [];
    assert BlockList(d, n)[..0] == none && data[..0] == nothing && data[0..] == data;
    assert BlockMap.Store(d, none, nothing) == d;
  }

  /** What the loop needs to know of the directory it copies and of the one it removes. */
  lemma RmdirFacts(s: Sys, name: Name, e: Entry)
    requires SysInv(s) && ValidName(name) && name != DOT && name != DOTDOT && Lookup(Names(s.m), s.cwd, name) == Some(e)
             && e.inode in Names(s.m)
    ensures e.inode < INODE_COUNT && DataBlock(DirBlock(InodeAt(s.m.disk, e.inode)))
    ensures UniqueNames(AllEntries(Names(s.m), s.cwd)) && TotalLen(AllEntries(Names(s.m), s.cwd)) <= BLOCK_SIZE
    ensures Find(AllEntries(Names(s.m), s.cwd), name) == Some(e)
  {
    hide FdsOk, Partition, Tree, Flushed, DirMap, AllOk, UniqueNames, AllEntries;
    InTree(s.m, s.cwd);
    InTree(s.m, e.inode);
    EntriesAre(s.m.disk, s.cwd);
    NamesUnique(Names(s.m), FileSet(s.m.disk, Live(s.m)), s.cwd);
    EntriesNamed(s.m, s.cwd);
  }

  /** A directory is one direct block. */
  lemma ParentBlock(m: Meta, p: iptr)
    requires MetaOk(m) && p in Names(m) && p < INODE_COUNT
    ensures var n := InodeAt(m.disk, p); n.blocks == 1 && n.data1 == 0 && DataBlock(n.data0[0])
  {
    hide Partition, Tree, Flushed, AllOk;
    InTree(m, p);
    DirIsOneBlock(m.disk, p);
  }

  lemma CopiedSize(es: seq<Entry>, name: Name, data: seq<byte>, size: nat)
    requires Copied(es, name, data, size)
    ensures |data| == BLOCK_SIZE
  {
  }

  lemma RmdirMissing(s: Sys, name: Name)
    requires SysInv(s) && ValidName(name) && name != DOT && name != DOTDOT && Lookup(Names(s.m), s.cwd, name).None?
    ensures RmdirEnds(s, name, -1, s)
  {
    hide AllOk, DirMap, FdsOk, Partition, Tree, Flushed, Lookup;
  }

  lemma RmdirFull(s: Sys, name: Name, e: Entry)
    requires SysInv(s) && ValidName(name) && name != DOT && name != DOTDOT && Lookup(Names(s.m), s.cwd, name) == Some(e)
             && e.inode in Names(s.m)
    requires e.inode < INODE_COUNT && InodeAt(s.m.disk, e.inode).size != 24
    ensures RmdirEnds(s, name, -1, s)
  {
    hide AllOk, DirMap, FdsOk, Partition, Tree, Flushed, Lookup;
    EmptyIs24(s.m, e.inode);
  }

  lemma RmdirDone(s: Sys, name: Name, e: Entry, data: seq<byte>, size: nat, t: Sys)
    requires SysInv(s) && ValidName(name) && name != DOT && name != DOTDOT && Lookup(Names(s.m), s.cwd, name) == Some(e)
             && e.inode in Names(s.m)
    requires e.inode < INODE_COUNT && s.cwd < INODE_COUNT && InodeAt(s.m.disk, e.inode).size == 24
    requires DataBlock(DirBlock(InodeAt(s.m.disk, e.inode))) && DataBlock(DirBlock(InodeAt(s.m.disk, s.cwd)))
    requires Copied(AllEntries(Names(s.m), s.cwd), name, data, size) && t == s.(m := t.m)
    requires var r, n := Freed(s.m, DirBlock(InodeAt(s.m.disk, e.inode)), e.inode), InodeAt(s.m.disk, s.cwd);
             Shape(r.disk) &&
               t.m == r.(disk := PutInode(r.disk, s.cwd, n.(size := size))[DirBlock(n) := ByteBlock(data)])
    ensures SysInv(t) && RmdirEnds(s, name, 0, t)
  {
    hide AllOk, DirMap, FdsOk, Partition, Tree, Flushed, Lookup, DirGone, InodeOk, IsDir, EntriesOf, AllEntries, Pack,
         TotalLen;
    EmptyIs24(s.m, e.inode);
    FoundCanGo(s, name);
    EntriesNamed(s.m, s.cwd);
    FoundIsListed(s.m, s.cwd, name);
    FreedSized(s.m, DirBlock(InodeAt(s.m.disk, e.inode)), e.inode);
    assert RmdirSteps(s.m, s.cwd, e, t.m);
    RmdirRemovesIt(s.m, s.cwd, e, t.m);
    RmdirKeeps(s, name, t);
  }

  // ---- open ----

  /** cnopen of a name in directory p. */
  ghost predicate OpenEnds(s: Sys, p: iptr, name: Name, mode: nat, fd: int, t: Sys)
    requires SysInv(s)
  {
    && p in Names(s.m) && OpenCode(s, p, name, mode, t)
    && fd == if Lookup(Names(s.m), p, name).None? && mode != FD_WRITE then -1 else FirstFree(s.fdBm)
  }

  lemma FreeBit(s: Sys)
    requires SysInv(s) && exists k: nat :: k < MAX_FD && k < |s.fds| && !InUse(s.fds[k])
    ensures exists i: nat :: i < 8 * |s.fdBm| && !Bit(s.fdBm, i)
  {
    hide MetaOk;
    var k: nat :| k < MAX_FD && k < |s.fds| && !InUse(s.fds[k]);
    BitsMembers(s.fdBm);
    assert k !in Bits(s.fdBm);
  }

  /** The bit found is that of a free descriptor. */
  lemma LeastFd(s: Sys, fd: nat)
    requires SysInv(s) && fd == FirstFree(s.fdBm) && exists i: nat :: i < 8 * |s.fdBm| && !Bit(s.fdBm, i)
    ensures fd < |s.fds| && fd < 8 * |s.fdBm| && !InUse(s.fds[fd])
  {
    hide MetaOk;
    FirstFreeIsLeastAbsent(s.fdBm);
    BitsMembers(s.fdBm);
  }

  lemma NothingLoaded(d: Image, n: Inode)
    requires Shape(d) && n.blocks == 0
    ensures Mapped(n) && InData(BlockList(d, n)) && Load(d, n) == []
  {
  }

  lemma FdIsOpened(s: Sys, i: iptr, mode: nat, fd: nat, n: Inode, data: seq<byte>, t: Sys)
    requires Sized(s.m) && NoneOpen(s.fds, {i}) && mode != FD_FREE
    requires i < INODE_COUNT && n == InodeAt(s.m.disk, i) && Mapped(n) && InData(BlockList(s.m.disk, n))
    requires data == Load(s.m.disk, n)
    requires fd == FirstFree(s.fdBm) && fd < |s.fds| && fd < 8 * |s.fdBm| && !InUse(s.fds[fd])
    requires t == s.(fds := s.fds[fd := FdEntry(mode, i, n, 0, data)], fdBm := SetBit(s.fdBm, fd))
    ensures FdOpened(s, i, mode, t)
  {
    hide NoneOpen, FirstFree, Load, BlockList;
  }

  lemma CanCreatIndex(s: Sys, p: iptr, name: Name)
    requires SysInv(s) && p in Names(s.m)
    ensures p < INODE_COUNT
  {
    hide AllOk, Partition, Tree, DirMap;
    InTree(s.m, p);
  }

  lemma OpenRefused(s: Sys, p: iptr, name: Name, mode: nat)
    requires SysInv(s) && p in Names(s.m) && Lookup(Names(s.m), p, name).None? && mode != FD_WRITE
    ensures OpenEnds(s, p, name, mode, -1, s)
  {
    hide AllOk, Partition, Tree, DirMap, FdsOk, Lookup;
  }

  lemma OpenFound(s: Sys, p: iptr, name: Name, mode: nat, t: Sys)
    requires SysInv(s) && p in Names(s.m) && Lookup(Names(s.m), p, name).Some?
    requires FdOpened(s, Lookup(Names(s.m), p, name).value.inode, mode, t)
    ensures OpenEnds(s, p, name, mode, FirstFree(s.fdBm), t)
  {
    hide AllOk, Partition, Tree, DirMap, FdsOk, Lookup, FdOpened;
  }

  lemma OpenOrder(s: Sys, p: iptr, name: Name, mode: nat, fd: int, t: Sys)
    requires SysInv(s) && p in Names(s.m) && OpenEnds(s, p, name, mode, fd, t)
    ensures SysInv(t) <==> NoDirectory(Names(s.m), p, name)
  {
    hide MetaOk, FdsOk, OpenCode, Lookup;
    OpenKeepsWhen(s, p, name, mode, t);
  }

  lemma MadeIsFound(m: Meta, p: iptr, name: Name, i: iptr, r: Meta)
    requires FileMade(m, r, p, Entry(i, ITYPE_FILE, name)) && p in Names(m) && FreshName(Names(m), p, name)
    ensures p in Names(r) && Lookup(Names(r), p, name) == Some(Entry(i, ITYPE_FILE, name))
  {
    hide AllOk, Partition, Tree, DirMap, SameView;
    FoundAfterAdding(Names(m), p, Entry(i, ITYPE_FILE, name), Names(r));
  }

  lemma NewNotOpen(s: Sys, i: iptr, p: iptr, name: Name, t: Sys)
    requires SysInv(s) && FileMade(s.m, t.m, p, Entry(i, ITYPE_FILE, name)) && t == s.(m := t.m)
    ensures NoneOpen(t.fds, {i})
  {
    hide AllOk, Partition, Tree, DirMap, SameView;
  }

  /** After cncreat the name is found, names a file, and no descriptor is on it. */
  lemma CreatedFile(s: Sys, p: iptr, name: Name, rc: int, t: Sys) returns (i: iptr)
    requires SysInv(s) && SysInv(t) && p in Names(s.m) && Lookup(Names(s.m), p, name).None?
             && CreatEnds(s, p, name, rc, t)
    ensures rc == 0 && p in Names(s.m) && Lookup(Names(s.m), p, name).None? && CanCreat(s.m, p, name)
            && t == s.(m := t.m)
    ensures exists m1 :: CreatSteps(s.m, p, name, m1, i, t.m)
    ensures p in Names(t.m) && Lookup(Names(t.m), p, name) == Some(Entry(i, ITYPE_FILE, name))
    ensures IsFile(t.m, i) && NoneOpen(t.fds, {i})
  {
    hide AllOk, Partition, Tree, DirMap, FdsOk, Lookup, FdOpened, CreatSteps, FileMade, MetaOk;
    var m1, j :| CreatSteps(s.m, p, name, m1, j, t.m);
    i := j;
    CreatMakes(s.m, p, name, m1, i, t.m);
    MadeIsFile(s.m, t.m, p, Entry(i, ITYPE_FILE, name));
    MadeIsFound(s.m, p, name, i, t.m);
    NewNotOpen(s, i, p, name, t);
  }

  lemma OpenCreated(s: Sys, p: iptr, name: Name, s1: Sys, i: iptr, mode: nat, t: Sys)
    requires SysInv(s) && SysInv(s1) && p in Names(s.m) && Lookup(Names(s.m), p, name).None? && CanCreat(s.m, p, name)
    requires s1 == s.(m := s1.m) && mode == FD_WRITE && (exists m1 :: CreatSteps(s.m, p, name, m1, i, s1.m))
    requires FdOpened(s1, i, mode, t) && t.m == s1.m
    ensures OpenEnds(s, p, name, mode, FirstFree(s.fdBm), t)
  {
    hide AllOk, Partition, Tree, DirMap, FdsOk, Lookup, FdOpened, CreatSteps, CanCreat;
    var m1 :| CreatSteps(s.m, p, name, m1, i, s1.m);
    assert s.(m := t.m) == s1;
  }

  // ---- seek and write ----

  lemma MappedParts(d: Image, n: Inode)
    requires Shape(d) && WellMapped(d, n)
    ensures Mapped(n) && InData(BlockList(d, n))
  {
    OwnedParts(d, n);
  }

  lemma Extendable(s: Sys, k: nat, required: nat)
    requires SysInv(s) && k < |s.fds| && InUse(s.fds[k]) && Room(s.m, s.fds[k], required)
    ensures CanExtend(s.m, s.fds[k], required)
  {
    FdUsable(s, k);
  }

  /** What growing a file needs, and what holds when its list is already long enough. */
  lemma RoomFacts(m: Meta, f: FdEntry, required: nat)
    requires CanExtend(m, f, required) && f.inode.size < required
    ensures f.inode.size <= |f.data| && f.inode.size <= BLOCK_SIZE * BlocksFor(required) && f.inodeId < INODE_COUNT
    ensures f.inode.blocks <= BlocksFor(required) && CanGrow(m, f.inode.(size := required), BlocksFor(required))
            && Sized(m)
    ensures f.inode.blocks == BlocksFor(required) ==>
              Grown(m, f.inode.(size := required), m, f.inode.(size := required), [], [], BlocksFor(required))
  {
    hide AllOk, Partition, Tree, Flushed, Grown;
    FdCanGrow(m, f, required);
    SizeFits(f.inode, required);
    if f.inode.blocks == BlocksFor(required) { GrownNothing(m, f.inode.(size := required)); }
  }

  /** After making room the buffer fits into the cache, and the list can be written. */
  lemma RoomMade(s: Sys, k: nat, m1: Meta, f1: FdEntry, len: nat)
    requires SysInv(s) && k < |s.fds| && InUse(s.fds[k]) && CanExtend(s.m, s.fds[k], s.fds[k].cursor + len)
    requires Resized(s.m, s.fds[k], s.fds[k].cursor + len, m1, f1)
    ensures f1.cursor + len <= |f1.data| && Sized(m1) && WellMapped(m1.disk, f1.inode)
    ensures |f1.data| == BLOCK_SIZE * f1.inode.blocks && MetaOk(m1) && FdOk(m1, f1)
  {
    hide SysInv, Resized, CanExtend, MetaOk, OthersKept;
    var f := s.fds[k];
    ResizedOk(s.m, f, f.cursor + len, m1, f1);
    OthersKeptOk(s.m, m1, f.inodeId);
    MetaSized(m1);
    FdMapped(m1, f1);
    FdUsable(s, k);
  }

  // ---- mount ----

  lemma RestMounted(m: Meta, s: Sys)
    requires MetaOk(m) && s.m == m && AtRest(s)
    ensures SysInv(s)
  {
    RootIsNamed(m);
    hide MetaOk;
    RestIsOk(s);
  }
}
