/** Path walking on the volume (src/fs.c:364-460): cnopendir reads whatever the inodes on its way hold as records, be
    they directories or files. On directories this is the walk of Paths. */
module Walks {
  import opened Params
  import opened LittleEndian
  import opened Layout
  import opened BlockMap
  import opened Allocator
  import opened Dirent
  import opened Namespace
  import opened Volume
  import opened VolumeOps
  import opened OpenFile
  import opened Coherence
  import opened DirOps
  import opened MetaOps
  import opened Paths

  // ---- reading any bytes as records ----

  /** What a search for a name comes to: an inode number, the end of the bytes, or neither, when a record reaches out of
      the buffer or has length 0 and would be read for ever. */
  datatype Scanned = Hit(inode: iptr) | Miss | Unreadable

  /** A C string: what comes before the first 0. */
  function UpToNul(s: seq<byte>): seq<byte> {
    if s == [] || s[0] == 0 then [] else [s[0]] + UpToNul(s[1..])
  }

  /** The loop over cnreaddir from index k on (src/fs.c:364-375, 432-446). */
  function Search(b: seq<byte>, k: nat, size: nat, name: Name): Scanned
    decreases size - k
  {
    if k >= size then Miss
    else if k + 8 > |b| || k + 8 + b[k + 6] > |b| then Unreadable
    else if UpToNul(b[k + 8..k + 8 + b[k + 6]]) == name then Hit(Le32(b, k))
    else if Le16(b, k + 4) == 0 then Unreadable
    else Search(b, k + Le16(b, k + 4), size, name)
  }

  lemma {:induction false} NoNul(s: seq<byte>)
    requires 0 !in s
    ensures UpToNul(s) == s
  {
    if s != [] {
      assert s[0] in s;
      NoNul(s[1..]);
    }
  }

  /** On proper records the search is the search of their list. */
  lemma {:induction false} SearchIsFind(b: seq<byte>, k: nat, size: nat, name: Name)
    requires size <= |b| && Chain(b, k, size)
    ensures Search(b, k, size, name) == match Find(Parse(b, k, size),
            name) { case None => Miss case Some(e) => Hit(e.inode) }
    decreases size - k
  {
    if k < size {
      var next := k + EntryLen(b[k + 6]);
      NoNul(b[k + 8..k + 8 + b[k + 6]]);
      SearchIsFind(b, next, size, name);
      var e, rest := EntryAt(b, k), Parse(b, next, size);
      assert ([e] + rest)[1..] == rest;
    }
  }

  // ---- the walk ----

  /** Where the walk ends: nowhere since the first component is missing, at an inode, with an exhausted index if some
      component was missing there, or lost in bytes that are no records. */
  datatype Landing = Nowhere | At(inode: iptr, exhausted: bool) | Lost

  /** The inode is in the table and its blocks can be read. */
  predicate Inflates(d: Image, i: iptr)
    requires Shape(d)
  {
    i < INODE_COUNT && Mapped(InodeAt(d, i)) && InData(BlockList(d, InodeAt(d, i)))
  }

  function SearchIn(d: Image, i: iptr, name: Name): Scanned
    requires Shape(d) && Inflates(d, i)
  {
    Search(Load(d, InodeAt(d, i)), 0, InodeAt(d, i).size, name)
  }

  /** The walk from an inode; once a component is missing all later ones miss too. */
  function Follow(d: Image, i: iptr, comps: seq<Name>): (r: Landing)
    requires Shape(d)
    ensures !r.Nowhere?
    ensures r.At? ==> Inflates(d, r.inode)
    ensures r.Lost? || Inflates(d, i)
    decreases |comps|
  {
    if !Inflates(d, i) then Lost
    else if comps == [] then At(i, false)
    else match SearchIn(d, i, comps[0])
         case Miss => At(i, true)
         case Hit(x) => Follow(d, x, comps[1..])
         case Unreadable => Lost
  }

  /** cnopendir: as Follow, but nothing when the first component is missing. */
  function Reach(d: Image, start: iptr, comps: seq<Name>): (r: Landing)
    requires Shape(d)
    ensures r.At? ==> Inflates(d, r.inode)
  {
    if comps != [] && Inflates(d, start) && SearchIn(d, start, comps[0]) == Miss then Nowhere
      else Follow(d, start, comps)
  }

  // ---- directories and files of a volume ----

  /** "." and ".." take 24 bytes; a directory is empty exactly when they are all there is. */
  lemma SizeOfAll(p: iptr, node: DirNode)
    ensures TotalLen(AllOf(p, node)) == 24 + TotalLen(node.children)
    ensures TotalLen(node.children) == 0 <==> node.children == []
  {
    var es := AllOf(p, node);
    var rest := es[1..];
    assert rest[1..] == node.children;
  }

  lemma DirSize(d: Image, p: iptr)
    requires Shape(d) && IsDir(d, p)
    ensures InodeAt(d, p).size >= 24
  {
    EntriesAre(d, p);
    SizeOfAll(p, NodeOf(d, p));
  }

  /** What a handle shows parses to the entries of its directory. */
  lemma ShowsEntries(m: Meta, p: iptr, inode: Inode, data: seq<byte>)
    requires MetaOk(m) && p in Names(m) && p < INODE_COUNT && inode == InodeAt(m.disk, p)
    requires DataBlock(DirBlock(inode)) && data == Bytes(m.disk, DirBlock(inode))
    ensures 24 <= inode.size <= |data| && Chain(data, 0, inode.size)
    ensures Parse(data, 0, inode.size) == AllEntries(Names(m), p)
  {
    InTree(m, p);
    EntriesAre(m.disk, p);
    ChainLength(data, 0, inode.size);
    DirSize(m.disk, p);
  }

  /** Reading the file of a directory yields its one block. */
  lemma DirLoads(m: Meta, p: iptr)
    requires MetaOk(m) && p in Names(m)
    ensures p < INODE_COUNT && DataBlock(DirBlock(InodeAt(m.disk, p)))
    ensures Mapped(InodeAt(m.disk, p)) && InData(BlockList(m.disk, InodeAt(m.disk, p)))
    ensures Load(m.disk, InodeAt(m.disk, p)) == Bytes(m.disk, DirBlock(InodeAt(m.disk, p)))
  {
    InTree(m, p);
    var n := InodeAt(m.disk, p);
    DirIsOneBlock(m.disk, p);
    OneBlockMap(m.disk, n);
    var b: iptr := DirBlock(n);
    var none: seq<iptr> := [];
    assert [b][..0] == none;
    assert Content(m.disk, none) == [];
  }

  /** A name other than "." and ".." that is found is listed. */
  lemma FoundIsListed(m: Meta, p: iptr, name: Name)
    requires Sized(m) && AllOk(m.disk, Live(m)) && p in Names(m) && name != DOT && name != DOTDOT
    requires Lookup(Names(m), p, name).Some?
    ensures var e := Lookup(Names(m), p, name).value; Lists(Names(m), p, e) && e.name == name
  {
    FindInAll(Names(m), p, name);
  }

  /** A listed entry that is not a directory is a file. */
  lemma ListedFile(m: Meta, p: iptr, e: Entry)
    requires MetaOk(m) && Lists(Names(m), p, e) && e.inode !in Names(m)
    ensures IsFile(m, e.inode) && e.kind == ITYPE_FILE
  {
    hide AllOk, InodeOk, IsDir, Partition, OwnMap, DirMap, Flushed;
    ListedFileInTree(Names(m), FileSet(m.disk, Live(m)), p, e);
    FileSetMember(m.disk, Live(m), e.inode);
    LiveBelow(m, e.inode);
  }

  lemma LiveBelow(m: Meta, i: iptr)
    requires Counted(m) && i in Live(m)
    ensures i < INODE_COUNT
  {
  }

  lemma ListedFileInTree(nodes: Nodes, files: set<iptr>, p: iptr, e: Entry)
    requires Tree(nodes, files) && Lists(nodes, p, e) && e.inode !in nodes
    ensures e.inode in files && e.kind == ITYPE_FILE
  {
    var home, depth :| TreeBy(nodes, files, home, depth);
    assert DirOk(nodes, files, home, p) && EntryOk(nodes, files, home, p, e);
  }

  /** What a name denotes that is no directory is a file. */
  lemma FoundFile(m: Meta, p: iptr, name: Name)
    requires MetaOk(m) && p in Names(m) && Lookup(Names(m), p, name).Some?
    requires Lookup(Names(m), p, name).value.inode !in Names(m)
    ensures IsFile(m, Lookup(Names(m), p, name).value.inode)
  {
    hide AllOk, InodeOk, IsDir, Partition, OwnMap, DirMap, FileSet, Flushed, Lookup, IsFile;
    var e := Lookup(Names(m), p, name).value;
    if name == DOT || name == DOTDOT {
      DotsAreDirs(Names(m), FileSet(m.disk, Live(m)), p, name);
    } else {
      FoundIsListed(m, p, name);
      ListedFile(m, p, e);
    }
  }

  lemma DotsAreDirs(nodes: Nodes, files: set<iptr>, p: iptr, name: Name)
    requires Tree(nodes, files) && p in nodes && (name == DOT || name == DOTDOT)
    ensures Lookup(nodes, p, name).Some? && Lookup(nodes, p, name).value.inode in nodes
  {
    ParentsLive(nodes, files);
    FindInAll(nodes, p, name);
  }

  lemma FileInflates(m: Meta, i: iptr)
    requires IsFile(m, i)
    ensures Sized(m) && Inflates(m.disk, i)
  {
    FileMapped(m, i);
  }

  /** In a directory the search is the lookup in the tree. */
  lemma SearchIsLookup(m: Meta, p: iptr, name: Name)
    requires MetaOk(m) && p in Names(m)
    ensures Sized(m) && Inflates(m.disk, p)
    ensures SearchIn(m.disk, p, name) ==
            match Lookup(Names(m), p, name) { case None => Miss case Some(e) => Hit(e.inode) }
  {
    DirLoads(m, p);
    hide MetaOk, AllOk, DirMap, Chain, Parse, Find, Search, Load;
    ShowsEntries(m, p, InodeAt(m.disk, p), Load(m.disk, InodeAt(m.disk, p)));
    SearchIsFind(Load(m.disk, InodeAt(m.disk, p)), 0, InodeAt(m.disk, p).size, name);
  }

  lemma DirInflates(m: Meta, p: iptr)
    requires MetaOk(m) && p in Names(m)
    ensures Sized(m) && Inflates(m.disk, p)
  {
    SearchIsLookup(m, p, DOT);
  }

  // ---- the walk on a volume in order ----

  /** The first file on the way, and the components after it. */
  datatype Met = Met(file: iptr, rest: seq<Name>)

  function FirstFile(nodes: Nodes, d: iptr, comps: seq<Name>): Met
    requires d in nodes && !OnlyDirs(nodes, d, comps)
    decreases |comps|
  {
    var i := Lookup(nodes, d, comps[0]).value.inode;
    if i in nodes then FirstFile(nodes, i, comps[1..]) else Met(i, comps[1..])
  }

  /** On directories the walk is that of the tree; from the first file on it goes through the bytes of the file. */
  lemma {:induction false} FollowOnTree(m: Meta, d: iptr, comps: seq<Name>)
    requires MetaOk(m) && Sized(m) && AllOk(m.disk, Live(m)) && d in Names(m)
    ensures OnlyDirs(Names(m), d, comps) ==>
              Follow(m.disk, d, comps) == At(WalkRest(Names(m), d, comps), Resolve(Names(m), d, comps).None?)
    ensures !OnlyDirs(Names(m), d, comps) ==>
              var met := FirstFile(Names(m), d, comps);
              met.file !in Names(m) && IsFile(m, met.file) && Follow(m.disk, d, comps) ==
                Follow(m.disk, met.file, met.rest)
    decreases |comps|
  {
    hide MetaOk, AllOk, DirMap, IsFile, Lookup, SearchIn, Inflates;
    DirInflates(m, d);
    if comps != [] {
      SearchIsLookup(m, d, comps[0]);
      var found := Lookup(Names(m), d, comps[0]);
      if found.Some? {
        if found.value.inode in Names(m) {
          FollowOnTree(m, found.value.inode, comps[1..]);
        } else {
          FoundFile(m, d, comps[0]);
        }
      }
    }
  }

  /** The walk ends with nothing, or in a directory of the tree. */
  ghost predicate EndsWell(m: Meta, l: Landing)
    requires Sized(m) && AllOk(m.disk, Live(m))
  {
    l.Nowhere? || (l.At? && l.inode in Names(m))
  }

  /** Along directories the walk ends where OpenPath says. When it meets a file it goes on in the bytes of that file,
      and it ends in a directory only if these lead to one; so it ends well exactly when every component that it reads
      names a directory or nothing, or records written into the first file on the way lead to a directory. */
  lemma LandsOnDirectory(m: Meta, cwd: iptr, path: Path)
    requires MetaOk(m) && Sized(m) && AllOk(m.disk, Live(m)) && cwd in Names(m) && INODE_ROOTDIR in Names(m)
    ensures var nodes, start, l := Names(m), Start(cwd, path), Reach(m.disk, Start(cwd, path), path.comps);
            if OnlyDirs(nodes, start, path.comps) then
              && l == (match OpenPath(nodes, cwd, path)
                       case None => Nowhere
                       case Some(d) => At(d, Resolve(nodes, start, path.comps).None?))
              && EndsWell(m, l)
            else
              var met := FirstFile(nodes, start, path.comps);
              && met.file !in nodes && IsFile(m, met.file) && l == Follow(m.disk, met.file, met.rest)
              && (EndsWell(m, l) <==> met.rest != [] && l.At? && l.inode in nodes)
  {
    hide MetaOk, AllOk, DirMap, IsFile, SearchIn, Inflates;
    var start := Start(cwd, path);
    DirInflates(m, start);
    FollowOnTree(m, start, path.comps);
    if path.comps != [] {
      SearchIsLookup(m, start, path.comps[0]);
      FollowFirst(Names(m), start, path.comps);
    }
  }

  lemma FollowFirst(nodes: Nodes, d: iptr, comps: seq<Name>)
    requires d in nodes && comps != []
    ensures Lookup(nodes, d, comps[0]).None? ==> OnlyDirs(nodes, d, comps) && Child(nodes, d, comps[0]).None?
    ensures OnlyDirs(nodes, d, comps) && Lookup(nodes, d, comps[0]).Some? ==>
              Child(nodes, d, comps[0]) == Some(Lookup(nodes, d, comps[0]).value.inode)
    ensures Child(nodes, d, comps[0]).Some? ==>
            WalkRest(nodes, d, comps) == WalkRest(nodes, Child(nodes, d, comps[0]).value, comps[1..])
  {
  }

  /** The inode that cnopendir answers with. */
  function Answer(l: Landing): Option<iptr>
    requires l != Lost
  {
    if l.At? then Some(l.inode) else None
  }

  /** cnopendir answers like the fold of single-name lookups exactly when every component names a directory or the first
      one is missing. When a later one is missing it answers with a directory on the way, and when one names a file,
      with the file or with what its bytes lead to, where no directory is named. */
  lemma OpenIsFold(m: Meta, cwd: iptr, path: Path)
    requires MetaOk(m) && Sized(m) && AllOk(m.disk, Live(m)) && cwd in Names(m) && INODE_ROOTDIR in Names(m)
    requires Reach(m.disk, Start(cwd, path), path.comps) != Lost
    ensures var nodes, start := Names(m), Start(cwd, path);
            Answer(Reach(m.disk, start, path.comps)) == Resolve(nodes, start, path.comps) <==>
            Resolve(nodes, start, path.comps).Some? || Lookup(nodes, start, path.comps[0]).None?
  {
    hide MetaOk, AllOk, DirMap, IsFile, Reach, Follow, OnlyDirs, Resolve, Lookup, OpenPath, FirstFile, Child;
    LandsOnDirectory(m, cwd, path);
    var nodes, start := Names(m), Start(cwd, path);
    ResolveNothing(nodes, start);
    if OnlyDirs(nodes, start, path.comps) {
      OpenPathIsFold(nodes, cwd, path);
      if path.comps != [] { FirstIsDirectory(nodes, start, path.comps); }
    } else {
      FileEndsFold(nodes, start, path.comps);
      NeverNowhere(m.disk, FirstFile(nodes, start, path.comps).file, FirstFile(nodes, start, path.comps).rest);
    }
  }

  lemma FirstIsDirectory(nodes: Nodes, d: iptr, comps: seq<Name>)
    requires d in nodes && OnlyDirs(nodes, d, comps) && comps != []
    ensures Child(nodes, d, comps[0]).None? <==> Lookup(nodes, d, comps[0]).None?
  {
  }

  lemma NeverNowhere(d: Image, i: iptr, comps: seq<Name>)
    requires Shape(d)
    ensures !Follow(d, i, comps).Nowhere?
  {
  }

  /** A path on which a file is met names no directory, and its first component is there. */
  lemma {:induction false} FileEndsFold(nodes: Nodes, d: iptr, comps: seq<Name>)
    requires d in nodes && !OnlyDirs(nodes, d, comps)
    ensures comps != [] && Resolve(nodes, d, comps).None? && Lookup(nodes, d, comps[0]).Some?
    decreases |comps|
  {
    hide Lookup;
    var i := Lookup(nodes, d, comps[0]).value.inode;
    if i in nodes { FileEndsFold(nodes, i, comps[1..]); }
  }

  /** The directory that a single name leads to. */
  lemma ReachOne(m: Meta, d: iptr, name: Name)
    requires MetaOk(m) && Sized(m) && AllOk(m.disk, Live(m)) && d in Names(m) && Child(Names(m), d, name).Some?
    ensures Follow(m.disk, d, [name]) == Reach(m.disk, d, [name]) == At(Child(Names(m), d, name).value, false)
  {
    hide MetaOk, AllOk, DirMap, Lookup, SearchIn, Inflates;
    var comps, none: seq<Name> := [name], [];
    assert comps[1..] == none;
    SearchIsLookup(m, d, name);
    ChildFound(Names(m), d, name);
    DirInflates(m, Child(Names(m), d, name).value);
  }

  lemma ChildFound(nodes: Nodes, d: iptr, name: Name)
    requires d in nodes && Child(nodes, d, name).Some?
    ensures Lookup(nodes, d, name).Some? && Lookup(nodes, d, name).value.inode == Child(nodes, d, name).value
  {
  }

  /** "." leads where the empty path does. */
  lemma ReachDot(m: Meta, d: iptr)
    requires MetaOk(m) && Sized(m) && AllOk(m.disk, Live(m)) && d in Names(m)
    ensures Reach(m.disk, d, [DOT]) == Reach(m.disk, d, []) == At(d, false)
  {
    hide MetaOk, AllOk, DirMap, Child;
    DotIsChild(Names(m), d);
    ReachOne(m, d, DOT);
    DirInflates(m, d);
  }

  /** "name/..": back to d when the name is there, nothing when it is not. */
  lemma ThereAndBack(m: Meta, d: iptr, name: Name)
    requires MetaOk(m) && Sized(m) && AllOk(m.disk, Live(m)) && d in Names(m) && name != DOT && name != DOTDOT
    requires Lookup(Names(m), d, name).Some? ==> Lookup(Names(m), d, name).value.inode in Names(m)
    ensures match Lookup(Names(m), d, name)
            case None => Reach(m.disk, d, [name, DOTDOT]) == Nowhere
            case Some(e) => Reach(m.disk, d, [name, DOTDOT]) == At(d, false)
  {
    hide MetaOk, AllOk, DirMap, Lookup, SearchIn, Inflates, Child;
    var comps, rest: seq<Name> := [name, DOTDOT], [DOTDOT];
    assert comps[1..] == rest;
    SearchIsLookup(m, d, name);
    if Lookup(Names(m), d, name).Some? {
      var x := Lookup(Names(m), d, name).value.inode;
      UpFromFound(m, d, name);
      ReachOne(m, x, DOTDOT);
    }
  }

  lemma UpFromFound(m: Meta, d: iptr, name: Name)
    requires MetaOk(m) && Sized(m) && AllOk(m.disk, Live(m)) && d in Names(m) && name != DOT && name != DOTDOT
    requires Lookup(Names(m), d, name).Some? && Lookup(Names(m), d, name).value.inode in Names(m)
    ensures Child(Names(m), Lookup(Names(m), d, name).value.inode, DOTDOT) == Some(d)
  {
    hide AllOk, DirMap, Partition, Flushed, Counted, Lookup, Child;
    var e := Lookup(Names(m), d, name).value;
    FoundIsListed(m, d, name);
    ListedDirectory(Names(m), FileSet(m.disk, Live(m)), d, e);
    ChildUp(Names(m), e.inode);
  }

  // ---- the loop of cnopendir ----

  /** Where the loop stands after k components: at an inode whose records are still to be read, or with an exhausted
      index since some component was missing. */
  predicate Walking(d: Image, start: iptr, comps: seq<Name>, k: nat, at: iptr, exhausted: bool)
    requires Shape(d)
  {
    && k <= |comps| && Inflates(d, at) && (k == 0 ==> at == start && !exhausted)
    && if exhausted then Reach(d, start, comps) == At(at, true)
       else Follow(d, start, comps) == Follow(d, at, comps[k..]) && (k > 0 ==>
         Reach(d, start, comps) == Follow(d, start, comps))
  }

  lemma WalkStarts(d: Image, start: iptr, comps: seq<Name>)
    requires Shape(d) && Inflates(d, start)
    ensures Walking(d, start, comps, 0, start, false)
  {
    assert comps[0..] == comps;
  }

  /** One round: what the search finds is inflated, whatever it is. */
  lemma WalkOn(d: Image, start: iptr, comps: seq<Name>, k: nat, at: iptr)
    requires Shape(d) && Walking(d, start, comps, k, at, false) && k < |comps| && Reach(d, start, comps) != Lost
    ensures match SearchIn(d, at, comps[k])
            case Hit(x) => Inflates(d, x) && Walking(d, start, comps, k + 1, x, false)
            case Miss => if k == 0 then Reach(d, start, comps) == Nowhere else Walking(d, start, comps, k + 1, at, true)
            case Unreadable => false
  {
    hide Inflates, SearchIn;
    assert comps[k..][0] == comps[k] && comps[k..][1..] == comps[k + 1..];
    assert k == 0 ==> comps[k..] == comps;
  }

  lemma WalkEnds(d: Image, start: iptr, comps: seq<Name>, at: iptr, exhausted: bool)
    requires Shape(d) && comps != [] && Walking(d, start, comps, |comps|, at, exhausted)
    ensures Reach(d, start, comps) == At(at, exhausted)
  {
    assert comps[|comps|..] == [];
  }
}
