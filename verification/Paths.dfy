/** Path walking (src/fs.c:397-460) and the walk of cnmkdir (src/fs.c:503-544), on the tree of names. */
module Paths {
  import opened Params
  import opened Dirent
  import opened Namespace

  type Name = seq<byte>

  /** A path as strtok delivers it; no component at all is the path "/". */
  datatype Path = Path(absolute: bool, comps: seq<Name>)

  /** Look one name up in directory d: "." and ".." are entries like any other. */
  function Lookup(nodes: Nodes, d: iptr, name: Name): Option<Entry>
    requires d in nodes
  {
    Find(AllEntries(nodes, d), name)
  }

  /** The directory a name leads to from d, if there is one. */
  function Child(nodes: Nodes, d: iptr, name: Name): (r: Option<iptr>)
    requires d in nodes
    ensures r.Some? ==> r.value in nodes
  {
    match Lookup(nodes, d, name)
    case None => None
    case Some(e) => if e.inode in nodes then Some(e.inode) else None
  }

  /** Every component that the walk reads names a directory, or nothing. */
  predicate OnlyDirs(nodes: Nodes, d: iptr, comps: seq<Name>)
    requires d in nodes
    decreases |comps|
  {
    comps == [] ||
    match Lookup(nodes, d, comps[0])
    case None => true
    case Some(e) => e.inode in nodes && OnlyDirs(nodes, e.inode, comps[1..])
  }

  /** Where cnopendir starts. */
  function Start(cwd: iptr, path: Path): iptr {
    if path.absolute then INODE_ROOTDIR else cwd
  }

  /** What cnopendir does after its first component: once a name is missing the directory is exhausted,
      so all remaining names miss too and the walk stays where it is. */
  function WalkRest(nodes: Nodes, d: iptr, comps: seq<Name>): (r: iptr)
    requires d in nodes
    ensures r in nodes
    decreases |comps|
  {
    if comps == [] then d
    else match Child(nodes, d, comps[0])
         case None => d
         case Some(x) => WalkRest(nodes, x, comps[1..])
  }

  /** cnopendir: nothing when the first component is missing, else wherever the walk ends. */
  function OpenPath(nodes: Nodes, cwd: iptr, path: Path): (r: Option<iptr>)
    requires cwd in nodes && INODE_ROOTDIR in nodes
    ensures r.Some? ==> r.value in nodes
  {
    if path.comps == [] then Some(Start(cwd, path))
    else match Child(nodes, Start(cwd, path), path.comps[0])
         case None => None
         case Some(x) => Some(WalkRest(nodes, x, path.comps[1..]))
  }

  /** The ideal: a fold of single-name lookups. */
  function Resolve(nodes: Nodes, d: iptr, comps: seq<Name>): (r: Option<iptr>)
    requires d in nodes
    ensures r.Some? ==> r.value in nodes
    decreases |comps|
  {
    if comps == [] then Some(d)
    else match Child(nodes, d, comps[0])
         case None => None
         case Some(x) => Resolve(nodes, x, comps[1..])
  }

  lemma {:induction false} WalkIsFold(nodes: Nodes, d: iptr, comps: seq<Name>)
    requires d in nodes && Resolve(nodes, d, comps).Some?
    ensures WalkRest(nodes, d, comps) == Resolve(nodes, d, comps).value
    decreases |comps|
  {
    if comps != [] { WalkIsFold(nodes, Child(nodes, d, comps[0]).value, comps[1..]); }
  }

  /** The walk stops at the deepest directory that the path reaches. */
  lemma {:induction false} WalkIsDeepest(nodes: Nodes, d: iptr, comps: seq<Name>) returns (k: nat)
    requires d in nodes && Resolve(nodes, d, comps).None?
    ensures k < |comps| && Resolve(nodes, d, comps[..k]) == Some(WalkRest(nodes, d, comps))
    ensures Child(nodes, WalkRest(nodes, d, comps), comps[k]).None?
    decreases |comps|
  {
    match Child(nodes, d, comps[0])
    case None =>
      k := 0;
    case Some(x) =>
      var j := WalkIsDeepest(nodes, x, comps[1..]);
      k := j + 1;
      assert comps[..k][1..] == comps[1..][..j];
  }

  /** Path walking equals the fold exactly when every component exists or the first one is missing; else the
      code answers with the deepest directory reached, at least one component deep. */
  lemma OpenPathIsFold(nodes: Nodes, cwd: iptr, path: Path)
    requires cwd in nodes && INODE_ROOTDIR in nodes && OnlyDirs(nodes, Start(cwd, path), path.comps)
    ensures var fold := Resolve(nodes, Start(cwd, path), path.comps);
            OpenPath(nodes, cwd, path) == fold <==> fold.Some? || Child(nodes, Start(cwd, path), path.comps[0]).None?
  {
    var start := Start(cwd, path);
    if path.comps != [] && Child(nodes, start, path.comps[0]).Some? {
      var x := Child(nodes, start, path.comps[0]).value;
      if Resolve(nodes, start, path.comps).Some? { WalkIsFold(nodes, x, path.comps[1..]); }
    }
  }

  lemma OpenPathDeepest(nodes: Nodes, cwd: iptr, path: Path) returns (k: nat)
    requires cwd in nodes && INODE_ROOTDIR in nodes && OnlyDirs(nodes, Start(cwd, path), path.comps)
    requires Resolve(nodes, Start(cwd, path), path.comps).None? && Child(nodes, Start(cwd, path), path.comps[0]).Some?
    ensures 1 <= k < |path.comps| && OpenPath(nodes, cwd, path) == Resolve(nodes, Start(cwd, path), path.comps[..k])
    ensures OpenPath(nodes, cwd, path).Some? && Child(nodes, OpenPath(nodes, cwd, path).value, path.comps[k]).None?
  {
    var x := Child(nodes, Start(cwd, path), path.comps[0]).value;
    var j := WalkIsDeepest(nodes, x, path.comps[1..]);
    k := j + 1;
    assert path.comps[..k][1..] == path.comps[1..][..j];
  }

  // ---- mkdir ----

  /** cnmkdir starts at the current directory even for an absolute path, and stays where it is when an
      intermediate component is missing. */
  function MkdirWalk(nodes: Nodes, d: iptr, comps: seq<Name>): (r: iptr)
    requires d in nodes
    ensures r in nodes
    decreases |comps|
  {
    if comps == [] then d
    else match Child(nodes, d, comps[0])
         case None => MkdirWalk(nodes, d, comps[1..])
         case Some(x) => MkdirWalk(nodes, x, comps[1..])
  }

  /** The components before the last, and the last. */
  function Via(path: Path): seq<Name>
    requires path.comps != []
  {
    path.comps[..|path.comps| - 1]
  }

  function Last(path: Path): Name
    requires path.comps != []
  {
    path.comps[|path.comps| - 1]
  }

  predicate MkdirOnlyDirs(nodes: Nodes, d: iptr, comps: seq<Name>)
    requires d in nodes
    decreases |comps|
  {
    comps == [] ||
    match Lookup(nodes, d, comps[0])
    case None => MkdirOnlyDirs(nodes, d, comps[1..])
    case Some(e) => e.inode in nodes && MkdirOnlyDirs(nodes, e.inode, comps[1..])
  }

  lemma {:induction false} MkdirWalkFollows(nodes: Nodes, d: iptr, comps: seq<Name>)
    requires d in nodes && Resolve(nodes, d, comps).Some?
    ensures MkdirWalk(nodes, d, comps) == Resolve(nodes, d, comps).value
    decreases |comps|
  {
    if comps != [] { MkdirWalkFollows(nodes, Child(nodes, d, comps[0]).value, comps[1..]); }
  }

  /** The walk of cnmkdir goes component by component, each from where the ones before it led: into the directory of that
      name, or nowhere if it is missing. */
  lemma {:induction false} MkdirWalkInParts(nodes: Nodes, d: iptr, front: seq<Name>, name: Name, rest: seq<Name>)
    requires d in nodes
    ensures var at := MkdirWalk(nodes, d, front);
            var next := if Child(nodes, at, name).Some? then Child(nodes, at, name).value else at;
            MkdirWalk(nodes, d, front + [name] + rest) == MkdirWalk(nodes, next, rest)
    ensures MkdirWalk(nodes, d, []) == d
    decreases |front|
  {
    var all := front + [name] + rest;
    if front == [] {
      assert all == [name] + rest && all[1..] == rest;
    } else {
      assert all[1..] == front[1..] + [name] + rest;
      var first := Child(nodes, d, front[0]);
      MkdirWalkInParts(nodes, if first.Some? then first.value else d, front[1..], name, rest);
    }
  }

  /** cnmkdir works where the intermediate components lead from the current directory exactly when they all exist. */
  lemma MkdirWalkIsFold(nodes: Nodes, d: iptr, comps: seq<Name>)
    requires d in nodes && MkdirOnlyDirs(nodes, d, comps)
    ensures Some(MkdirWalk(nodes, d, comps)) == Resolve(nodes, d, comps) <==> Resolve(nodes, d, comps).Some?
  {
    if Resolve(nodes, d, comps).Some? { MkdirWalkFollows(nodes, d, comps); }
  }

  lemma ChildsParent(nodes: Nodes, files: set<iptr>, d: iptr, name: Name)
    requires Tree(nodes, files) && d in nodes && name != DOT && name != DOTDOT && Child(nodes, d, name).Some?
    ensures nodes[Child(nodes, d, name).value].parent == d
  {
    FindInAll(nodes, d, name);
    ListedDirectory(nodes, files, d, Lookup(nodes, d, name).value);
  }

  // ---- one path without dots for each directory ----

  lemma {:induction false} ResolveConcat(nodes: Nodes, d: iptr, a: seq<Name>, b: seq<Name>)
    requires d in nodes
    ensures Resolve(nodes, d, a + b) ==
            match Resolve(nodes, d, a) { case None => None case Some(x) => Resolve(nodes, x, b) }
    decreases |a|
  {
    if a == [] {
      assert a + b == b;
    } else {
      assert (a + b)[1..] == a[1..] + b;
      if Child(nodes, d, a[0]).Some? { ResolveConcat(nodes, Child(nodes, d, a[0]).value, a[1..], b); }
    }
  }

  lemma ResolveLast(nodes: Nodes, d: iptr, comps: seq<Name>, name: Name)
    requires d in nodes
    ensures Resolve(nodes, d, comps + [name]) ==
            match Resolve(nodes, d, comps) { case None => None case Some(x) => Child(nodes, x, name) }
  {
    ResolveConcat(nodes, d, comps, [name]);
    var one, none: seq<Name> := [name], [];
    assert one[1..] == none;
  }

  lemma ResolveNothing(nodes: Nodes, d: iptr)
    requires d in nodes
    ensures Resolve(nodes, d, []) == Some(d)
  {
  }

  /** A path from the root with its dots worked out: "." is nothing, ".." takes the name before it away. */
  function Plain(comps: seq<Name>): (r: seq<Name>)
    ensures DOT !in r && DOTDOT !in r
  {
    if comps == [] then []
    else
      var n := |comps| - 1;
      var front := Plain(comps[..n]);
      if comps[n] == DOT then front
      else if comps[n] == DOTDOT then if front == [] then [] else front[..|front| - 1]
      else front + [comps[n]]
  }

  /** Working out the dots of a path that exists does not change where it leads. */
  lemma {:induction false} PlainLeads(nodes: Nodes, files: set<iptr>, comps: seq<Name>)
    requires Tree(nodes, files) && INODE_ROOTDIR in nodes && Resolve(nodes, INODE_ROOTDIR, comps).Some?
    ensures Resolve(nodes, INODE_ROOTDIR, Plain(comps)) == Resolve(nodes, INODE_ROOTDIR, comps)
  {
    hide Resolve, Child, Tree, Lookup;
    if comps != [] {
      var n := |comps| - 1;
      assert comps == comps[..n] + [comps[n]];
      ResolveLast(nodes, INODE_ROOTDIR, comps[..n], comps[n]);
      PlainLeads(nodes, files, comps[..n]);
      var x, front := Resolve(nodes, INODE_ROOTDIR, comps[..n]).value, Plain(comps[..n]);
      if comps[n] == DOT {
        DotIsChild(nodes, x);
      } else if comps[n] == DOTDOT {
        UpFromPlain(nodes, files, x, front);
      } else {
        ResolveLast(nodes, INODE_ROOTDIR, front, comps[n]);
      }
    }
  }

  lemma UpFromPlain(nodes: Nodes, files: set<iptr>, x: iptr, front: seq<Name>)
    requires Tree(nodes, files) && INODE_ROOTDIR in nodes && x in nodes && DOT !in front && DOTDOT !in front
    requires Resolve(nodes, INODE_ROOTDIR, front) == Some(x)
    ensures Child(nodes, x, DOTDOT) == Resolve(nodes, INODE_ROOTDIR, if front == [] then [] else front[..|front| - 1])
  {
    ParentsLive(nodes, files);
    hide Resolve, Child, Tree, Lookup;
    ResolveNothing(nodes, INODE_ROOTDIR);
    ChildUp(nodes, x);
    if front == [] { RootsParent(nodes, files); } else { LastStep(nodes, files, front); }
  }

  lemma RootsParent(nodes: Nodes, files: set<iptr>)
    requires Tree(nodes, files)
    ensures INODE_ROOTDIR in nodes && nodes[INODE_ROOTDIR].parent == INODE_ROOTDIR
  {
  }

  /** A name other than "." and ".." never leads to the root. */
  lemma NeverDownToRoot(nodes: Nodes, files: set<iptr>, d: iptr, name: Name)
    requires Tree(nodes, files) && d in nodes && name != DOT && name != DOTDOT && Child(nodes, d, name).Some?
    ensures Child(nodes, d, name).value != INODE_ROOTDIR
  {
    var home, depth :| TreeBy(nodes, files, home, depth);
    FindInAll(nodes, d, name);
    assert EntryOk(nodes, files, home, d, Lookup(nodes, d, name).value);
  }

  /** Two such names that lead from one directory to one place are the same. */
  lemma OneNameEach(nodes: Nodes, files: set<iptr>, d: iptr, a: Name, b: Name)
    requires Tree(nodes, files) && d in nodes && a != DOT && a != DOTDOT && b != DOT && b != DOTDOT
    requires Child(nodes, d, a).Some? && Child(nodes, d, a) == Child(nodes, d, b)
    ensures a == b
  {
    var home, depth :| TreeBy(nodes, files, home, depth);
    assert DirOk(nodes, files, home, d);
    FindInAll(nodes, d, a);
    FindInAll(nodes, d, b);
    var e, f := Lookup(nodes, d, a).value, Lookup(nodes, d, b).value;
    assert e in nodes[d].children && f in nodes[d].children && e.inode == f.inode;
  }

  /** No directory has two paths from the root without dots. */
  lemma {:induction false} OnePlainPath(nodes: Nodes, files: set<iptr>, p: seq<Name>, q: seq<Name>)
    requires Tree(nodes, files) && INODE_ROOTDIR in nodes
    requires DOT !in p && DOTDOT !in p && DOT !in q && DOTDOT !in q
    requires Resolve(nodes, INODE_ROOTDIR, p).Some? && Resolve(nodes, INODE_ROOTDIR, p) ==
             Resolve(nodes, INODE_ROOTDIR, q)
    ensures p == q
    decreases |p|
  {
    hide Resolve, Child, Tree, Lookup;
    ResolveNothing(nodes, INODE_ROOTDIR);
    if p != [] { LastStep(nodes, files, p); }
    if q != [] { LastStep(nodes, files, q); }
    if p != [] && q != [] {
      var a, b := p[..|p| - 1], q[..|q| - 1];
      OnePlainPath(nodes, files, a, b);
      OneNameEach(nodes, files, Resolve(nodes, INODE_ROOTDIR, a).value, p[|p| - 1], q[|q| - 1]);
      assert p == a + [p[|p| - 1]] && q == b + [q[|q| - 1]];
    }
  }

  /** The last step of a path without dots comes from the parent of where it ends. */
  lemma LastStep(nodes: Nodes, files: set<iptr>, p: seq<Name>)
    requires Tree(nodes, files) && INODE_ROOTDIR in nodes && p != [] && DOT !in p && DOTDOT !in p
    requires Resolve(nodes, INODE_ROOTDIR, p).Some?
    ensures var x, front := Resolve(nodes, INODE_ROOTDIR, p).value, Resolve(nodes, INODE_ROOTDIR, p[..|p| - 1]);
            front == Some(nodes[x].parent) && nodes[x].parent in nodes
              && Child(nodes, nodes[x].parent, p[|p| - 1]) == Some(x)
            && x != INODE_ROOTDIR
  {
    hide Resolve, Child, Tree, Lookup;
    var n := |p| - 1;
    assert p == p[..n] + [p[n]] && p[n] in p;
    ResolveLast(nodes, INODE_ROOTDIR, p[..n], p[n]);
    var y := Resolve(nodes, INODE_ROOTDIR, p[..n]).value;
    ChildsParent(nodes, files, y, p[n]);
    NeverDownToRoot(nodes, files, y, p[n]);
  }

  /** Every directory has one. */
  lemma PlainPath(nodes: Nodes, files: set<iptr>, d: iptr) returns (here: seq<Name>)
    requires Tree(nodes, files) && d in nodes
    ensures INODE_ROOTDIR in nodes && DOT !in here && DOTDOT !in here && Resolve(nodes, INODE_ROOTDIR, here) == Some(d)
  {
    var home, depth :| TreeBy(nodes, files, home, depth);
    TreeRanked(nodes, files, home, depth);
    here := PlainPathBy(nodes, files, home, depth, d);
  }

  lemma {:induction false} PlainPathBy(nodes: Nodes, files: set<iptr>, home: map<iptr, iptr>, depth: map<iptr, nat>,
          d: iptr)
    returns (here: seq<Name>)
    requires TreeBy(nodes, files, home, depth) && Ranked(nodes, depth) && d in nodes
    ensures DOT !in here && DOTDOT !in here && Resolve(nodes, INODE_ROOTDIR, here) == Some(d)
    decreases depth[d]
  {
    hide Resolve, Child, TreeBy, Lookup;
    here := [];
    ResolveNothing(nodes, INODE_ROOTDIR);
    if d != INODE_ROOTDIR {
      var p := nodes[d].parent;
      var name := NameOf(nodes, files, home, depth, d);
      var up := PlainPathBy(nodes, files, home, depth, p);
      ResolveLast(nodes, INODE_ROOTDIR, up, name);
      here := up + [name];
    }
  }

  /** The name under which its parent lists a directory. */
  lemma NameOf(nodes: Nodes, files: set<iptr>, home: map<iptr, iptr>, depth: map<iptr, nat>, d: iptr)
          returns (name: Name)
    requires TreeBy(nodes, files, home, depth) && d in nodes && d != INODE_ROOTDIR
    ensures nodes[d].parent in nodes && name != DOT && name != DOTDOT && Child(nodes, nodes[d].parent, name) == Some(d)
  {
    assert HomeOk(nodes, home, depth, d);
    var p := nodes[d].parent;
    var e :| e in nodes[p].children && e.inode == d;
    assert DirOk(nodes, files, home, p) && EntryOk(nodes, files, home, p, e);
    assert Tree(nodes, files);
    hide TreeBy, Child, Lookup;
    ChildDown(nodes, files, p, e);
    name := e.name;
  }

  // ---- where cnmkdir works ----

  /** The components that cnmkdir finds and follows. */
  function Found(nodes: Nodes, d: iptr, comps: seq<Name>): seq<Name>
    requires d in nodes
    decreases |comps|
  {
    if comps == [] then []
    else match Child(nodes, d, comps[0])
         case None => Found(nodes, d, comps[1..])
         case Some(x) => [comps[0]] + Found(nodes, x, comps[1..])
  }

  lemma {:induction false} FoundLeads(nodes: Nodes, d: iptr, comps: seq<Name>)
    requires d in nodes
    ensures Resolve(nodes, d, Found(nodes, d, comps)) == Some(MkdirWalk(nodes, d, comps))
    ensures Resolve(nodes, d, comps).Some? ==> Found(nodes, d, comps) == comps
    ensures forall name :: name in Found(nodes, d, comps) ==> name in comps
    decreases |comps|
  {
    if comps != [] {
      match Child(nodes, d, comps[0])
      case None =>
        FoundLeads(nodes, d, comps[1..]);
      case Some(x) =>
        FoundLeads(nodes, x, comps[1..]);
        var rest := Found(nodes, x, comps[1..]);
        assert ([comps[0]] + rest)[1..] == rest;
    }
  }

  /** cnmkdir never looks at a leading slash. It works in the directory that the path names exactly when the path is
      relative and its intermediate components all exist, or when it is absolute, they exist, and they are the way to
      the current directory followed by the components that are found from there, dots worked out. */
  lemma MkdirWorksWhere(nodes: Nodes, files: set<iptr>, cwd: iptr, here: seq<Name>, path: Path)
    requires Tree(nodes, files) && cwd in nodes && INODE_ROOTDIR in nodes && path.comps != []
    requires DOT !in here && DOTDOT !in here && Resolve(nodes, INODE_ROOTDIR, here) == Some(cwd)
    ensures Some(MkdirWalk(nodes, cwd, Via(path))) == Resolve(nodes, Start(cwd, path), Via(path)) <==>
            && Resolve(nodes, Start(cwd, path), Via(path)).Some?
            && (path.absolute ==> Plain(Via(path)) == Plain(here + Found(nodes, cwd, Via(path))))
  {
    var via, found := Via(path), Found(nodes, cwd, Via(path));
    FoundLeads(nodes, cwd, via);
    if path.absolute && Resolve(nodes, INODE_ROOTDIR, via).Some? {
      ResolveConcat(nodes, INODE_ROOTDIR, here, found);
      PlainLeads(nodes, files, via);
      PlainLeads(nodes, files, here + found);
      if Resolve(nodes, INODE_ROOTDIR, via) == Some(MkdirWalk(nodes, cwd, via)) {
        OnePlainPath(nodes, files, Plain(via), Plain(here + found));
      }
    } else if Resolve(nodes, cwd, via).Some? {
      MkdirWalkFollows(nodes, cwd, via);
    }
  }

  /** Without dots: an absolute path is worked where it says exactly when it is the way to the current directory
      followed by the components that are found from there. */
  lemma MkdirWorksWhereNoDots(nodes: Nodes, files: set<iptr>, cwd: iptr, here: seq<Name>, via: seq<Name>)
    requires Tree(nodes, files) && cwd in nodes && INODE_ROOTDIR in nodes && DOT !in via && DOTDOT !in via
    requires DOT !in here && DOTDOT !in here && Resolve(nodes, INODE_ROOTDIR, here) == Some(cwd)
    ensures Some(MkdirWalk(nodes, cwd, via)) == Resolve(nodes, INODE_ROOTDIR, via) <==>
            via == here + Found(nodes, cwd, via)
  {
    var found := Found(nodes, cwd, via);
    FoundLeads(nodes, cwd, via);
    ResolveConcat(nodes, INODE_ROOTDIR, here, found);
    if Some(MkdirWalk(nodes, cwd, via)) == Resolve(nodes, INODE_ROOTDIR, via) {
      OnePlainPath(nodes, files, via, here + found);
    }
  }

  /** With intermediate components that exist from the current directory an absolute path is worked where it says
      only from the root. */
  lemma MkdirIgnoresSlash(nodes: Nodes, files: set<iptr>, cwd: iptr, via: seq<Name>)
    requires Tree(nodes, files) && cwd in nodes && INODE_ROOTDIR in nodes
    requires DOT !in via && DOTDOT !in via && Resolve(nodes, cwd, via).Some?
    ensures Some(MkdirWalk(nodes, cwd, via)) == Resolve(nodes, INODE_ROOTDIR, via) <==> cwd == INODE_ROOTDIR
  {
    var here := PlainPath(nodes, files, cwd);
    MkdirWorksWhereNoDots(nodes, files, cwd, here, via);
    FoundLeads(nodes, cwd, via);
    if via == here + via { assert |here| == 0; }
    if cwd == INODE_ROOTDIR {
      OnePlainPath(nodes, files, here, []);
      assert [] + via == via;
    }
  }

  /** Where cnmkdir stands before its component k. */
  predicate MkdirWalking(nodes: Nodes, start: iptr, comps: seq<Name>, k: nat, at: iptr) {
    && start in nodes && at in nodes && k <= |comps|
    && MkdirOnlyDirs(nodes, at, comps[k..]) && MkdirWalk(nodes, start, comps) == MkdirWalk(nodes, at, comps[k..])
  }

  lemma MkdirWalkStarts(nodes: Nodes, start: iptr, comps: seq<Name>)
    requires start in nodes && MkdirOnlyDirs(nodes, start, comps)
    ensures MkdirWalking(nodes, start, comps, 0, start)
  {
    assert comps[0..] == comps;
  }

  lemma MkdirWalkOn(nodes: Nodes, start: iptr, comps: seq<Name>, k: nat, at: iptr)
    requires MkdirWalking(nodes, start, comps, k, at) && k < |comps|
    ensures match Lookup(nodes, at, comps[k])
            case Some(e) => e.inode in nodes && MkdirWalking(nodes, start, comps, k + 1, e.inode)
            case None => MkdirWalking(nodes, start, comps, k + 1, at)
  {
    assert comps[k..][1..] == comps[k + 1..] && comps[k..][0] == comps[k];
  }

  lemma MkdirWalkEnds(nodes: Nodes, start: iptr, comps: seq<Name>, at: iptr)
    requires MkdirWalking(nodes, start, comps, |comps|, at)
    ensures at == MkdirWalk(nodes, start, comps)
  {
    assert comps[|comps|..] == [];
  }

  // ---- going down and back up ----

  lemma OpenOne(nodes: Nodes, d: iptr, name: Name)
    requires d in nodes && INODE_ROOTDIR in nodes
    ensures OpenPath(nodes, d, Path(false, [name])) == Child(nodes, d, name)
  {
    var comps: seq<Name> := [name];
    assert comps[1..] == [];
  }

  lemma OpenTwo(nodes: Nodes, d: iptr, name: Name, last: Name)
    requires d in nodes && INODE_ROOTDIR in nodes && Child(nodes, d, name).Some?
    requires Child(nodes, Child(nodes, d, name).value, last).Some?
    ensures OpenPath(nodes, d, Path(false, [name, last])) == Child(nodes, Child(nodes, d, name).value, last)
  {
    var comps, rest: seq<Name> := [name, last], [last];
    assert comps[1..] == rest && rest[1..] == [];
    assert WalkRest(nodes, Child(nodes, d, name).value, rest) == Child(nodes, Child(nodes, d, name).value, last).value;
  }

  lemma ChildDown(nodes: Nodes, files: set<iptr>, d: iptr, e: Entry)
    requires Tree(nodes, files) && Lists(nodes, d, e)
    ensures INODE_ROOTDIR in nodes && Lookup(nodes, d, e.name) == Some(e)
    ensures e.kind == ITYPE_DIR ==> Child(nodes, d, e.name) == Some(e.inode) && nodes[e.inode].parent == d
  {
    var home, depth :| TreeBy(nodes, files, home, depth);
    assert EntryOk(nodes, files, home, d, e) && HomeOk(nodes, home, depth, e.inode);
    FindInAll(nodes, d, e.name);
    FindUnique(nodes[d].children, e);
  }

  lemma ChildUp(nodes: Nodes, x: iptr)
    requires x in nodes && nodes[x].parent in nodes
    ensures Child(nodes, x, DOTDOT) == Some(nodes[x].parent)
  {
    FindInAll(nodes, x, DOTDOT);
  }

  /** From a directory into a child and back by "..": the walk that treedir makes around each recursive
      call, and cnrmdir's "name/..". */
  lemma DownAndUp(nodes: Nodes, files: set<iptr>, d: iptr, e: Entry)
    requires Tree(nodes, files) && Lists(nodes, d, e) && e.kind == ITYPE_DIR
    ensures INODE_ROOTDIR in nodes && e.inode in nodes
    ensures OpenPath(nodes, d, Path(false, [e.name])) == Some(e.inode)
    ensures OpenPath(nodes, e.inode, Path(false, [DOTDOT])) == Some(d)
    ensures OpenPath(nodes, d, Path(false, [e.name, DOTDOT])) == Some(d)
  {
    ChildDown(nodes, files, d, e);
    ChildUp(nodes, e.inode);
    OpenOne(nodes, d, e.name);
    OpenOne(nodes, e.inode, DOTDOT);
    OpenTwo(nodes, d, e.name, DOTDOT);
  }

  lemma DotIsChild(nodes: Nodes, d: iptr)
    requires d in nodes
    ensures Child(nodes, d, DOT) == Some(d)
  {
    FindInAll(nodes, d, DOT);
  }

  // ---- a name just added ----

  lemma {:induction false} FindSnoc(es: seq<Entry>, e: Entry)
    requires Find(es, e.name).None?
    ensures Find(es + [e], e.name) == Some(e)
  {
    if es == [] {
      assert es + [e] == [e];
    } else {
      assert es[0] in es;
      FindSnoc(es[1..], e);
      assert (es + [e])[1..] == es[1..] + [e];
    }
  }

  /** An entry just listed in p is what its name finds there. */
  lemma FoundAfterAdding(nodes: Nodes, p: iptr, e: Entry, n: Nodes)
    requires p in nodes && FreshName(nodes, p, e.name) && p in n && n[p].children == nodes[p].children + [e]
    ensures Lookup(n, p, e.name) == Some(e)
  {
    FindInAll(nodes, p, e.name);
    FindInAll(n, p, e.name);
    FindSnoc(nodes[p].children, e);
  }
}
