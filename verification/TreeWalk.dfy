/** The recursive listing of treedir (src/fs.c:1015-1060), on the tree of names: it ends, and it visits every
    entry below its start exactly once. */
module TreeWalk {
  import opened Params
  import opened Dirent
  import opened Namespace

  /** What makes the recursion end: children lie one deeper, and no directory lies deeper than `bound`. */
  predicate Bounded(nodes: Nodes, depth: map<iptr, nat>, bound: nat) {
    && Ranked(nodes, depth)
    && (forall d :: d in nodes ==> depth[d] <= bound)
    && (forall d, e :: d in nodes && e in nodes[d].children && e.kind == ITYPE_DIR ==>
          e.inode in nodes && depth[e.inode] == depth[d] + 1)
  }

  /** Some of the entries of directory d. */
  predicate EntriesIn(nodes: Nodes, d: iptr, es: seq<Entry>) {
    d in nodes && forall e :: e in es ==> e in nodes[d].children
  }

  /** The entries in the order of treedir: each one, and after a directory everything below it. */
  function Listing(nodes: Nodes, depth: map<iptr, nat>, bound: nat, d: iptr, es: seq<Entry>): seq<Entry>
    requires Bounded(nodes, depth, bound) && EntriesIn(nodes, d, es)
    decreases bound - depth[d], |es|
  {
    if es == [] then []
    else
      var below := if es[0].kind == ITYPE_DIR
                   then Listing(nodes, depth, bound, es[0].inode, nodes[es[0].inode].children) else [];
      [es[0]] + below + Listing(nodes, depth, bound, d, es[1..])
  }

  /** Directory x is a, or below it. */
  predicate Under(nodes: Nodes, depth: map<iptr, nat>, a: iptr, x: iptr)
    requires Ranked(nodes, depth)
    decreases if x in depth then depth[x] else 0
  {
    x == a || (x in nodes && x != INODE_ROOTDIR && Under(nodes, depth, a, nodes[x].parent))
  }

  /** Inode i is listed in d or in a directory below d. */
  predicate Beneath(nodes: Nodes, depth: map<iptr, nat>, home: map<iptr, iptr>, d: iptr, i: iptr)
    requires Ranked(nodes, depth)
  {
    i in home && Under(nodes, depth, d, home[i])
  }

  // ---- a bound exists ----

  lemma {:induction false} MaxDepth(depth: map<iptr, nat>, keys: set<iptr>) returns (bound: nat)
    requires keys <= depth.Keys
    ensures forall d :: d in keys ==> depth[d] <= bound
  {
    if keys == {} {
      bound := 0;
    } else {
      var k :| k in keys;
      var b := MaxDepth(depth, keys - {k});
      bound := if depth[k] > b then depth[k] else b;
    }
  }

  lemma TreeBounded(nodes: Nodes, files: set<iptr>, home: map<iptr, iptr>, depth: map<iptr, nat>) returns (bound: nat)
    requires TreeBy(nodes, files, home, depth)
    ensures Bounded(nodes, depth, bound)
  {
    TreeRanked(nodes, files, home, depth);
    bound := MaxDepth(depth, nodes.Keys);
    forall d, e | d in nodes && e in nodes[d].children && e.kind == ITYPE_DIR
      ensures e.inode in nodes && depth[e.inode] == depth[d] + 1
    {
      ChildDeeper(nodes, files, home, depth, d, e);
    }
  }

  lemma ChildDeeper(nodes: Nodes, files: set<iptr>, home: map<iptr, iptr>, depth: map<iptr, nat>, d: iptr, e: Entry)
    requires TreeBy(nodes, files, home, depth) && Lists(nodes, d, e) && e.kind == ITYPE_DIR
    ensures e.inode in nodes && nodes[e.inode].parent == d && e.inode != INODE_ROOTDIR
    ensures e.inode in depth && d in depth && depth[e.inode] == depth[d] + 1
  {
    assert DirOk(nodes, files, home, d) && EntryOk(nodes, files, home, d, e);
    assert HomeOk(nodes, home, depth, e.inode);
  }

  // ---- below ----

  lemma {:induction false} UnderDeeper(nodes: Nodes, depth: map<iptr, nat>, a: iptr, x: iptr)
    requires Ranked(nodes, depth) && a in nodes && x in nodes && Under(nodes, depth, a, x)
    ensures depth[a] <= depth[x]
    decreases depth[x]
  {
    if x != a { UnderDeeper(nodes, depth, a, nodes[x].parent); }
  }

  /** Two directories of the same depth with something in common below them are the same. */
  lemma {:induction false} UnderOne(nodes: Nodes, depth: map<iptr, nat>, a: iptr, b: iptr, x: iptr)
    requires Ranked(nodes, depth) && a in nodes && b in nodes && x in nodes && depth[a] == depth[b]
    requires Under(nodes, depth, a, x) && Under(nodes, depth, b, x)
    ensures a == b
    decreases depth[x]
  {
    if x != a && x != b {
      UnderOne(nodes, depth, a, b, nodes[x].parent);
    } else if x == a && x != b {
      UnderDeeper(nodes, depth, b, nodes[x].parent);
    } else if x != a && x == b {
      UnderDeeper(nodes, depth, a, nodes[x].parent);
    }
  }

  /** What lies strictly below a directory lies below one of its children. */
  lemma {:induction false} UnderSplit(nodes: Nodes, files: set<iptr>, home: map<iptr, iptr>, depth: map<iptr, nat>,
          a: iptr, x: iptr) returns (c: Entry)
    requires TreeBy(nodes, files, home, depth) && Ranked(nodes, depth) && a in nodes && x in nodes && x != a
    requires Under(nodes, depth, a, x)
    ensures Lists(nodes, a, c) && c.kind == ITYPE_DIR && c.inode in nodes && Under(nodes, depth, c.inode, x)
    decreases depth[x]
  {
    var p := nodes[x].parent;
    if p == a {
      c := EntryOfDir(nodes, files, home, depth, x);
    } else {
      c := UnderSplit(nodes, files, home, depth, a, p);
    }
  }

  lemma EntryOfDir(nodes: Nodes, files: set<iptr>, home: map<iptr, iptr>, depth: map<iptr, nat>, x: iptr)
          returns (c: Entry)
    requires TreeBy(nodes, files, home, depth) && x in nodes && x != INODE_ROOTDIR
    ensures Lists(nodes, nodes[x].parent, c) && c.inode == x && c.kind == ITYPE_DIR
  {
    assert HomeOk(nodes, home, depth, x);
    c :| c in nodes[home[x]].children && c.inode == x;
    assert DirOk(nodes, files, home, home[x]) && EntryOk(nodes, files, home, home[x], c);
  }

  lemma {:induction false} UnderThrough(nodes: Nodes, depth: map<iptr, nat>, a: iptr, b: iptr, x: iptr)
    requires Ranked(nodes, depth) && b in nodes && b != INODE_ROOTDIR && nodes[b].parent == a && x in nodes
    requires Under(nodes, depth, b, x)
    ensures Under(nodes, depth, a, x)
    decreases depth[x]
  {
    if x == b {
      assert Under(nodes, depth, a, a);
    } else {
      UnderThrough(nodes, depth, a, b, nodes[x].parent);
    }
  }

  // ---- what the listing visits ----

  /** Inode i is the one entry c names, or lies below it. */
  predicate Within(nodes: Nodes, depth: map<iptr, nat>, home: map<iptr, iptr>, c: Entry, i: iptr)
    requires Ranked(nodes, depth)
  {
    c.inode == i || (c.kind == ITYPE_DIR && Beneath(nodes, depth, home, c.inode, i))
  }

  ghost predicate WithinSome(nodes: Nodes, depth: map<iptr, nat>, home: map<iptr, iptr>, es: seq<Entry>, i: iptr)
    requires Ranked(nodes, depth)
  {
    exists c :: c in es && Within(nodes, depth, home, c, i)
  }

  /** Some entry of the list names inode i. */
  ghost predicate Visits(es: seq<Entry>, i: iptr) {
    exists e :: e in es && e.inode == i
  }

  /** Everything below a directory lies within exactly its children. */
  lemma BeneathIsWithinChildren(nodes: Nodes, files: set<iptr>, home: map<iptr, iptr>, depth: map<iptr, nat>, d: iptr,
          i: iptr)
    requires TreeBy(nodes, files, home, depth) && Ranked(nodes, depth) && d in nodes
    ensures Beneath(nodes, depth, home, d, i) <==> WithinSome(nodes, depth, home, nodes[d].children, i)
  {
    if Beneath(nodes, depth, home, d, i) {
      BeneathChild(nodes, files, home, depth, d, i);
    }
    if c :| c in nodes[d].children && Within(nodes, depth, home, c, i) {
      ChildBeneath(nodes, files, home, depth, d, c, i);
    }
  }

  lemma BeneathChild(nodes: Nodes, files: set<iptr>, home: map<iptr, iptr>, depth: map<iptr, nat>, d: iptr, i: iptr)
    requires TreeBy(nodes, files, home, depth) && Ranked(nodes, depth) && d in nodes
             && Beneath(nodes, depth, home, d, i)
    ensures WithinSome(nodes, depth, home, nodes[d].children, i)
  {
    assert HomeOk(nodes, home, depth, i);
    if home[i] == d {
      var c :| c in nodes[d].children && c.inode == i;
      assert Within(nodes, depth, home, c, i);
    } else {
      var c := UnderSplit(nodes, files, home, depth, d, home[i]);
      assert Within(nodes, depth, home, c, i);
    }
  }

  lemma ChildBeneath(nodes: Nodes, files: set<iptr>, home: map<iptr, iptr>, depth: map<iptr, nat>, d: iptr, c: Entry,
          i: iptr)
    requires TreeBy(nodes, files, home, depth) && Ranked(nodes, depth) && Lists(nodes, d, c)
             && Within(nodes, depth, home, c, i)
    ensures Beneath(nodes, depth, home, d, i)
  {
    assert DirOk(nodes, files, home, d) && EntryOk(nodes, files, home, d, c);
    if c.inode != i {
      ChildDeeper(nodes, files, home, depth, d, c);
      assert HomeOk(nodes, home, depth, i);
      UnderThrough(nodes, depth, d, c.inode, home[i]);
    }
  }

  lemma NotBelowItself(nodes: Nodes, files: set<iptr>, home: map<iptr, iptr>, depth: map<iptr, nat>, d: iptr, c: Entry,
          e: Entry)
    requires TreeBy(nodes, files, home, depth) && Ranked(nodes, depth) && Lists(nodes, d, c) && Lists(nodes, d, e)
    requires c.kind == ITYPE_DIR
    ensures !Beneath(nodes, depth, home, c.inode, e.inode)
  {
    assert DirOk(nodes, files, home, d) && EntryOk(nodes, files, home, d, e);
    ChildDeeper(nodes, files, home, depth, d, c);
    if Under(nodes, depth, c.inode, d) { UnderDeeper(nodes, depth, c.inode, d); }
  }

  /** Two entries of one directory have nothing in common. */
  lemma Apart(nodes: Nodes, files: set<iptr>, home: map<iptr, iptr>, depth: map<iptr, nat>, d: iptr, c: Entry, e: Entry,
          i: iptr)
    requires TreeBy(nodes, files, home, depth) && Ranked(nodes, depth) && Lists(nodes, d, c) && Lists(nodes, d, e)
    requires c.inode != e.inode && Within(nodes, depth, home, c, i)
    ensures !Within(nodes, depth, home, e, i)
  {
    if c.kind == ITYPE_DIR { NotBelowItself(nodes, files, home, depth, d, c, e); }
    if e.kind == ITYPE_DIR { NotBelowItself(nodes, files, home, depth, d, e, c); }
    if i != c.inode && Within(nodes, depth, home, e, i) {
      BothBelow(nodes, files, home, depth, d, c, e, i);
    }
  }

  lemma BothBelow(nodes: Nodes, files: set<iptr>, home: map<iptr, iptr>, depth: map<iptr, nat>, d: iptr, c: Entry,
          e: Entry, i: iptr)
    requires TreeBy(nodes, files, home, depth) && Ranked(nodes, depth) && Lists(nodes, d, c) && Lists(nodes, d, e)
    requires c.kind == ITYPE_DIR && e.kind == ITYPE_DIR
    requires Beneath(nodes, depth, home, c.inode, i) && Beneath(nodes, depth, home, e.inode, i)
    ensures c.inode == e.inode
  {
    ChildDeeper(nodes, files, home, depth, d, c);
    ChildDeeper(nodes, files, home, depth, d, e);
    assert HomeOk(nodes, home, depth, i);
    UnderOne(nodes, depth, c.inode, e.inode, home[i]);
  }

  lemma UniqueConcat(a: seq<Entry>, b: seq<Entry>)
    requires UniqueInodes(a) && UniqueInodes(b)
    requires forall i: iptr :: Visits(a, i) ==> !Visits(b, i)
    ensures UniqueInodes(a + b)
  {
    forall j, k | 0 <= j < k < |a + b| ensures (a + b)[j].inode != (a + b)[k].inode {
      if j < |a| <= k {
        assert a[j] in a && b[k - |a|] in b;
        assert Visits(a, a[j].inode) && Visits(b, b[k - |a|].inode);
      }
    }
  }

  lemma VisitsConcat(a: seq<Entry>, b: seq<Entry>, i: iptr)
    ensures Visits(a + b, i) <==> Visits(a, i) || Visits(b, i)
  {
    if e :| e in a + b && e.inode == i { assert e in a || e in b; }
    if e :| e in a && e.inode == i { assert e in a + b; }
    if e :| e in b && e.inode == i { assert e in a + b; }
  }

  /** The listing visits every inode within its entries, and each of them once. */
  lemma {:induction false} ListingVisits(nodes: Nodes, files: set<iptr>, home: map<iptr, iptr>, depth: map<iptr, nat>,
          bound: nat, d: iptr, es: seq<Entry>)
    requires TreeBy(nodes, files, home, depth) && Bounded(nodes, depth, bound) && EntriesIn(nodes, d, es)
             && UniqueInodes(es)
    ensures UniqueInodes(Listing(nodes, depth, bound, d, es))
    ensures forall i: iptr :: Visits(Listing(nodes, depth, bound, d, es), i) <==> WithinSome(nodes, depth, home, es, i)
    decreases bound - depth[d], |es|
  {
    if es != [] {
      var below := BelowVisits(nodes, files, home, depth, bound, d, es);
      UniqueHead(es);
      ListingVisits(nodes, files, home, depth, bound, d, es[1..]);
      ListingJoin(nodes, files, home, depth, bound, d, es, below, Listing(nodes, depth, bound, d, es[1..]));
    }
  }

  /** The part of the listing that the first entry's recursive call contributes. */
  lemma {:induction false} BelowVisits(nodes: Nodes, files: set<iptr>, home: map<iptr, iptr>, depth: map<iptr, nat>,
          bound: nat, d: iptr, es: seq<Entry>)
    returns (below: seq<Entry>)
    requires TreeBy(nodes, files, home, depth) && Bounded(nodes, depth, bound) && EntriesIn(nodes, d, es) && es != []
    ensures Listing(nodes, depth, bound, d, es) == [es[0]] + below + Listing(nodes, depth, bound, d, es[1..])
    ensures UniqueInodes(below)
    ensures forall i: iptr :: Visits(below, i) <==>
            es[0].kind == ITYPE_DIR && Beneath(nodes, depth, home, es[0].inode, i)
    decreases bound - depth[d], |es|, 0
  {
    var e := es[0];
    if e.kind == ITYPE_DIR {
      ChildDeeper(nodes, files, home, depth, d, e);
      assert DirOk(nodes, files, home, e.inode);
      below := Listing(nodes, depth, bound, e.inode, nodes[e.inode].children);
      ListingVisits(nodes, files, home, depth, bound, e.inode, nodes[e.inode].children);
      forall i: iptr ensures Visits(below, i) <==> Beneath(nodes, depth, home, e.inode, i) {
        BeneathIsWithinChildren(nodes, files, home, depth, e.inode, i);
      }
    } else {
      below := [];
    }
  }

  lemma VisitsOne(e: Entry, i: iptr)
    ensures Visits([e], i) <==> e.inode == i
  {
    assert e in [e];
  }

  /** An entry and what is below it do not overlap. */
  lemma EntryAndBelow(nodes: Nodes, files: set<iptr>, home: map<iptr, iptr>, depth: map<iptr, nat>, d: iptr, e: Entry,
          below: seq<Entry>)
    requires TreeBy(nodes, files, home, depth) && Ranked(nodes, depth) && Lists(nodes, d, e) && UniqueInodes(below)
    requires forall i: iptr :: Visits(below, i) <==> e.kind == ITYPE_DIR && Beneath(nodes, depth, home, e.inode, i)
    ensures UniqueInodes([e] + below)
    ensures forall i: iptr :: Visits([e] + below, i) <==> Within(nodes, depth, home, e, i)
  {
    if e.kind == ITYPE_DIR { NotBelowItself(nodes, files, home, depth, d, e, e); }
    hide TreeBy, Beneath, Ranked, Visits;
    forall i: iptr ensures Visits([e], i) <==> e.inode == i {
      VisitsOne(e, i);
    }
    UniqueConcat([e], below);
    forall i: iptr ensures Visits([e] + below, i) <==> Within(nodes, depth, home, e, i) {
      VisitsConcat([e], below, i);
    }
  }

  lemma RestIsApart(nodes: Nodes, files: set<iptr>, home: map<iptr, iptr>, depth: map<iptr, nat>, d: iptr,
          es: seq<Entry>, i: iptr)
    requires TreeBy(nodes, files, home, depth) && Ranked(nodes, depth) && EntriesIn(nodes, d, es) && es != []
             && UniqueInodes(es)
    requires Within(nodes, depth, home, es[0], i)
    ensures !WithinSome(nodes, depth, home, es[1..], i)
  {
    if c :| c in es[1..] && Within(nodes, depth, home, c, i) {
      UniqueHead(es);
      Apart(nodes, files, home, depth, d, es[0], c, i);
    }
  }

  /** First entry, what is below it, and the rest do not overlap. */
  lemma ListingJoin(nodes: Nodes, files: set<iptr>, home: map<iptr, iptr>, depth: map<iptr, nat>, bound: nat, d: iptr,
          es: seq<Entry>,
                    below: seq<Entry>, rest: seq<Entry>)
    requires TreeBy(nodes, files, home, depth) && Bounded(nodes, depth, bound) && EntriesIn(nodes, d, es) && es != []
             && UniqueInodes(es)
    requires UniqueInodes(below) && UniqueInodes(rest)
    requires forall i: iptr :: Visits(below, i) <==>
             es[0].kind == ITYPE_DIR && Beneath(nodes, depth, home, es[0].inode, i)
    requires forall i: iptr :: Visits(rest, i) <==> WithinSome(nodes, depth, home, es[1..], i)
    ensures UniqueInodes([es[0]] + below + rest)
    ensures forall i: iptr :: Visits([es[0]] + below + rest, i) <==> WithinSome(nodes, depth, home, es, i)
  {
    hide TreeBy, Within, WithinSome, UniqueInodes, Visits, Beneath;
    var first := [es[0]] + below;
    EntryAndBelow(nodes, files, home, depth, d, es[0], below);
    forall i: iptr | Visits(first, i) ensures !Visits(rest, i) {
      RestIsApart(nodes, files, home, depth, d, es, i);
    }
    UniqueConcat(first, rest);
    forall i: iptr ensures Visits(first + rest, i) <==> WithinSome(nodes, depth, home, es, i) {
      VisitsConcat(first, rest, i);
      WithinHead(nodes, depth, home, es, i);
    }
  }

  lemma WithinHead(nodes: Nodes, depth: map<iptr, nat>, home: map<iptr, iptr>, es: seq<Entry>, i: iptr)
    requires Ranked(nodes, depth) && es != []
    ensures WithinSome(nodes, depth, home, es, i) <==>
            Within(nodes, depth, home, es[0], i) || WithinSome(nodes, depth, home, es[1..], i)
  {
    assert forall c :: c in es <==> c == es[0] || c in es[1..];
  }

  /** treedir visits every inode below its start, and each exactly once. */
  lemma TreeVisitsAllOnce(nodes: Nodes, files: set<iptr>, home: map<iptr, iptr>, depth: map<iptr, nat>, bound: nat,
          d: iptr)
    requires TreeBy(nodes, files, home, depth) && Bounded(nodes, depth, bound) && d in nodes
    ensures var l := Listing(nodes, depth, bound, d, nodes[d].children);
            && UniqueInodes(l)
            && forall i: iptr :: Visits(l, i) <==> Beneath(nodes, depth, home, d, i)
  {
    assert DirOk(nodes, files, home, d);
    ListingVisits(nodes, files, home, depth, bound, d, nodes[d].children);
    forall i: iptr ensures Beneath(nodes, depth, home, d, i) <==> WithinSome(nodes, depth, home, nodes[d].children, i) {
      BeneathIsWithinChildren(nodes, files, home, depth, d, i);
    }
  }

  /** From the root that is the whole volume: every directory and file but the root itself. */
  lemma TreeFromRootVisitsAll(nodes: Nodes, files: set<iptr>, home: map<iptr, iptr>, depth: map<iptr, nat>, bound: nat)
    requires TreeBy(nodes, files, home, depth) && Bounded(nodes, depth, bound)
    ensures var l := Listing(nodes, depth, bound, INODE_ROOTDIR, nodes[INODE_ROOTDIR].children);
            && UniqueInodes(l)
            && forall i: iptr :: Visits(l, i) <==> i in nodes.Keys + files && i != INODE_ROOTDIR
  {
    TreeVisitsAllOnce(nodes, files, home, depth, bound, INODE_ROOTDIR);
    hide Beneath, Visits, UniqueInodes, Listing;
    forall i: iptr ensures Beneath(nodes, depth, home, INODE_ROOTDIR, i) <==>
      i in nodes.Keys + files && i != INODE_ROOTDIR {
      BeneathRoot(nodes, files, home, depth, i);
    }
  }

  lemma BeneathRoot(nodes: Nodes, files: set<iptr>, home: map<iptr, iptr>, depth: map<iptr, nat>, i: iptr)
    requires TreeBy(nodes, files, home, depth) && Ranked(nodes, depth)
    ensures Beneath(nodes, depth, home, INODE_ROOTDIR, i) <==> i in nodes.Keys + files && i != INODE_ROOTDIR
  {
    if i in home {
      assert HomeOk(nodes, home, depth, i);
      AllUnderRoot(nodes, depth, home[i]);
    }
  }

  lemma {:induction false} AllUnderRoot(nodes: Nodes, depth: map<iptr, nat>, x: iptr)
    requires Ranked(nodes, depth) && x in nodes
    ensures Under(nodes, depth, INODE_ROOTDIR, x)
    decreases depth[x]
  {
    if x != INODE_ROOTDIR { AllUnderRoot(nodes, depth, nodes[x].parent); }
  }

  // ---- the order of the listing ----

  /** The entries of a list that directory x lists, in their order. */
  function ListedIn(home: map<iptr, iptr>, x: iptr, es: seq<Entry>): seq<Entry> {
    if es == [] then []
    else (if es[0].inode in home && home[es[0].inode] == x then [es[0]] else []) + ListedIn(home, x, es[1..])
  }

  lemma {:induction false} ListedInConcat(home: map<iptr, iptr>, x: iptr, a: seq<Entry>, b: seq<Entry>)
    ensures ListedIn(home, x, a + b) == ListedIn(home, x, a) + ListedIn(home, x, b)
  {
    if a == [] {
      assert a + b == b;
    } else {
      assert (a + b)[1..] == a[1..] + b;
      ListedInConcat(home, x, a[1..], b);
    }
  }

  lemma ListedInOne(home: map<iptr, iptr>, x: iptr, e: Entry)
    ensures ListedIn(home, x, [e]) == if e.inode in home && home[e.inode] == x then [e] else []
  {
    assert [e][1..] == [];
  }

  /** Directory x is one of the entries, or below one. */
  ghost predicate UnderSome(nodes: Nodes, depth: map<iptr, nat>, es: seq<Entry>, x: iptr)
    requires Ranked(nodes, depth)
  {
    exists c :: c in es && c.kind == ITYPE_DIR && Under(nodes, depth, c.inode, x)
  }

  lemma UnderHead(nodes: Nodes, depth: map<iptr, nat>, es: seq<Entry>, x: iptr)
    requires Ranked(nodes, depth) && es != []
    ensures UnderSome(nodes, depth, es, x) <==>
            (es[0].kind == ITYPE_DIR && Under(nodes, depth, es[0].inode, x)) || UnderSome(nodes, depth, es[1..], x)
  {
    assert forall c :: c in es <==> c == es[0] || c in es[1..];
  }

  /** What is below a child of d is not d. */
  lemma UnderChildNotSelf(nodes: Nodes, files: set<iptr>, home: map<iptr, iptr>, depth: map<iptr, nat>, d: iptr,
          es: seq<Entry>)
    requires TreeBy(nodes, files, home, depth) && Ranked(nodes, depth) && EntriesIn(nodes, d, es)
    ensures !UnderSome(nodes, depth, es, d)
  {
    if c :| c in es && c.kind == ITYPE_DIR && Under(nodes, depth, c.inode, d) {
      ChildDeeper(nodes, files, home, depth, d, c);
      UnderDeeper(nodes, depth, c.inode, d);
    }
  }

  /** Two different children of d have no directory in common below them. */
  lemma UnderOneChild(nodes: Nodes, files: set<iptr>, home: map<iptr, iptr>, depth: map<iptr, nat>, d: iptr,
          es: seq<Entry>, x: iptr)
    requires TreeBy(nodes, files, home, depth) && Ranked(nodes, depth) && EntriesIn(nodes, d, es) && UniqueInodes(es)
    requires es != [] && es[0].kind == ITYPE_DIR && x in nodes && Under(nodes, depth, es[0].inode, x)
    ensures !UnderSome(nodes, depth, es[1..], x)
  {
    if c :| c in es[1..] && c.kind == ITYPE_DIR && Under(nodes, depth, c.inode, x) {
      UniqueHead(es);
      ChildDeeper(nodes, files, home, depth, d, es[0]);
      ChildDeeper(nodes, files, home, depth, d, c);
      UnderOne(nodes, depth, es[0].inode, c.inode, x);
    }
  }

  lemma BelowAgain(nodes: Nodes, files: set<iptr>, home: map<iptr, iptr>, depth: map<iptr, nat>, e: iptr, x: iptr)
    requires TreeBy(nodes, files, home, depth) && Ranked(nodes, depth) && e in nodes && x in nodes
    ensures Under(nodes, depth, e, x) <==> x == e || UnderSome(nodes, depth, nodes[e].children, x)
  {
    if x != e && Under(nodes, depth, e, x) {
      var c := UnderSplit(nodes, files, home, depth, e, x);
    }
    if c :| c in nodes[e].children && c.kind == ITYPE_DIR && Under(nodes, depth, c.inode, x) {
      ChildDeeper(nodes, files, home, depth, e, c);
      UnderThrough(nodes, depth, e, c.inode, x);
    }
  }

  /** Siblings keep the order of their records: of what directory x lists, the listing of some entries of d contains
      these
      entries if x is d, all of it if x is below one of them, and nothing otherwise. */
  lemma {:induction false} ListingInOrder(nodes: Nodes, files: set<iptr>, home: map<iptr, iptr>, depth: map<iptr, nat>,
          bound: nat, d: iptr, es: seq<Entry>, x: iptr)
    requires TreeBy(nodes, files, home, depth) && Bounded(nodes, depth, bound) && EntriesIn(nodes, d, es)
             && UniqueInodes(es) && x in nodes
    ensures ListedIn(home, x, Listing(nodes, depth, bound, d, es)) ==
            if x == d then es else if UnderSome(nodes, depth, es, x) then nodes[x].children else []
    decreases bound - depth[d], |es|
  {
    if es != [] {
      var e := es[0];
      var below := OrderBelow(nodes, files, home, depth, bound, d, es, x);
      UniqueHead(es);
      ListingInOrder(nodes, files, home, depth, bound, d, es[1..], x);
      var rest := Listing(nodes, depth, bound, d, es[1..]);
      OrderJoin(nodes, files, home, depth, d, es, x, below, rest);
    }
  }

  /** The part that the first entry's recursive call contributes. */
  lemma {:induction false} OrderBelow(nodes: Nodes, files: set<iptr>, home: map<iptr, iptr>, depth: map<iptr, nat>,
          bound: nat, d: iptr, es: seq<Entry>, x: iptr)
    returns (below: seq<Entry>)
    requires TreeBy(nodes, files, home, depth) && Bounded(nodes, depth, bound) && EntriesIn(nodes, d, es) && es != []
             && x in nodes
    ensures Listing(nodes, depth, bound, d, es) == [es[0]] + below + Listing(nodes, depth, bound, d, es[1..])
    ensures ListedIn(home, x, below) ==
            if es[0].kind == ITYPE_DIR && Under(nodes, depth, es[0].inode, x) then nodes[x].children else []
    decreases bound - depth[d], |es|, 0
  {
    var e := es[0];
    if e.kind == ITYPE_DIR {
      ChildDeeper(nodes, files, home, depth, d, e);
      assert DirOk(nodes, files, home, e.inode);
      below := Listing(nodes, depth, bound, e.inode, nodes[e.inode].children);
      ListingInOrder(nodes, files, home, depth, bound, e.inode, nodes[e.inode].children, x);
      BelowAgain(nodes, files, home, depth, e.inode, x);
    } else {
      below := [];
    }
  }

  lemma OrderJoin(nodes: Nodes, files: set<iptr>, home: map<iptr, iptr>, depth: map<iptr, nat>, d: iptr, es: seq<Entry>,
          x: iptr, below: seq<Entry>, rest: seq<Entry>)
    requires TreeBy(nodes, files, home, depth) && Ranked(nodes, depth) && EntriesIn(nodes, d, es) && es != []
             && UniqueInodes(es) && x in nodes
    requires ListedIn(home, x, below) ==
             if es[0].kind == ITYPE_DIR && Under(nodes, depth, es[0].inode, x) then nodes[x].children else []
    requires ListedIn(home, x, rest) ==
             if x == d then es[1..] else if UnderSome(nodes, depth, es[1..], x) then nodes[x].children else []
    ensures ListedIn(home, x, [es[0]] + below + rest) ==
            if x == d then es else if UnderSome(nodes, depth, es, x) then nodes[x].children else []
  {
    hide TreeBy, Ranked, UnderSome, ListedIn, Under, UniqueInodes;
    EntryHome(nodes, files, home, depth, d, es[0]);
    if es[0].kind == ITYPE_DIR && Under(nodes, depth, es[0].inode, x) {
      UnderOneChild(nodes, files, home, depth, d, es, x);
    }
    UnderHead(nodes, depth, es, x);
    if x == d { UnderChildNotSelf(nodes, files, home, depth, d, es); }
    ListedInConcat(home, x, [es[0]] + below, rest);
    ListedInConcat(home, x, [es[0]], below);
    ListedInOne(home, x, es[0]);
    assert [es[0]] + es[1..] == es;
  }

  lemma EntryHome(nodes: Nodes, files: set<iptr>, home: map<iptr, iptr>, depth: map<iptr, nat>, d: iptr, e: Entry)
    requires TreeBy(nodes, files, home, depth) && Lists(nodes, d, e)
    ensures e.inode in home && home[e.inode] == d
  {
    assert DirOk(nodes, files, home, d) && EntryOk(nodes, files, home, d, e);
  }

  /** What lies beneath something that lies beneath a lies beneath a. */
  lemma {:induction false} UnderTrans(nodes: Nodes, depth: map<iptr, nat>, a: iptr, b: iptr, x: iptr)
    requires Ranked(nodes, depth) && x in nodes && Under(nodes, depth, a, b) && Under(nodes, depth, b, x)
    ensures Under(nodes, depth, a, x)
    decreases depth[x]
  {
    if x != b { UnderTrans(nodes, depth, a, b, nodes[x].parent); }
  }

  lemma BeneathTrans(nodes: Nodes, files: set<iptr>, home: map<iptr, iptr>, depth: map<iptr, nat>, a: iptr, b: iptr,
          i: iptr)
    requires TreeBy(nodes, files, home, depth) && Ranked(nodes, depth) && b in nodes && b != INODE_ROOTDIR
    requires Beneath(nodes, depth, home, a, b) && Beneath(nodes, depth, home, b, i)
    ensures Beneath(nodes, depth, home, a, i)
  {
    assert HomeOk(nodes, home, depth, b) && HomeOk(nodes, home, depth, i);
    assert Under(nodes, depth, a, b);
    UnderTrans(nodes, depth, a, b, home[i]);
  }

  /** What lies beneath a directory of the list comes after it, with nothing else in between. */
  ghost predicate Nested(nodes: Nodes, depth: map<iptr, nat>, home: map<iptr, iptr>, v: seq<Entry>)
    requires Ranked(nodes, depth)
  {
    forall i, j :: 0 <= i < |v| && 0 <= j < |v| && v[i].kind == ITYPE_DIR
                   && Beneath(nodes, depth, home, v[i].inode, v[j].inode) ==>
      i < j && forall k :: i < k < j ==> Beneath(nodes, depth, home, v[i].inode, v[k].inode)
  }

  lemma {:induction false} ListingNested(nodes: Nodes, files: set<iptr>, home: map<iptr, iptr>, depth: map<iptr, nat>,
          bound: nat, d: iptr, es: seq<Entry>)
    requires TreeBy(nodes, files, home, depth) && Bounded(nodes, depth, bound) && EntriesIn(nodes, d, es)
             && UniqueInodes(es)
    ensures Nested(nodes, depth, home, Listing(nodes, depth, bound, d, es))
    decreases bound - depth[d], |es|
  {
    if es != [] {
      var e := es[0];
      var below := NestedBelow(nodes, files, home, depth, bound, d, es);
      UniqueHead(es);
      ListingNested(nodes, files, home, depth, bound, d, es[1..]);
      var rest := Listing(nodes, depth, bound, d, es[1..]);
      ListingVisits(nodes, files, home, depth, bound, d, es[1..]);
      ListingListed(nodes, files, home, depth, bound, d, es[1..]);
      hide TreeBy, Bounded, Listing, Nested, WithinSome, Visits, Beneath, UniqueInodes, Ranked, ListedAll;
      BoundedIsRanked(nodes, depth, bound);
      NestedJoin(nodes, files, home, depth, d, es, below, rest);
    }
  }

  lemma BoundedIsRanked(nodes: Nodes, depth: map<iptr, nat>, bound: nat)
    requires Bounded(nodes, depth, bound)
    ensures Ranked(nodes, depth)
  {
  }

  /** Every entry of the list is an entry of the tree. */
  ghost predicate ListedAll(nodes: Nodes, home: map<iptr, iptr>, v: seq<Entry>) {
    forall e :: e in v ==> e.inode in home && Lists(nodes, home[e.inode], e)
  }

  lemma {:induction false} ListingListed(nodes: Nodes, files: set<iptr>, home: map<iptr, iptr>, depth: map<iptr, nat>,
          bound: nat, d: iptr, es: seq<Entry>)
    requires TreeBy(nodes, files, home, depth) && Bounded(nodes, depth, bound) && EntriesIn(nodes, d, es)
    ensures ListedAll(nodes, home, Listing(nodes, depth, bound, d, es))
    decreases bound - depth[d], |es|
  {
    if es != [] {
      var e := es[0];
      EntryHome(nodes, files, home, depth, d, e);
      if e.kind == ITYPE_DIR {
        ChildDeeper(nodes, files, home, depth, d, e);
        ListingListed(nodes, files, home, depth, bound, e.inode, nodes[e.inode].children);
      }
      ListingListed(nodes, files, home, depth, bound, d, es[1..]);
    }
  }

  lemma {:induction false} NestedBelow(nodes: Nodes, files: set<iptr>, home: map<iptr, iptr>, depth: map<iptr, nat>,
          bound: nat, d: iptr, es: seq<Entry>)
    returns (below: seq<Entry>)
    requires TreeBy(nodes, files, home, depth) && Bounded(nodes, depth, bound) && EntriesIn(nodes, d, es) && es != []
    ensures Listing(nodes, depth, bound, d, es) == [es[0]] + below + Listing(nodes, depth, bound, d, es[1..])
    ensures Nested(nodes, depth, home, below) && ListedAll(nodes, home, below)
    ensures forall i: iptr :: Visits(below, i) <==>
            es[0].kind == ITYPE_DIR && Beneath(nodes, depth, home, es[0].inode, i)
    decreases bound - depth[d], |es|, 0
  {
    below := BelowVisits(nodes, files, home, depth, bound, d, es);
    var e := es[0];
    if e.kind == ITYPE_DIR {
      ChildDeeper(nodes, files, home, depth, d, e);
      assert DirOk(nodes, files, home, e.inode);
      var l := Listing(nodes, depth, bound, e.inode, nodes[e.inode].children);
      BelowIs(nodes, depth, bound, d, es, below, l);
      ListingNested(nodes, files, home, depth, bound, e.inode, nodes[e.inode].children);
      ListingListed(nodes, files, home, depth, bound, e.inode, nodes[e.inode].children);
    } else {
      BelowIs(nodes, depth, bound, d, es, below, []);
    }
  }

  lemma BelowIs(nodes: Nodes, depth: map<iptr, nat>, bound: nat, d: iptr, es: seq<Entry>, below: seq<Entry>,
          l: seq<Entry>)
    requires Bounded(nodes, depth, bound) && EntriesIn(nodes, d, es) && es != []
    requires Listing(nodes, depth, bound, d, es) == [es[0]] + below + Listing(nodes, depth, bound, d, es[1..])
    requires if es[0].kind == ITYPE_DIR then l == Listing(nodes, depth, bound, es[0].inode, nodes[es[0].inode].children)
             else l == []
    ensures below == l
  {
    var rest := Listing(nodes, depth, bound, d, es[1..]);
    assert [es[0]] + below + rest == [es[0]] + l + rest;
    assert |below| == |l|;
    assert below == ([es[0]] + below + rest)[1..1 + |below|];
    assert l == ([es[0]] + l + rest)[1..1 + |l|];
  }

  /** Which of the three parts an entry beneath v is in. */
  lemma NestedJoin(nodes: Nodes, files: set<iptr>, home: map<iptr, iptr>, depth: map<iptr, nat>, d: iptr,
          es: seq<Entry>, below: seq<Entry>, rest: seq<Entry>)
    requires TreeBy(nodes, files, home, depth) && Ranked(nodes, depth) && EntriesIn(nodes, d, es) && es != []
             && UniqueInodes(es)
    requires Nested(nodes, depth, home, below) && Nested(nodes, depth, home, rest)
    requires ListedAll(nodes, home, below) && ListedAll(nodes, home, rest)
    requires forall i: iptr :: Visits(below, i) <==>
             es[0].kind == ITYPE_DIR && Beneath(nodes, depth, home, es[0].inode, i)
    requires forall i: iptr :: Visits(rest, i) <==> WithinSome(nodes, depth, home, es[1..], i)
    ensures Nested(nodes, depth, home, [es[0]] + below + rest)
  {
    hide TreeBy, Ranked, UniqueInodes, Beneath, WithinSome, ListedAll, Nested, Visits;
    var e, v := es[0], [es[0]] + below + rest;
    forall i, j | 0 <= i < |v| && 0 <= j < |v| && v[i].kind == ITYPE_DIR
                  && Beneath(nodes, depth, home, v[i].inode, v[j].inode)
      ensures i < j && forall k :: i < k < j ==> Beneath(nodes, depth, home, v[i].inode, v[k].inode)
    {
      NestedPair(nodes, files, home, depth, d, es, below, rest, i, j);
    }
    NestedIntro(nodes, depth, home, v);
  }

  lemma NestedIntro(nodes: Nodes, depth: map<iptr, nat>, home: map<iptr, iptr>, v: seq<Entry>)
    requires Ranked(nodes, depth)
    requires forall i, j :: 0 <= i < |v| && 0 <= j < |v| && v[i].kind == ITYPE_DIR
                            && Beneath(nodes, depth, home, v[i].inode, v[j].inode) ==>
               i < j && forall k :: i < k < j ==> Beneath(nodes, depth, home, v[i].inode, v[k].inode)
    ensures Nested(nodes, depth, home, v)
  {
  }

  /** One pair of entries, the second beneath the first. */
  lemma NestedPair(nodes: Nodes, files: set<iptr>, home: map<iptr, iptr>, depth: map<iptr, nat>, d: iptr,
          es: seq<Entry>, below: seq<Entry>, rest: seq<Entry>, i: nat, j: nat)
    requires TreeBy(nodes, files, home, depth) && Ranked(nodes, depth) && EntriesIn(nodes, d, es) && es != []
             && UniqueInodes(es)
    requires Nested(nodes, depth, home, below) && Nested(nodes, depth, home, rest)
    requires ListedAll(nodes, home, below) && ListedAll(nodes, home, rest)
    requires forall x: iptr :: Visits(below, x) <==>
             es[0].kind == ITYPE_DIR && Beneath(nodes, depth, home, es[0].inode, x)
    requires forall x: iptr :: Visits(rest, x) <==> WithinSome(nodes, depth, home, es[1..], x)
    requires var v := [es[0]] + below + rest;
             i < |v| && j < |v| && v[i].kind == ITYPE_DIR && Beneath(nodes, depth, home, v[i].inode, v[j].inode)
    ensures var v := [es[0]] + below + rest;
            i < j && forall k :: i < k < j ==> Beneath(nodes, depth, home, v[i].inode, v[k].inode)
  {
    hide TreeBy, Ranked, UniqueInodes, Beneath, WithinSome, ListedAll;
    var e, v, n := es[0], [es[0]] + below + rest, 1 + |below|;
    assert forall k :: 1 <= k < n ==> v[k] == below[k - 1] && v[k] in below;
    assert forall k :: n <= k < |v| ==> v[k] == rest[k - n] && v[k] in rest;
    if i < n {
      InFirst(nodes, files, home, depth, d, e, below, v[i], v[j].inode, i == 0);
      if j >= n { RestIsApart(nodes, files, home, depth, d, es, v[j].inode); }
      if j == 0 { NotBelowItself(nodes, files, home, depth, d, e, e); }
      assert Visits(below, v[j].inode) && 1 <= j < n;
      if i == 0 {
        forall k | 0 < k < j ensures Beneath(nodes, depth, home, e.inode, v[k].inode) {
          assert Visits(below, v[k].inode);
        }
      } else {
        NestedAt(nodes, depth, home, below, i - 1, j - 1);
      }
    } else {
      InRest(nodes, files, home, depth, d, es, v[i], v[j].inode, rest);
      if j < n {
        PartOfFirst(nodes, depth, home, e, below, v[j]);
        RestIsApart(nodes, files, home, depth, d, es, v[j].inode);
        assert false;
      }
      NestedAt(nodes, depth, home, rest, i - n, j - n);
    }
  }

  lemma NestedAt(nodes: Nodes, depth: map<iptr, nat>, home: map<iptr, iptr>, v: seq<Entry>, i: nat, j: nat)
    requires Ranked(nodes, depth) && Nested(nodes, depth, home, v) && i < |v| && j < |v| && v[i].kind == ITYPE_DIR
    requires Beneath(nodes, depth, home, v[i].inode, v[j].inode)
    ensures i < j && forall k :: i < k < j ==> Beneath(nodes, depth, home, v[i].inode, v[k].inode)
  {
  }

  /** What lies beneath the first entry, or beneath something beneath it, lies beneath it. */
  lemma InFirst(nodes: Nodes, files: set<iptr>, home: map<iptr, iptr>, depth: map<iptr, nat>, d: iptr, e: Entry,
          below: seq<Entry>, a: Entry, x: iptr, first: bool)
    requires TreeBy(nodes, files, home, depth) && Ranked(nodes, depth) && Lists(nodes, d, e)
    requires ListedAll(nodes, home, below) && a.kind == ITYPE_DIR && Beneath(nodes, depth, home, a.inode, x)
    requires if first then a == e else a in below
    requires forall i: iptr :: Visits(below, i) <==> e.kind == ITYPE_DIR && Beneath(nodes, depth, home, e.inode, i)
    ensures e.kind == ITYPE_DIR && Beneath(nodes, depth, home, e.inode, x) && Visits(below, x)
    ensures Within(nodes, depth, home, e, x)
  {
    if !first {
      assert Visits(below, a.inode);
      ChildDeeper(nodes, files, home, depth, home[a.inode], a);
      BeneathTrans(nodes, files, home, depth, e.inode, a.inode, x);
    }
  }

  /** What lies beneath something of the rest is within the rest. */
  lemma InRest(nodes: Nodes, files: set<iptr>, home: map<iptr, iptr>, depth: map<iptr, nat>, d: iptr, es: seq<Entry>,
          a: Entry, x: iptr, rest: seq<Entry>)
    requires TreeBy(nodes, files, home, depth) && Ranked(nodes, depth) && es != [] && EntriesIn(nodes, d, es)
    requires ListedAll(nodes, home, rest) && a in rest && a.kind == ITYPE_DIR && Beneath(nodes, depth, home, a.inode, x)
    requires forall i: iptr :: Visits(rest, i) <==> WithinSome(nodes, depth, home, es[1..], i)
    ensures WithinSome(nodes, depth, home, es[1..], x)
  {
    assert Visits(rest, a.inode);
    var c :| c in es[1..] && Within(nodes, depth, home, c, a.inode);
    ChildDeeper(nodes, files, home, depth, home[a.inode], a);
    if c.inode != a.inode {
      BeneathTrans(nodes, files, home, depth, c.inode, a.inode, x);
    } else {
      assert DirOk(nodes, files, home, d) && EntryOk(nodes, files, home, d, c);
    }
    assert Within(nodes, depth, home, c, x);
  }

  lemma PartOfFirst(nodes: Nodes, depth: map<iptr, nat>, home: map<iptr, iptr>, e: Entry, below: seq<Entry>, a: Entry)
    requires Ranked(nodes, depth) && (a == e || a in below)
    requires forall i: iptr :: Visits(below, i) <==> e.kind == ITYPE_DIR && Beneath(nodes, depth, home, e.inode, i)
    ensures Within(nodes, depth, home, e, a.inode)
  {
    if a in below { assert Visits(below, a.inode); }
  }

  /** The order of treedir: a directory's records stand in their order, every entry is one of the tree, and what lies
      beneath a directory follows it directly. */
  lemma TreeInOrder(nodes: Nodes, files: set<iptr>, home: map<iptr, iptr>, depth: map<iptr, nat>, bound: nat, d: iptr)
    requires TreeBy(nodes, files, home, depth) && Bounded(nodes, depth, bound) && d in nodes
    ensures var l := Listing(nodes, depth, bound, d, nodes[d].children);
            && (forall e :: e in l ==> e.inode in home && Lists(nodes, home[e.inode], e))
            && (forall x :: x in nodes && Under(nodes, depth, d, x) ==> ListedIn(home, x, l) == nodes[x].children)
            && Nested(nodes, depth, home, l)
  {
    assert DirOk(nodes, files, home, d);
    var l := Listing(nodes, depth, bound, d, nodes[d].children);
    ListingListed(nodes, files, home, depth, bound, d, nodes[d].children);
    ListingNested(nodes, files, home, depth, bound, d, nodes[d].children);
    forall x | x in nodes && Under(nodes, depth, d, x) ensures ListedIn(home, x, l) == nodes[x].children {
      ListingInOrder(nodes, files, home, depth, bound, d, nodes[d].children, x);
      BelowAgain(nodes, files, home, depth, d, x);
    }
  }

  // ---- the loop of treedir ----

  /** The entries but "." and "..", which treedir skips. */
  function Proper(es: seq<Entry>): seq<Entry> {
    Without(Without(es, DOT), DOTDOT)
  }

  lemma ProperHead(e: Entry, rest: seq<Entry>)
    ensures Proper([e] + rest) == (if e.name == DOT || e.name == DOTDOT then [] else [e]) + Proper(rest)
  {
    WithoutFirst(e, rest, DOT);
    if e.name != DOT { WithoutFirst(e, Without(rest, DOT), DOTDOT); }
  }

  lemma WithoutFirst(e: Entry, rest: seq<Entry>, name: seq<byte>)
    ensures Without([e] + rest, name) == (if e.name == name then [] else [e]) + Without(rest, name)
  {
    assert ([e] + rest)[1..] == rest;
  }

  lemma ProperOfAll(nodes: Nodes, files: set<iptr>, home: map<iptr, iptr>, depth: map<iptr, nat>, d: iptr)
    requires TreeBy(nodes, files, home, depth) && d in nodes
    ensures Proper(AllEntries(nodes, d)) == nodes[d].children
  {
    var es := nodes[d].children;
    forall e | e in es ensures e.name != DOT && e.name != DOTDOT {
      assert DirOk(nodes, files, home, d) && EntryOk(nodes, files, home, d, e);
    }
    WithoutAbsent(es, DOT);
    WithoutAbsent(es, DOTDOT);
    DotsGone(Entry(d, ITYPE_DIR, DOT), Entry(nodes[d].parent, ITYPE_DIR, DOTDOT), es);
  }

  lemma DotsGone(a: Entry, b: Entry, es: seq<Entry>)
    requires a.name == DOT && b.name == DOTDOT
    ensures Proper([a, b] + es) == Proper(es)
  {
    assert [a, b] + es == [a] + ([b] + es);
    ProperHead(a, [b] + es);
    ProperHead(b, es);
  }

  /** One round: an entry is skipped, or listed together with everything below it. */
  lemma ListingRound(nodes: Nodes, depth: map<iptr, nat>, bound: nat, d: iptr, e: Entry, rest: seq<Entry>)
    requires Bounded(nodes, depth, bound) && EntriesIn(nodes, d, Proper([e] + rest))
    ensures EntriesIn(nodes, d, Proper(rest))
    ensures e.name == DOT || e.name == DOTDOT ==>
              Listing(nodes, depth, bound, d, Proper([e] + rest)) == Listing(nodes, depth, bound, d, Proper(rest))
    ensures e.name != DOT && e.name != DOTDOT ==>
              && Lists(nodes, d, e)
              && (e.kind == ITYPE_DIR ==> e.inode in nodes && EntriesIn(nodes, e.inode, nodes[e.inode].children))
              && Listing(nodes, depth, bound, d, Proper([e] + rest)) ==
                 [e] + (if e.kind == ITYPE_DIR then Listing(nodes, depth, bound, e.inode, nodes[e.inode].children)
                   else [])
                 + Listing(nodes, depth, bound, d, Proper(rest))
  {
    ProperHead(e, rest);
    var p := Proper(rest);
    if e.name != DOT && e.name != DOTDOT {
      assert Proper([e] + rest) == [e] + p && ([e] + p)[1..] == p;
      assert e in [e] + p;
    } else {
      assert Proper([e] + rest) == p;
    }
  }
}
