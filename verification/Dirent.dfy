/** Directory records (dir_entry in include/fs.h; built in src/fs.c:547-554, 586-591, 643-650, 726-733):
    4-aligned, variable-length records packed from the start of a block, ending exactly at the
    directory's size. */
module Dirent {
  import opened Params
  import opened LittleEndian
  import opened Layout

  datatype Entry = Entry(inode: u32, kind: byte, name: seq<byte>)

  const DOT: seq<byte> := [46]
  const DOTDOT: seq<byte> := [46, 46]

  /** A path component: 1..255 bytes, no NUL, no slash. */
  predicate ValidName(n: seq<byte>) {
    1 <= |n| <= 255 && 0 !in n && 47 !in n
  }

  /** entry_len of a name of n bytes: padded by 1..4 bytes, never by none. */
  function EntryLen(n: nat): (l: nat)
    ensures n + 8 < l <= n + 12 && l % 4 == 0
  {
    n + 8 + (4 - (n + 8) % 4)
  }

  function Record(e: Entry): (r: seq<byte>)
    requires |e.name| <= 255
    ensures |r| == 8 + |e.name|
  {
    Enc32(e.inode) + Enc16(EntryLen(|e.name|)) + [|e.name|] + [e.kind] + e.name
  }

  /** Where the fields of dir_entry stand: inode, entry_len, name_len, file_type, name. */
  lemma RecordLayout(e: Entry)
    requires |e.name| <= 255
    ensures var r := Record(e);
            && Le32(r, 0) == e.inode && Le16(r, 4) == EntryLen(|e.name|) && r[6] == |e.name| && r[7] == e.kind
            && r[8..] == e.name
  {
    var r := Record(e);
    Enc32RoundTrip(e.inode);
    Enc16RoundTrip(EntryLen(|e.name|));
    assert r[0] == Enc32(e.inode)[0] && r[1] == Enc32(e.inode)[1] && r[2] == Enc32(e.inode)[2]
           && r[3] == Enc32(e.inode)[3];
    assert r[4] == Enc16(EntryLen(|e.name|))[0] && r[5] == Enc16(EntryLen(|e.name|))[1];
  }

  /** Write a record at i; the padding keeps what it held. */
  function PutRecord(b: seq<byte>, i: nat, e: Entry): (r: seq<byte>)
    requires |e.name| <= 255 && i + EntryLen(|e.name|) <= |b|
    ensures |r| == |b|
  {
    b[..i] + Record(e) + b[i + 8 + |e.name|..]
  }

  predicate RecordAt(b: seq<byte>, i: nat, size: nat)
    requires size <= |b|
  {
    && i + 8 <= size
    && Le16(b, i + 4) == EntryLen(b[i + 6])
    && i + EntryLen(b[i + 6]) <= size
    && ValidName(b[i + 8..i + 8 + b[i + 6]])
  }

  function EntryAt(b: seq<byte>, i: nat): Entry
    requires i + 8 <= |b| && i + 8 + b[i + 6] <= |b|
  {
    Entry(Le32(b, i), b[i + 7], b[i + 8..i + 8 + b[i + 6]])
  }

  /** From i on, the bytes are records that end exactly at size. */
  predicate Chain(b: seq<byte>, i: nat, size: nat)
    requires size <= |b|
    decreases size - i
  {
    if i >= size then i == size
    else RecordAt(b, i, size) && Chain(b, i + EntryLen(b[i + 6]), size)
  }

  function Parse(b: seq<byte>, i: nat, size: nat): seq<Entry>
    requires size <= |b| && Chain(b, i, size)
    decreases size - i
  {
    if i >= size then []
    else [EntryAt(b, i)] + Parse(b, i + EntryLen(b[i + 6]), size)
  }

  function TotalLen(es: seq<Entry>): nat {
    if es == [] then 0 else EntryLen(|es[0].name|) + TotalLen(es[1..])
  }

  /** Records written one after the other into a zeroed block. */
  function Pack(es: seq<Entry>): (b: seq<byte>)
    requires forall e :: e in es ==> |e.name| <= 255
    requires TotalLen(es) <= BLOCK_SIZE
    ensures |b| == BLOCK_SIZE
  {
    if es == [] then ZeroBytes(BLOCK_SIZE)
    else
      var n := |es| - 1;
      TotalLenSnoc(es[..n], es[n]);
      assert es[..n] + [es[n]] == es;
      PutRecord(Pack(es[..n]), TotalLen(es[..n]), es[n])
  }

  /** First entry of that name. */
  function Find(es: seq<Entry>, name: seq<byte>): (r: Option<Entry>)
    ensures r.Some? ==> r.value in es && r.value.name == name
    ensures r.None? <==> forall e :: e in es ==> e.name != name
  {
    if es == [] then None
    else if es[0].name == name then Some(es[0])
    else Find(es[1..], name)
  }

  /** The list without the entries of that name. */
  function Without(es: seq<Entry>, name: seq<byte>): (r: seq<Entry>)
    ensures forall e :: e in r <==> e in es && e.name != name
  {
    if es == [] then []
    else if es[0].name == name then Without(es[1..], name)
    else [es[0]] + Without(es[1..], name)
  }

  // ---- lengths ----

  lemma {:induction false} TotalLenSnoc(es: seq<Entry>, e: Entry)
    ensures TotalLen(es + [e]) == TotalLen(es) + EntryLen(|e.name|)
  {
    if es == [] {
      assert [e][1..] == [];
    } else {
      TotalLenSnoc(es[1..], e);
      assert (es + [e])[1..] == es[1..] + [e];
    }
  }

  lemma TotalLenHead(e: Entry, rest: seq<Entry>)
    ensures TotalLen([e] + rest) == EntryLen(|e.name|) + TotalLen(rest)
  {
    assert ([e] + rest)[1..] == rest;
  }

  lemma TotalLenNone()
    ensures TotalLen([]) == 0
  {
  }

  /** The chain's length is the sum of its records' lengths: a scan that finds nothing stops at size. */
  lemma {:induction false} ChainLength(b: seq<byte>, i: nat, size: nat)
    requires size <= |b| && Chain(b, i, size)
    ensures i + TotalLen(Parse(b, i, size)) == size
    ensures forall e :: e in Parse(b, i, size) ==> ValidName(e.name)
    decreases size - i
  {
    hide EntryLen, Le16, Le32, ValidName, TotalLen;
    TotalLenNone();
    if i < size {
      var j := i + EntryLen(b[i + 6]);
      ChainLength(b, j, size);
      TotalLenHead(EntryAt(b, i), Parse(b, j, size));
    }
  }

  // ---- reading back ----

  lemma RecordRoundTrip(b: seq<byte>, i: nat, e: Entry)
    requires ValidName(e.name) && i + EntryLen(|e.name|) <= |b|
    ensures var r := PutRecord(b, i, e);
            RecordAt(r, i, i + EntryLen(|e.name|)) && r[i + 6] == |e.name| && EntryAt(r, i) == e
  {
    var r, c, n := PutRecord(b, i, e), Record(e), |e.name|;
    assert forall k :: 0 <= k < 8 + n ==> r[i + k] == c[k];
    var e4, e2 := Enc32(e.inode), Enc16(EntryLen(n));
    assert c[0] == e4[0] && c[1] == e4[1] && c[2] == e4[2] && c[3] == e4[3];
    assert c[4] == e2[0] && c[5] == e2[1] && c[6] == n && c[7] == e.kind;
    Enc32RoundTrip(e.inode);
    Enc16RoundTrip(EntryLen(n));
    assert r[i + 8..i + 8 + n] == e.name;
  }

  lemma ChainStep(b: seq<byte>, i: nat, size: nat)
    requires i < size <= |b| && RecordAt(b, i, size) && Chain(b, i + EntryLen(b[i + 6]), size)
    ensures Chain(b, i, size)
    ensures Parse(b, i, size) == [EntryAt(b, i)] + Parse(b, i + EntryLen(b[i + 6]), size)
  {
  }

  lemma RecordAgrees(b: seq<byte>, c: seq<byte>, i: nat, size: nat)
    requires size <= |b| && size <= |c| && RecordAt(b, i, size)
    requires forall k :: i <= k < size ==> b[k] == c[k]
    ensures c[i + 6] == b[i + 6] && RecordAt(c, i, size) && EntryAt(c, i) == EntryAt(b, i)
  {
    assert c[i + 8..i + 8 + c[i + 6]] == b[i + 8..i + 8 + b[i + 6]];
    assert Le32(c, i) == Le32(b, i);
    assert Le16(c, i + 4) == Le16(b, i + 4);
  }

  /** Records depend on nothing outside [i, size). */
  lemma {:induction false} ChainAgrees(b: seq<byte>, c: seq<byte>, i: nat, size: nat)
    requires size <= |b| && size <= |c| && Chain(b, i, size)
    requires forall k :: i <= k < size ==> b[k] == c[k]
    ensures Chain(c, i, size) && Parse(c, i, size) == Parse(b, i, size)
    decreases size - i
  {
    if i < size {
      RecordAgrees(b, c, i, size);
      ChainAgrees(b, c, i + EntryLen(b[i + 6]), size);
      ChainStep(c, i, size);
    }
  }

  lemma ChainUnstep(b: seq<byte>, i: nat, mid: nat, size: nat) returns (j: nat)
    requires i < mid <= size <= |b| && Chain(b, i, mid)
    ensures i < j <= mid && RecordAt(b, i, size) && j == i + EntryLen(b[i + 6])
    ensures Chain(b, j, mid) && Parse(b, i, mid) == [EntryAt(b, i)] + Parse(b, j, mid)
  {
    j := i + EntryLen(b[i + 6]);
  }

  lemma JoinSeqs(full: seq<Entry>, x: seq<Entry>, pq: seq<Entry>, p: seq<Entry>, q: seq<Entry>, xp: seq<Entry>)
    requires full == x + pq && pq == p + q && xp == x + p
    ensures full == xp + q
  {
  }

  lemma {:induction false} ChainConcat(b: seq<byte>, i: nat, mid: nat, size: nat)
    requires mid <= size <= |b| && Chain(b, i, mid) && Chain(b, mid, size)
    ensures Chain(b, i, size) && Parse(b, i, size) == Parse(b, i, mid) + Parse(b, mid, size)
    decreases mid - i
  {
    if i < mid {
      var j := ChainUnstep(b, i, mid, size);
      ChainConcat(b, j, mid, size);
      ChainStep(b, i, size);
      JoinSeqs(Parse(b, i, size), [EntryAt(b, i)], Parse(b, j, size), Parse(b, j, mid), Parse(b, mid, size),
        Parse(b, i, mid));
    } else {
      assert Parse(b, i, mid) == [];
    }
  }

  lemma ParseOne(b: seq<byte>, i: nat, size: nat)
    requires size <= |b| && RecordAt(b, i, size) && i + EntryLen(b[i + 6]) == size
    ensures Chain(b, i, size) && Parse(b, i, size) == [EntryAt(b, i)]
  {
    assert Chain(b, size, size) && Parse(b, size, size) == [];
  }

  /** Appending a record at the end of the chain appends its entry to the list. */
  lemma ParseAppend(b: seq<byte>, i: nat, size: nat, e: Entry)
    requires size + EntryLen(|e.name|) <= |b| && Chain(b, i, size) && ValidName(e.name)
    ensures var r, end := PutRecord(b, size, e), size + EntryLen(|e.name|);
            Chain(r, i, end) && Parse(r, i, end) == Parse(b, i, size) + [e]
  {
    var r, end := PutRecord(b, size, e), size + EntryLen(|e.name|);
    ChainAgrees(b, r, i, size);
    RecordRoundTrip(b, size, e);
    ParseOne(r, size, end);
    ChainConcat(r, i, size, end);
  }

  /** Packing and parsing are inverse. */
  lemma {:induction false} PackRoundTrip(es: seq<Entry>)
    requires forall e :: e in es ==> ValidName(e.name)
    requires TotalLen(es) <= BLOCK_SIZE
    ensures forall e :: e in es ==> |e.name| <= 255
    ensures Chain(Pack(es), 0, TotalLen(es)) && Parse(Pack(es), 0, TotalLen(es)) == es
  {
    if es != [] {
      var n := |es| - 1;
      var front, last := es[..n], es[n];
      assert front + [last] == es;
      TotalLenSnoc(front, last);
      PackRoundTrip(front);
      PackSnoc(front, last);
      ParseAppend(Pack(front), 0, TotalLen(front), last);
    }
  }

  lemma PackSnoc(front: seq<Entry>, last: Entry)
    requires |last.name| <= 255 && forall e :: e in front ==> |e.name| <= 255
    requires TotalLen(front) + EntryLen(|last.name|) <= BLOCK_SIZE
    ensures TotalLen(front + [last]) == TotalLen(front) + EntryLen(|last.name|)
    ensures Pack(front + [last]) == PutRecord(Pack(front), TotalLen(front), last)
  {
    TotalLenSnoc(front, last);
    var es := front + [last];
    assert es[..|es| - 1] == front && es[|es| - 1] == last;
  }

  // ---- finding and removing ----

  predicate UniqueNames(es: seq<Entry>) {
    forall j, k :: 0 <= j < k < |es| ==> es[j].name != es[k].name
  }

  predicate UniqueInodes(es: seq<Entry>) {
    forall j, k :: 0 <= j < k < |es| ==> es[j].inode != es[k].inode
  }

  lemma UniqueHead(es: seq<Entry>)
    requires es != []
    ensures UniqueNames(es) <==> UniqueNames(es[1..]) && forall f :: f in es[1..] ==> f.name != es[0].name
    ensures UniqueInodes(es) <==> UniqueInodes(es[1..]) && forall f :: f in es[1..] ==> f.inode != es[0].inode
  {
    var t := es[1..];
    assert forall k :: 0 <= k < |t| ==> t[k] == es[k + 1];
    assert forall k :: 1 <= k < |es| ==> es[k] == t[k - 1] && es[k] in t;
  }

  /** Removing a name keeps names and inodes unique, and shortens the records by exactly that record. */
  lemma {:induction false} WithoutUnique(es: seq<Entry>, name: seq<byte>)
    requires UniqueNames(es)
    ensures UniqueNames(Without(es, name))
    ensures UniqueInodes(es) ==> UniqueInodes(Without(es, name))
    ensures TotalLen(Without(es, name)) == TotalLen(es) - if Find(es, name).Some? then EntryLen(|name|) else 0
  {
    if es != [] {
      UniqueHead(es);
      WithoutUnique(es[1..], name);
      if es[0].name == name {
        WithoutAbsent(es[1..], name);
      } else {
        var w := Without(es[1..], name);
        assert ([es[0]] + w)[1..] == w;
        UniqueHead([es[0]] + w);
      }
    }
  }

  lemma {:induction false} WithoutAbsent(es: seq<Entry>, name: seq<byte>)
    requires forall e :: e in es ==> e.name != name
    ensures Without(es, name) == es
  {
    if es != [] { WithoutAbsent(es[1..], name); }
  }

  lemma {:induction false} WithoutSnoc(es: seq<Entry>, e: Entry, name: seq<byte>)
    ensures Without(es + [e], name) == Without(es, name) + if e.name == name then [] else [e]
  {
    if es == [] {
      assert es + [e] == [e] && [e][1..] == [];
    } else {
      var rest := es[1..];
      WithoutSnoc(rest, e, name);
      assert (es + [e])[1..] == rest + [e] && (es + [e])[0] == es[0];
    }
  }

  /** Appending a new name and then removing it gives the list back. */
  lemma WithoutUndoesAppend(es: seq<Entry>, e: Entry)
    requires Find(es, e.name).None?
    ensures Without(es + [e], e.name) == es
  {
    WithoutSnoc(es, e, e.name);
    WithoutAbsent(es, e.name);
  }

  lemma {:induction false} FindUnique(es: seq<Entry>, e: Entry)
    requires UniqueNames(es) && e in es
    ensures Find(es, e.name) == Some(e)
  {
    if es[0] != e {
      assert es[1..] == es[1..];
      var k :| 0 <= k < |es| && es[k] == e;
      assert es[1..][k - 1] == e;
      FindUnique(es[1..], e);
    }
  }
}
