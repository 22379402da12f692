/** Cache and disk: what a later open of the same file sees (src/fs.c:775-785, 853-854, 888-891). */
module Coherence {
  import opened Params
  import opened Layout
  import opened BlockMap
  import opened Allocator
  import opened Growth
  import opened Volume
  import opened VolumeOps
  import opened OpenFile
  import opened FileOps

  /** The descriptor that cnopen fills in for inode i: cursor 0, the whole file read from disk. */
  function Opened(m: Meta, i: iptr, mode: nat): FdEntry
    requires Shape(m.disk) && i < INODE_COUNT
    requires Mapped(InodeAt(m.disk, i)) && InData(BlockList(m.disk, InodeAt(m.disk, i)))
  {
    FdEntry(mode, i, InodeAt(m.disk, i), 0, Load(m.disk, InodeAt(m.disk, i)))
  }

  /** Inode i is a live file of the volume. */
  ghost predicate IsFile(m: Meta, i: iptr) {
    MetaOk(m) && i in Live(m) && i < INODE_COUNT && InodeAt(m.disk, i).kind == ITYPE_FILE
  }

  lemma FileMapped(m: Meta, i: iptr)
    requires IsFile(m, i)
    ensures WellMapped(m.disk, InodeAt(m.disk, i)) && InData(BlockList(m.disk, InodeAt(m.disk, i)))
  {
    LiveOwnsUsed(m, i);
    OwnedParts(m.disk, InodeAt(m.disk, i));
  }

  lemma OpenedOk(m: Meta, i: iptr, mode: nat)
    requires IsFile(m, i)
    ensures WellMapped(m.disk, InodeAt(m.disk, i)) && InData(BlockList(m.disk, InodeAt(m.disk, i)))
    ensures FdOk(m, Opened(m, i, mode)) && Coherent(m, Opened(m, i, mode))
  {
    FileMapped(m, i);
  }

  /** An operation that leaves the file alone leaves its descriptor in order, and coherent if it was. */
  lemma DescriptorKept(m: Meta, r: Meta, f: FdEntry)
    requires Sized(m) && Sized(r) && FdOk(m, f) && f.inodeId in Live(r) && SameView(m.disk, r.disk, f.inodeId)
    ensures FdOk(r, f)
    ensures Coherent(m, f) ==> Coherent(r, f)
  {
    hide SizeOk;
    if Coherent(m, f) { KeptLoad(m, r, f); }
  }

  lemma KeptLoad(m: Meta, r: Meta, f: FdEntry)
    requires Sized(m) && Sized(r) && FdOk(m, f) && SameView(m.disk, r.disk, f.inodeId) && Coherent(m, f)
    ensures Coherent(r, f)
  {
    assert InodeAt(r.disk, f.inodeId) == f.inode;
    assert InodeOk(r.disk, f.inodeId);
  }

  /** Close then reopen yields the same bytes while cache and disk agree, whatever the file's map. */
  lemma ReopenReadsBack(m: Meta, f: FdEntry, mode: nat)
    requires IsFile(m, f.inodeId) && FdOk(m, f) && Coherent(m, f)
    ensures Mapped(InodeAt(m.disk, f.inodeId)) && InData(BlockList(m.disk, InodeAt(m.disk, f.inodeId)))
    ensures FdOk(m, Opened(m, f.inodeId, mode)) && f.inode.size <= |f.data|
    ensures Opened(m, f.inodeId, mode).data == f.data && Text(Opened(m, f.inodeId, mode)) == Text(f)
  {
    OpenedOk(m, f.inodeId, mode);
    FdMapped(m, f);
  }

  predicate AllZero(s: seq<byte>) {
    forall k :: 0 <= k < |s| ==> s[k] == 0
  }

  lemma ContentSplit(d: Image, e: Image, l: seq<iptr>, added: seq<iptr>, all: seq<iptr>)
    requires Shape(d) && Shape(e) && InData(all) && all == l + added
    requires forall b :: b in all ==> e[b] == d[b]
    ensures InData(l) && InData(added) && Content(e, all) == Content(d, l) + Content(d, added)
  {
    assert forall k :: 0 <= k < |l| ==> l[k] == all[k];
    assert forall k :: 0 <= k < |added| ==> added[k] == all[|l| + k];
    ContentAgrees(d, e, all);
    ContentConcat(d, l, added);
  }

  /** What the disk shows of a file that was stretched but not written: its old blocks, then whatever the
      added ones held. */
  lemma StretchedLoad(m: Meta, f: FdEntry, r: Meta, f': FdEntry, added: seq<iptr>, required: nat)
    requires Sized(m) && Sized(r) && Stretched(m, f, r, f', added, required)
    ensures InData(added) && InData(BlockList(r.disk, f'.inode)) && InData(BlockList(m.disk, f.inode))
    ensures Load(r.disk, f'.inode) == Load(m.disk, f.inode) + Content(m.disk, added)
  {
    OwnedParts(r.disk, f'.inode);
    OwnedParts(m.disk, f.inode);
    hide WellMapped;
    ContentSplit(m.disk, r.disk, BlockList(m.disk, f.inode), added, BlockList(r.disk, f'.inode));
  }

  /** All that a growing seek will put on show from the disk: the file's blocks and those it is about to take. */
  ghost function Shown(m: Meta, f: FdEntry, required: nat): seq<byte>
    requires Sized(m) && Mapped(f.inode) && InData(BlockList(m.disk, f.inode))
    requires InData(AddedBlocks(m, f.inode, BlocksFor(required)))
  {
    Load(m.disk, f.inode) + Content(m.disk, AddedBlocks(m, f.inode, BlocksFor(required)))
  }

  /** A seek that grows the file writes no data. Its own cache shows the old text and zeros. Closing and reopening
      shows the same exactly when before the seek the disk held that text, and zeros from there on in the file's
      blocks and in the free blocks next in turn. */
  lemma SeekSurvivesReopen(m: Meta, f: FdEntry, r: Meta, f': FdEntry, required: nat, mode: nat)
    requires CanExtend(m, f, required) && f.inode.size < required && Resized(m, f, required, r, f')
    ensures Sized(m) && Mapped(f.inode) && InData(BlockList(m.disk, f.inode)) && f.inode.size <= |f.data|
    ensures InData(AddedBlocks(m, f.inode, BlocksFor(required))) && required <= |Shown(m, f, required)|
    ensures Sized(r) && FdOk(r, f') && f'.inode.size <= |f'.data|
            && Text(f') == Text(f) + ZeroBytes(required - f.inode.size)
    ensures Mapped(InodeAt(r.disk, f.inodeId)) && InData(BlockList(r.disk, InodeAt(r.disk, f.inodeId)))
    ensures FdOk(r, Opened(r, f.inodeId, mode))
    ensures Text(Opened(r, f.inodeId, mode)) == Text(f') <==>
            Shown(m, f, required)[..f.inode.size] == Text(f) && AllZero(Shown(m, f, required)[f.inode.size..required])
  {
    hide IsFile, FdOk, CanExtend, Resized, OthersKept, ExtendedTo, Stretched, MetaOk, Load, Content, Opened,
         AddedBlocks, Mapped, InData;
    var added := StretchedBy(m, f, r, f', required);
    StretchedText(m, f, r, f', added, required);
    StretchedOpened(m, f, r, f', added, required, mode);
    TextsAgree(f, Shown(m, f, required), Text(f'), required);
  }

  /** What a growth did, in terms of the state before it. */
  lemma StretchedBy(m: Meta, f: FdEntry, r: Meta, f': FdEntry, required: nat) returns (added: seq<iptr>)
    requires CanExtend(m, f, required) && f.inode.size < required && Resized(m, f, required, r, f')
    ensures Sized(m) && Sized(r) && MetaOk(r) && FdOk(r, f') && IsFile(r, f.inodeId)
    ensures Stretched(m, f, r, f', added, required) && added == AddedBlocks(m, f.inode, BlocksFor(required))
  {
    hide FdOk, OthersKept, Grown, MetaOk, Stretched;
    var m1, n1, a, taken :| ExtendSteps(m, f, required, m1, n1, a, taken, r, f');
    added := a;
    MetaSized(m);
    ExtendOk(m, f, required, m1, n1, a, taken, r, f');
    OthersKeptOk(m, r, f.inodeId);
    MetaSized(r);
    GrownAdds(m, f.inode.(size := required), m1, n1, a, taken, BlocksFor(required));
    FdIsFile(r, f');
    StretchedSameId(m, f, r, f', added, required);
  }

  lemma FdIsFile(r: Meta, f: FdEntry)
    requires MetaOk(r) && Sized(r) && FdOk(r, f)
    ensures IsFile(r, f.inodeId)
  {
    hide MetaOk;
  }

  lemma StretchedSameId(m: Meta, f: FdEntry, r: Meta, f': FdEntry, added: seq<iptr>, required: nat)
    requires Sized(m) && Sized(r) && Stretched(m, f, r, f', added, required)
    ensures f'.inodeId == f.inodeId
  {
  }

  lemma StretchedText(m: Meta, f: FdEntry, r: Meta, f': FdEntry, added: seq<iptr>, required: nat)
    requires Sized(m) && Sized(r) && Stretched(m, f, r, f', added, required)
    ensures f.inode.size <= |f.data| && f.inode.size <= required == f'.inode.size <= |f'.data|
    ensures Text(f') == Text(f) + ZeroBytes(required - f.inode.size)
  {
  }

  lemma StretchedOpened(m: Meta, f: FdEntry, r: Meta, f': FdEntry, added: seq<iptr>, required: nat, mode: nat)
    requires Sized(m) && IsFile(r, f.inodeId) && FdOk(r, f') && Stretched(m, f, r, f', added, required)
    ensures InData(added) && Mapped(f.inode) && InData(BlockList(m.disk, f.inode))
    ensures Mapped(InodeAt(r.disk, f.inodeId)) && InData(BlockList(r.disk, InodeAt(r.disk, f.inodeId)))
    ensures FdOk(r, Opened(r, f.inodeId, mode)) && Opened(r, f.inodeId, mode).inode.size == required
    ensures Opened(r, f.inodeId, mode).data == Load(m.disk, f.inode) + Content(m.disk, added)
    ensures required <= |Load(m.disk, f.inode) + Content(m.disk, added)|
  {
    StretchedLoad(m, f, r, f', added, required);
    OpenedOk(r, f.inodeId, mode);
    hide IsFile, WellMapped, Load, Coherent, Content;
    SizeFits(f'.inode, 0);
  }

  lemma TextsAgree(f: FdEntry, shown: seq<byte>, text: seq<byte>, required: nat)
    requires f.inode.size <= |f.data| && f.inode.size <= required <= |shown|
    requires text == Text(f) + ZeroBytes(required - f.inode.size)
    ensures shown[..required] == text <==> shown[..f.inode.size] == Text(f) && AllZero(shown[f.inode.size..required])
  {
    var size := f.inode.size;
    assert shown[..required][..size] == shown[..size] && text[..size] == Text(f);
    ZerosAgree(shown, size, required);
  }

  lemma ZerosAgree(s: seq<byte>, size: nat, required: nat)
    requires size <= required <= |s|
    ensures s[..required] == s[..size] + ZeroBytes(required - size) <==> AllZero(s[size..required])
  {
    assert s[..required] == s[..size] + s[size..required];
    var z := s[..size] + ZeroBytes(required - size);
    if s[..required] == z {
      forall k | 0 <= k < required - size ensures s[size..required][k] == 0 {
        assert s[..required][size + k] == z[size + k];
      }
    }
  }
}
