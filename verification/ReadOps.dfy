/** cnread (src/fs.c:811-831): a read stops one byte short of the end, and its bound wraps at the end. */
module ReadOps {
  import opened Params
  import opened OpenFile

  /** size - (cursor + 1) in 32-bit arithmetic. */
  function ReadBound(f: FdEntry): nat {
    (f.inode.size - (f.cursor + 1)) % TWO32
  }

  function ReadLen(f: FdEntry, bytes: nat): nat {
    if bytes > ReadBound(f) then ReadBound(f) else bytes
  }

  /** The read copies from the cache, or nothing; the source does not check that it stays inside. */
  predicate ReadFits(f: FdEntry, bytes: nat) {
    ReadLen(f, bytes) == 0 || f.cursor + ReadLen(f, bytes) <= |f.data|
  }

  /** What a reader of a file of that size expects: up to `bytes` bytes from the cursor to the end. */
  function Expected(f: FdEntry, bytes: nat): seq<byte>
    requires f.inode.size <= |f.data|
  {
    if f.cursor > f.inode.size then []
    else if f.cursor + bytes <= f.inode.size then Text(f)[f.cursor..f.cursor + bytes] else Text(f)[f.cursor..]
  }

  function Delivered(f: FdEntry, bytes: nat): seq<byte>
    requires ReadFits(f, bytes)
  {
    if ReadLen(f, bytes) == 0 then [] else f.data[f.cursor..f.cursor + ReadLen(f, bytes)]
  }

  /** Where the bound wraps: at the end of the file, and beyond it, where a read at the end leaves the cursor. */
  lemma BoundWraps(f: FdEntry)
    requires f.inode.size <= f.cursor < TWO32
    ensures f.cursor + ReadBound(f) == f.inode.size + TWO32 - 1
  {
  }

  /** The copy stays inside the cache exactly when the cursor is below the size, or nothing is asked for, or the cache
      goes on long enough. In particular nothing can be read of an empty file, which has no cache. (At the last 32-bit
      cursor of an empty file the bound wraps to 0 and the copy is empty.) */
  lemma ReadFitsWhen(f: FdEntry, bytes: nat)
    requires f.inode.size <= |f.data| < TWO32 - 1 && f.cursor < TWO32
    ensures ReadFits(f, bytes) <==>
            f.cursor < f.inode.size || bytes == 0 || f.cursor + bytes <= |f.data|
              || f.cursor == f.inode.size + TWO32 - 1
  {
    if f.cursor >= f.inode.size { BoundWraps(f); }
  }

  lemma SliceOfPrefix(data: seq<byte>, size: nat, a: nat, b: nat)
    requires a <= b <= size <= |data|
    ensures data[..size][a..b] == data[a..b]
  {
  }

  /** A read stays inside the cache and delivers what is expected exactly when it is empty or ends strictly before
      the last byte. */
  lemma ReadIsExpected(f: FdEntry, bytes: nat)
    requires f.inode.size <= |f.data| < TWO32 - 1 && f.cursor < TWO32
    ensures ReadFits(f, bytes) && Delivered(f, bytes) == Expected(f, bytes) <==>
            bytes == 0 || f.cursor + bytes < f.inode.size || f.cursor == f.inode.size + TWO32 - 1
  {
    ReadFitsWhen(f, bytes);
    if f.cursor >= f.inode.size { BoundWraps(f); }
    if bytes == 0 {
      assert ReadLen(f, bytes) == 0 && Delivered(f, bytes) == [] && Expected(f, bytes) == [];
    } else if f.cursor + bytes < f.inode.size {
      assert ReadLen(f, bytes) == bytes;
      SliceOfPrefix(f.data, f.inode.size, f.cursor, f.cursor + bytes);
    } else if f.cursor == f.inode.size + TWO32 - 1 {
      assert Delivered(f, bytes) == [];
    } else if ReadFits(f, bytes) {
      assert |Delivered(f, bytes)| != |Expected(f, bytes)|;
    }
  }

  /** From a cursor below the size: the slice of length min(bytes, size - cursor - 1), always inside the cache. */
  lemma ReadBelowSize(f: FdEntry, bytes: nat)
    requires f.cursor < f.inode.size <= |f.data| && f.inode.size < TWO32
    ensures ReadFits(f, bytes) && f.cursor + ReadLen(f, bytes) < f.inode.size
    ensures ReadLen(f, bytes) == if bytes <= f.inode.size - f.cursor - 1 then bytes else f.inode.size - f.cursor - 1
    ensures Delivered(f, bytes) == Text(f)[f.cursor..f.cursor + ReadLen(f, bytes)]
  {
  }

  /** The descriptor after a row of reads, and the bytes they delivered. */
  function AfterReads(f: FdEntry, asked: seq<nat>): FdEntry
    requires f.cursor < f.inode.size <= |f.data| && f.inode.size < TWO32
    decreases |asked|
  {
    if asked == [] then f
    else
      ReadBelowSize(f, asked[0]);
      AfterReads(f.(cursor := f.cursor + ReadLen(f, asked[0])), asked[1..])
  }

  function Collected(f: FdEntry, asked: seq<nat>): seq<byte>
    requires f.cursor < f.inode.size <= |f.data| && f.inode.size < TWO32
    decreases |asked|
  {
    if asked == [] then []
    else
      ReadBelowSize(f, asked[0]);
      Delivered(f, asked[0]) + Collected(f.(cursor := f.cursor + ReadLen(f, asked[0])), asked[1..])
  }

  function Sum(ns: seq<nat>): nat {
    if ns == [] then 0 else ns[0] + Sum(ns[1..])
  }

  lemma JoinSlices(text: seq<byte>, a: nat, b: nat, c: nat)
    requires a <= b <= c <= |text|
    ensures text[a..b] + text[b..c] == text[a..c]
  {
  }

  /** Over any run of reads the cursor stays below the size, the bytes delivered are consecutive, and the run
      gets as far as was asked or to the last byte but one. */
  lemma {:induction false} ReadsAreConsecutive(f: FdEntry, asked: seq<nat>)
    requires f.cursor < f.inode.size <= |f.data| && f.inode.size < TWO32
    ensures var g := AfterReads(f, asked);
            && g == f.(cursor := g.cursor) && f.cursor <= g.cursor < f.inode.size
            && Collected(f, asked) == Text(f)[f.cursor..g.cursor]
            && g.cursor == if f.cursor + Sum(asked) < f.inode.size then f.cursor + Sum(asked) else f.inode.size - 1
    decreases |asked|
  {
    if asked != [] {
      ReadBelowSize(f, asked[0]);
      var f1 := f.(cursor := f.cursor + ReadLen(f, asked[0]));
      ReadsAreConsecutive(f1, asked[1..]);
      hide ReadLen, ReadBound, Delivered;
      JoinSlices(Text(f), f.cursor, f1.cursor, AfterReads(f1, asked[1..]).cursor);
    }
  }
}
