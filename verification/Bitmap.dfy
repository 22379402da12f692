/** Bit-level allocator (src/bitmap.c): an array of bytes refines a finite set of indices. */
module Bitmap {
  import opened Params

  /** The mask 1 << k, by repeated doubling. */
  function Mask(k: nat): bv8
    requires k < 8
  {
    Shifted(0x01, k)
  }

  function Shifted(m: bv8, k: nat): bv8
    decreases k
  {
    if k == 0 then m else Shifted(m << 1, k - 1)
  }

  predicate Has(b: bv8, k: nat)
    requires k < 8
  {
    b & Mask(k) != 0
  }

  predicate Bit(bm: seq<bv8>, i: nat)
    requires i < 8 * |bm|
  {
    Has(bm[i / 8], i % 8)
  }

  /** Bit i is bit i % 8 of byte i / 8, the lowest first. */
  lemma LowBitFirst()
    ensures Bit([5, 128], 0) && !Bit([5, 128], 1) && Bit([5, 128], 2) && !Bit([5, 128], 8) && Bit([5, 128], 15)
  {
  }

  /** The abstract value of a bitmap: the set of its one bits. */
  ghost function Bits(bm: seq<bv8>): set<nat> {
    BitsUpTo(bm, 8 * |bm|)
  }

  ghost function BitsUpTo(bm: seq<bv8>, n: nat): set<nat>
    requires n <= 8 * |bm|
  {
    if n == 0 then {} else BitsUpTo(bm, n - 1) + if Bit(bm, n - 1) then {n - 1} else {}
  }

  lemma {:induction false} BitsUpToMembers(bm: seq<bv8>, n: nat)
    requires n <= 8 * |bm|
    ensures forall i: nat :: i in BitsUpTo(bm, n) <==> i < n && Bit(bm, i)
  {
    if n > 0 { BitsUpToMembers(bm, n - 1); }
  }

  lemma BitsMembers(bm: seq<bv8>)
    ensures forall i: nat :: i in Bits(bm) <==> i < 8 * |bm| && Bit(bm, i)
  {
    BitsUpToMembers(bm, 8 * |bm|);
  }

  function SetBit(bm: seq<bv8>, i: nat): seq<bv8>
    requires i < 8 * |bm|
  {
    bm[i / 8 := bm[i / 8] | Mask(i % 8)]
  }

  function ClearBit(bm: seq<bv8>, i: nat): seq<bv8>
    requires i < 8 * |bm|
  {
    bm[i / 8 := bm[i / 8] & !Mask(i % 8)]
  }

  /** The least clear index from i on, or 0 when there is none. */
  function FirstFreeFrom(bm: seq<bv8>, i: nat): nat
    decreases 8 * |bm| - i
  {
    if i >= 8 * |bm| then 0 else if !Bit(bm, i) then i else FirstFreeFrom(bm, i + 1)
  }

  function FirstFree(bm: seq<bv8>): nat {
    FirstFreeFrom(bm, 0)
  }

  // ---- one byte ----

  lemma MaskTable(k: nat)
    requires k < 8
    ensures Mask(k) == if k == 0 then 0x01 else if k == 1 then 0x02 else if k == 2 then 0x04 else if k == 3 then 0x08
                       else if k == 4 then 0x10 else if k == 5 then 0x20 else if k == 6 then 0x40 else 0x80
  {
    assert Shifted(0x01, 1) == 0x02 && Shifted(0x01, 2) == 0x04 && Shifted(0x01, 3) == 0x08 && Shifted(0x01, 4) == 0x10;
    assert Shifted(0x01, 5) == 0x20 && Shifted(0x01, 6) == 0x40 && Shifted(0x01, 7) == 0x80;
  }

  lemma {:induction false} ShiftedNext(m: bv8, k: nat)
    ensures Shifted(m, k + 1) == Shifted(m, k) << 1
    decreases k
  {
    if k > 0 { ShiftedNext(m << 1, k - 1); }
  }

  lemma OrMask(b: bv8, k: nat, j: nat)
    requires k < 8 && j < 8
    ensures (b | Mask(k)) & Mask(j) != 0 <==> k == j || b & Mask(j) != 0
  {
    MaskTable(k);
    MaskTable(j);
  }

  lemma AndNotMask(b: bv8, k: nat, j: nat)
    requires k < 8 && j < 8
    ensures (b & !Mask(k)) & Mask(j) != 0 <==> k != j && b & Mask(j) != 0
  {
    MaskTable(k);
    MaskTable(j);
  }

  lemma FullByteHasAll(k: nat)
    requires k < 8
    ensures 0xFF & Mask(k) != 0
  {
    MaskTable(k);
  }

  lemma NotFullByteLacksOne(b: bv8) returns (k: nat)
    requires b != 0xFF
    ensures k < 8 && b & Mask(k) == 0
  {
    assert Mask(0) == 0x01;
    MaskTable(1); MaskTable(2); MaskTable(3); MaskTable(4); MaskTable(5); MaskTable(6); MaskTable(7);
    k := if b & 0x01 == 0 then 0 else if b & 0x02 == 0 then 1 else if b & 0x04 == 0 then 2 else if b & 0x08 == 0 then 3
         else if b & 0x10 == 0 then 4 else if b & 0x20 == 0 then 5 else if b & 0x40 == 0 then 6 else 7;
  }

  // ---- the whole map ----

  lemma SameIndex(i: nat, j: nat)
    ensures i == j <==> i / 8 == j / 8 && i % 8 == j % 8
  {
  }

  lemma SetBitSameByte(bm: seq<bv8>, i: nat, j: nat)
    requires i < 8 * |bm| && i / 8 == j / 8
    ensures (bm[i / 8] | Mask(i % 8)) & Mask(j % 8) != 0 <==> i % 8 == j % 8 || bm[i / 8] & Mask(j % 8) != 0
  {
    OrMask(bm[i / 8], i % 8, j % 8);
  }

  lemma ClearBitSameByte(bm: seq<bv8>, i: nat, j: nat)
    requires i < 8 * |bm| && i / 8 == j / 8
    ensures (bm[i / 8] & !Mask(i % 8)) & Mask(j % 8) != 0 <==> i % 8 != j % 8 && bm[i / 8] & Mask(j % 8) != 0
  {
    AndNotMask(bm[i / 8], i % 8, j % 8);
  }

  lemma SetBitLifts(bm: seq<bv8>, i: nat, j: nat, same: bool)
    requires i < 8 * |bm| && i / 8 == j / 8
    requires (bm[i / 8] | Mask(i % 8)) & Mask(j % 8) != 0 <==> same || bm[i / 8] & Mask(j % 8) != 0
    ensures Bit(SetBit(bm, i), j) <==> same || Bit(bm, j)
  {
  }

  lemma ClearBitLifts(bm: seq<bv8>, i: nat, j: nat, same: bool)
    requires i < 8 * |bm| && i / 8 == j / 8
    requires (bm[i / 8] & !Mask(i % 8)) & Mask(j % 8) != 0 <==> !same && bm[i / 8] & Mask(j % 8) != 0
    ensures Bit(ClearBit(bm, i), j) <==> !same && Bit(bm, j)
  {
  }

  lemma SetBitAt(bm: seq<bv8>, i: nat, j: nat)
    requires i < 8 * |bm| && j < 8 * |bm|
    ensures Bit(SetBit(bm, i), j) <==> i == j || Bit(bm, j)
  {
    SameIndex(i, j);
    if i / 8 == j / 8 {
      SetBitSameByte(bm, i, j);
      SetBitLifts(bm, i, j, i % 8 == j % 8);
    }
  }

  lemma ClearBitAt(bm: seq<bv8>, i: nat, j: nat)
    requires i < 8 * |bm| && j < 8 * |bm|
    ensures Bit(ClearBit(bm, i), j) <==> i != j && Bit(bm, j)
  {
    SameIndex(i, j);
    if i / 8 == j / 8 {
      ClearBitSameByte(bm, i, j);
      ClearBitLifts(bm, i, j, i % 8 == j % 8);
    }
  }

  lemma SetBitIsInsert(bm: seq<bv8>, i: nat)
    requires i < 8 * |bm|
    ensures |SetBit(bm, i)| == |bm|
    ensures Bits(SetBit(bm, i)) == Bits(bm) + {i}
  {
    forall j: nat | j < 8 * |bm| ensures Bit(SetBit(bm, i), j) <==> i == j || Bit(bm, j) {
      SetBitAt(bm, i, j);
    }
    BitsMembers(bm);
    BitsMembers(SetBit(bm, i));
  }

  lemma ClearBitIsRemove(bm: seq<bv8>, i: nat)
    requires i < 8 * |bm|
    ensures |ClearBit(bm, i)| == |bm|
    ensures Bits(ClearBit(bm, i)) == Bits(bm) - {i}
  {
    forall j: nat | j < 8 * |bm| ensures Bit(ClearBit(bm, i), j) <==> i != j && Bit(bm, j) {
      ClearBitAt(bm, i, j);
    }
    BitsMembers(bm);
    BitsMembers(ClearBit(bm, i));
  }

  lemma ByteExtensional(a: bv8, b: bv8)
    requires forall k: nat :: k < 8 ==> (Has(a, k) <==> Has(b, k))
    ensures a == b
  {
    assert Mask(0) == 0x01;
    MaskTable(1); MaskTable(2); MaskTable(3); MaskTable(4); MaskTable(5); MaskTable(6); MaskTable(7);
    assert (Has(a, 0) <==> Has(b, 0)) && (Has(a, 1) <==> Has(b, 1)) && (Has(a, 2) <==> Has(b, 2))
           && (Has(a, 3) <==> Has(b, 3));
    assert (Has(a, 4) <==> Has(b, 4)) && (Has(a, 5) <==> Has(b, 5)) && (Has(a, 6) <==> Has(b, 6))
           && (Has(a, 7) <==> Has(b, 7));
  }

  /** The set of its bits determines a bitmap of known length, bit for bit. */
  lemma BitsInjective(a: seq<bv8>, b: seq<bv8>)
    requires |a| == |b| && Bits(a) == Bits(b)
    ensures a == b
  {
    BitsMembers(a);
    BitsMembers(b);
    forall p: nat | p < |a| ensures a[p] == b[p] {
      forall k: nat | k < 8 ensures Has(a[p], k) <==> Has(b[p], k) {
        SameBit(a, b, p, k);
      }
      ByteExtensional(a[p], b[p]);
    }
  }

  lemma SameBit(a: seq<bv8>, b: seq<bv8>, p: nat, k: nat)
    requires |a| == |b| && p < |a| && k < 8
    requires Bit(a, 8 * p + k) <==> Bit(b, 8 * p + k)
    ensures Has(a[p], k) <==> Has(b[p], k)
  {
  }

  lemma ZeroBitmapIsEmpty(bm: seq<bv8>)
    requires forall k :: 0 <= k < |bm| ==> bm[k] == 0
    ensures Bits(bm) == {}
  {
    BitsMembers(bm);
    forall i: nat | i < 8 * |bm| ensures !Bit(bm, i) {
      assert 0 as bv8 & Mask(i % 8) == 0;
    }
  }

  /** Clearing a bit that had been clear before it was set restores the bitmap bit for bit. */
  lemma ClearUndoesSet(bm: seq<bv8>, i: nat)
    requires i < 8 * |bm| && !Bit(bm, i)
    ensures ClearBit(SetBit(bm, i), i) == bm
  {
    ByteClearUndoesSet(bm[i / 8], Mask(i % 8));
  }

  lemma ByteClearUndoesSet(b: bv8, m: bv8)
    requires b & m == 0
    ensures (b | m) & !m == b
  {
  }

  lemma {:induction false} FirstFreeFromIsLeast(bm: seq<bv8>, i: nat)
    ensures var r := FirstFreeFrom(bm, i);
            || (i <= r < 8 * |bm| && !Bit(bm, r) && forall j: nat :: i <= j < r ==> Bit(bm, j))
            || (r == 0 && forall j: nat :: i <= j < 8 * |bm| ==> Bit(bm, j))
    decreases 8 * |bm| - i
  {
    if i < 8 * |bm| && Bit(bm, i) {
      FirstFreeFromIsLeast(bm, i + 1);
    }
  }

  /** First fit: the least absent index, and 0 only if 0 is free or every bit is set. */
  lemma FirstFreeIsLeastAbsent(bm: seq<bv8>)
    ensures var r := FirstFree(bm);
            || (r < 8 * |bm| && r !in Bits(bm) && forall j: nat :: j < r ==> j in Bits(bm))
            || (r == 0 && forall j: nat :: j < 8 * |bm| ==> j in Bits(bm))
  {
    FirstFreeFromIsLeast(bm, 0);
    BitsMembers(bm);
  }

  /** What determines the result of a first-fit search. */
  lemma {:induction false} FirstFreeFromIs(bm: seq<bv8>, i: nat, r: nat)
    requires i <= r < 8 * |bm| && !Bit(bm, r) && forall j: nat :: i <= j < r ==> Bit(bm, j)
    ensures FirstFreeFrom(bm, i) == r
    decreases r - i
  {
    if i < r { FirstFreeFromIs(bm, i + 1, r); }
  }

  ghost function Below(n: nat): set<nat> {
    if n == 0 then {} else Below(n - 1) + {n - 1}
  }

  lemma {:induction false} BelowMembers(n: nat)
    ensures |Below(n)| == n && forall i: nat :: i in Below(n) <==> i < n
  {
    if n > 0 { BelowMembers(n - 1); }
  }

  /** Pigeonhole: when fewer than `limit` bits are set, all of them below `limit`,
      first fit stays below `limit`, although it searches the whole block. */
  lemma FirstFreeInRange(bm: seq<bv8>, limit: nat)
    requires limit <= 8 * |bm|
    requires forall i :: i in Bits(bm) ==> i < limit
    requires |Bits(bm)| < limit
    ensures FirstFree(bm) < limit && FirstFree(bm) !in Bits(bm)
    ensures forall j: nat :: j < FirstFree(bm) ==> j in Bits(bm)
  {
    FirstFreeIsLeastAbsent(bm);
    BelowMembers(limit);
    assert (forall j: nat :: j < limit ==> j in Bits(bm)) ==> Below(limit) == Bits(bm);
  }

  // ---- the procedures of src/bitmap.c ----

  /** The second loop of find_free_bit (src/bitmap.c:24-35): the lowest zero bit of a byte. */
  method FindZeroBit(byteFound: bv8) returns (offset: nat)
    requires byteFound != 0xFF
    ensures offset < 8 && !Has(byteFound, offset)
    ensures forall k: nat :: k < offset ==> Has(byteFound, k)
  {
    ghost var last := NotFullByteLacksOne(byteFound);
    var mask: bv8 := 0x01;
    offset := 0;
    while offset < 8
      invariant 0 <= offset <= last
      invariant mask == Mask(offset)
      invariant forall k: nat :: k < offset ==> Has(byteFound, k)
    {
      if byteFound & mask == 0 {
        break;
      }
      ShiftedNext(0x01, offset);
      mask := mask << 1;
      offset := offset + 1;
    }
  }

  /** src/bitmap.c:10-36. The scan always runs to BLOCK_SIZE; a shorter map (the descriptor
      table's 128 bytes) is only searched safely while it has a clear bit. */
  method FindFreeBit(blk: array<bv8>) returns (r: nat)
    requires blk.Length == BLOCK_SIZE ||
             (blk.Length < BLOCK_SIZE && exists i: nat :: i < 8 * blk.Length && !Bit(blk[..], i))
    ensures r == FirstFree(blk[..])
    ensures r == 0 || (r < 8 * blk.Length && !Bit(blk[..], r))
    ensures forall j: nat :: j < r ==> Bit(blk[..], j)
    ensures r == 0 && blk.Length > 0 && Bit(blk[..], 0) ==> forall j: nat :: j < 8 * blk.Length ==> Bit(blk[..], j)
  {
    ghost var bm := blk[..];
    var byteFound: bv8 := 0;
    var ptr := 0;
    while ptr < BLOCK_SIZE
      invariant 0 <= ptr <= blk.Length
      invariant forall j: nat :: j < 8 * ptr ==> Bit(bm, j)
    {
      if blk[ptr] != 0xFF {
        byteFound := blk[ptr];
        break;
      }
      FullByteSetsAll(bm, ptr);
      ptr := ptr + 1;
    }
    if ptr == BLOCK_SIZE {
      FirstFreeIsLeastAbsent(bm);
      BitsMembers(bm);
      return 0;
    }
    var offset := FindZeroBit(byteFound);
    r := ptr * 8 + offset;
    FirstFreeIsHere(bm, ptr, offset);
  }

  lemma FirstFreeIsHere(bm: seq<bv8>, ptr: nat, offset: nat)
    requires ptr < |bm| && offset < 8
    requires forall j: nat :: j < 8 * ptr ==> Bit(bm, j)
    requires forall k: nat :: k < offset ==> Has(bm[ptr], k)
    requires !Has(bm[ptr], offset)
    ensures FirstFree(bm) == 8 * ptr + offset && !Bit(bm, 8 * ptr + offset)
    ensures forall j: nat :: j < 8 * ptr + offset ==> Bit(bm, j)
  {
    forall j: nat | j < 8 * ptr + offset ensures Bit(bm, j) {
      if j >= 8 * ptr { assert j / 8 == ptr && j % 8 < offset; }
    }
    FirstFreeFromIs(bm, 0, 8 * ptr + offset);
  }

  lemma FullByteSetsAll(bm: seq<bv8>, p: nat)
    requires p < |bm| && bm[p] == 0xFF
    ensures forall j: nat :: 8 * p <= j < 8 * p + 8 ==> Bit(bm, j)
  {
    forall j: nat | 8 * p <= j < 8 * p + 8 ensures Bit(bm, j) {
      FullByteHasAll(j % 8);
    }
  }

  /** src/bitmap.c:38-44 */
  method ReadBitmap(blk: array<bv8>, index: nat) returns (r: bool)
    requires index < 8 * blk.Length
    ensures r <==> index in Bits(blk[..])
  {
    var byteIndex := index / 8;
    r := blk[byteIndex] & Mask(index % 8) != 0;
    BitsMembers(blk[..]);
  }

  /** src/bitmap.c:46-58 */
  method SetBitmap(blk: array<bv8>, index: nat)
    requires index < 8 * blk.Length
    modifies blk
    ensures blk[..] == SetBit(old(blk[..]), index)
    ensures Bits(blk[..]) == old(Bits(blk[..])) + {index}
  {
    SetBitIsInsert(blk[..], index);
    var byteIndex := index / 8;
    var offset := index % 8;
    var mask := Mask(offset);
    blk[byteIndex] := blk[byteIndex] | mask;
    assert blk[..] == SetBit(old(blk[..]), index);
  }

  /** src/bitmap.c:60-72 */
  method ClearBitmap(blk: array<bv8>, index: nat)
    requires index < 8 * blk.Length
    modifies blk
    ensures blk[..] == ClearBit(old(blk[..]), index)
    ensures Bits(blk[..]) == old(Bits(blk[..])) - {index}
  {
    ClearBitIsRemove(blk[..], index);
    var byteIndex := index / 8;
    var offset := index % 8;
    var mask := !Mask(offset);
    blk[byteIndex] := blk[byteIndex] & mask;
    assert blk[..] == ClearBit(old(blk[..]), index);
  }
}
