/** Little-endian integers inside byte buffers: what a cast of a block to uint32_t* or dir_entry* reads. */
module LittleEndian {
  import opened Params

  function Le16(b: seq<byte>, i: nat): (x: nat)
    requires i + 2 <= |b|
    ensures x < TWO16
  {
    (b[i] as int) + 0x100 * (b[i + 1] as int)
  }

  function Le32(b: seq<byte>, i: nat): (x: u32)
    requires i + 4 <= |b|
  {
    (b[i] as int) + 0x100 * (b[i + 1] as int) + 0x1_0000 * (b[i + 2] as int) + 0x100_0000 * (b[i + 3] as int)
  }

  function Enc16(x: nat): (b: seq<byte>)
    requires x < TWO16
    ensures |b| == 2
  {
    [x % 0x100, x / 0x100]
  }

  function Enc32(x: u32): (b: seq<byte>)
    ensures |b| == 4
  {
    [x % 0x100, x / 0x100 % 0x100, x / 0x1_0000 % 0x100, x / 0x100_0000]
  }

  lemma Enc16RoundTrip(x: nat)
    requires x < TWO16
    ensures Le16(Enc16(x), 0) == x
  {
  }

  lemma Enc32RoundTrip(x: u32)
    ensures Le32(Enc32(x), 0) == x
  {
    var y := x / 0x100;
    var z := y / 0x100;
    assert x / 0x1_0000 == z && x / 0x100_0000 == z / 0x100;
    assert x == 0x100 * y + x % 0x100 && y == 0x100 * z + y % 0x100 && z == 0x100 * (z / 0x100) + z % 0x100;
  }

  /** The low byte comes first. */
  lemma LowByteFirst()
    ensures Le16([1, 2], 0) == 0x0201 && Le32([1, 2, 3, 4], 0) == 0x04030201
  {
  }

  /** A 4096-byte block seen as 1024 block pointers. */
  function Pointers(b: seq<byte>): (ps: seq<u32>)
    requires |b| == BLOCK_SIZE
    ensures |ps| == INDIRECT
  {
    seq(INDIRECT, j requires 0 <= j < INDIRECT => Le32(b, 4 * j))
  }

  function PointerByte(ps: seq<u32>, k: nat): byte
    requires |ps| == INDIRECT && k < BLOCK_SIZE
  {
    Enc32(ps[k / 4])[k % 4]
  }

  function PointerBytes(ps: seq<u32>): (b: seq<byte>)
    requires |ps| == INDIRECT
    ensures |b| == BLOCK_SIZE
  {
    seq(BLOCK_SIZE, k requires 0 <= k < BLOCK_SIZE => PointerByte(ps, k))
  }

  lemma PointerAt(ps: seq<u32>, j: nat)
    requires |ps| == INDIRECT && j < INDIRECT
    ensures Le32(PointerBytes(ps), 4 * j) == ps[j]
  {
    var b, e := PointerBytes(ps), Enc32(ps[j]);
    assert b[4 * j] == e[0] && b[4 * j + 1] == e[1] && b[4 * j + 2] == e[2] && b[4 * j + 3] == e[3];
    Enc32RoundTrip(ps[j]);
  }

  /** An indirect block reads back the pointers it was written with. */
  lemma PointersRoundTrip(ps: seq<u32>)
    requires |ps| == INDIRECT
    ensures Pointers(PointerBytes(ps)) == ps
  {
    forall j: nat | j < INDIRECT ensures Pointers(PointerBytes(ps))[j] == ps[j] {
      PointerAt(ps, j);
    }
  }
}
