/** The block device (src/blockdev.c): a fixed array of blocks. The mapping of the host file is
    replaced by the array; a block write is one atomic step. */
module BlockDev {
  import opened Params
  import opened Layout

  class BlockDevice {
    const blocks: array<Block>

    /** Every image the device has held, oldest first; the last one is the present image. */
    ghost var history: seq<Image>

    constructor (image: Image)
      ensures blocks[..] == image && history == [image] && fresh(blocks)
    {
      blocks := new Block[|image|](i requires 0 <= i < |image| => image[i]);
      history := [image];
      new;
      assert blocks[..] == image;
    }

    ghost predicate Recorded()
      reads this, blocks
    {
      |history| > 0 && history[|history| - 1] == blocks[..]
    }

    /** src/blockdev.c:69-76. An address beyond the device is refused and leaves the caller's
        buffer alone; the bound itself is the caller's obligation, as the test is `>`. */
    method BlkRead(lba: nat, buf: Block) returns (rc: int, b: Block)
      requires blocks.Length == BD_SIZE_BLOCKS && lba != BD_SIZE_BLOCKS
      ensures rc == if lba < BD_SIZE_BLOCKS then 0 else -1
      ensures b == if lba < BD_SIZE_BLOCKS then blocks[lba] else buf
    {
      if lba > BD_SIZE_BLOCKS {
        return -1, buf;
      }
      return 0, blocks[lba];
    }

    /** src/blockdev.c:78-86 */
    method BlkWrite(lba: nat, b: Block) returns (rc: int)
      requires blocks.Length == BD_SIZE_BLOCKS && lba != BD_SIZE_BLOCKS
      requires Recorded()
      modifies this`history, blocks
      ensures rc == if lba < BD_SIZE_BLOCKS then 0 else -1
      ensures lba < BD_SIZE_BLOCKS ==> blocks[..] == old(blocks[..])[lba := b] && history == old(history) + [blocks[..]]
      ensures lba > BD_SIZE_BLOCKS ==> blocks[..] == old(blocks[..]) && history == old(history)
      ensures Recorded()
    {
      if lba > BD_SIZE_BLOCKS {
        return -1;
      }
      blocks[lba] := b;
      history := history + [blocks[..]];
      return 0;
    }
  }
}
