/** Sizes, magic numbers and machine types of the file system
    (include/block.h, include/blockdev.h, include/fsparams.h, include/fs.h). */
module Params {

  const BLOCK_SIZE := 4096
  const BD_SIZE_BLOCKS := 25600

  const FS_MAGIC := 0xCD5E
  const VALID_FS := 1
  const ERROR_FS := 2

  const INODE_COUNT := 6400
  const INODE_TABLE_BLOCKS := 100
  const INODES_IN_BLOCK := 64

  const BLOCKID_SUPER := 0
  const BLOCKID_BLOCK_BITMAP := 1
  const BLOCKID_INODE_BITMAP := 2
  const BLOCKID_INODE_TABLE := 3
  const BLOCKID_ROOT_DIR := 103

  /** Pointers held in the inode itself, and in one indirect block. */
  const DIRECT := 8
  const INDIRECT := 1024
  const MAX_BLOCKS := 1032

  const INODE_ROOTDIR := 0

  const ITYPE_FILE := 0
  const ITYPE_DIR := 1

  const MAX_FD := 1024
  const FD_FREE := 0
  const FD_READ := 1
  const FD_WRITE := 2

  const TWO16 := 0x1_0000
  const TWO32 := 0x1_0000_0000

  type byte = x: int | 0 <= x < 256
  type u32 = x: int | 0 <= x < 0x1_0000_0000

  /** An inode or block number on disk. */
  type iptr = u32

  datatype Option<+T> = None | Some(value: T)
}
