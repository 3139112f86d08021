/** Where the image builder puts each area of the disk:
    boot block, super block, log, inode bitmap, inodes, data bitmap, data. */
module DiskLayout {
  import opened Blocks

  const MAX_OP_BLKS: nat := 10
  const LOG_SIZE: nat := 3 * MAX_OP_BLKS
  const INODES_PER_BLOCK: nat := 16
  const N_INODE_BLKS: nat := 512
  const N_DATA_BLKS: nat := 8192

  const LOG_START: nat := 2
  const INODE_BITMAP: nat := LOG_START + LOG_SIZE
  const INODE_START: nat := INODE_BITMAP + 1
  const DATA_BITMAP: nat := INODE_START + N_INODE_BLKS
  const DATA_START: nat := DATA_BITMAP + 1
  const N_BLKS: nat := DATA_START + N_DATA_BLKS

  type Disk = d: seq<Block> | |d| == N_BLKS witness seq<Block>(N_BLKS, _ => Zeros())

  predicate InLog(b: nat) {
    LOG_START <= b < LOG_START + LOG_SIZE
  }

  /** A block outside the log area: the only blocks that file-system operations log. */
  predicate IsHome(b: nat) {
    b < N_BLKS && !InLog(b)
  }

  ghost predicate SameHome(d: Disk, e: Disk) {
    forall b: nat | IsHome(b) :: d[b] == e[b]
  }
}
