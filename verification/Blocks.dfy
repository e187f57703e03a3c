/** Disk blocks and the constants shared by the file-system modules. */
module Blocks {
  import opened Common

  /** A block is BSIZE = 512 bytes, seen here as 128 words of four bytes. */
  const BLOCK_WORDS: nat := 128

  const LOGSIZE: nat := MAXOPBLOCKS * 3
  const NBUF: nat := MAXOPBLOCKS * 3

  type Words = w: seq<nat> | |w| == BLOCK_WORDS witness seq(BLOCK_WORDS, _ => 0)

  datatype Block = Block(words: Words)

  /** The disk: one entry per block number. One write replaces one whole block. */
  type Disk = seq<Block>
}
