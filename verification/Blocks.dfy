/** Disk blocks as byte arrays, and the little-endian 32-bit words that the log header and
    the indirect blocks overlay on them. */
module Blocks {

  const BLOCK_SIZE: nat := 1024

  /** 32-bit words in a block. */
  const WORDS: nat := 256

  type Byte = x: int | 0 <= x < 256

  type Word = x: int | 0 <= x < 0x1_0000_0000

  type Block = b: seq<Byte> | |b| == BLOCK_SIZE witness seq(BLOCK_SIZE, _ => 0)

  function Zeros(): (b: Block)
    ensures forall i | 0 <= i < WORDS :: GetWord(b, i) == 0
  {
    seq(BLOCK_SIZE, _ => 0)
  }

  function GetWord(b: Block, i: nat): Word
    requires i < WORDS
  {
    b[4 * i] as int + 0x100 * b[4 * i + 1] as int + 0x1_0000 * b[4 * i + 2] as int + 0x100_0000 * b[4 * i + 3] as int
  }

  lemma WordSplits(w: Word)
    ensures w % 0x100 + 0x100 * (w / 0x100 % 0x100) + 0x1_0000 * (w / 0x1_0000 % 0x100) + 0x100_0000 * (w / 0x100_0000)
         == w
  {
  }

  /** Stores one word; every other word of the block keeps its value. */
  function PutWord(b: Block, i: nat, w: Word): (r: Block)
    requires i < WORDS
    ensures GetWord(r, i) == w
    ensures forall j | 0 <= j < WORDS && j != i :: GetWord(r, j) == GetWord(b, j)
  {
    WordSplits(w);
    b[4 * i := w % 0x100][4 * i + 1 := w / 0x100 % 0x100]
    [4 * i + 2 := w / 0x1_0000 % 0x100][4 * i + 3 := w / 0x100_0000]
  }
}
