/** The formats on the disk byte by byte: words, inodes, directory entries and bitmaps. */
module DiskFormat {
  import opened Basics
  import opened Blocks
  import opened DiskLayout
  import opened Inodes
  import opened Strings
  import opened Directory
  import opened DirectoryOps

  /** A 32-bit word has its lowest byte first. */
  lemma WordBytes(b: Block, i: nat, w: Word)
    requires i < WORDS
    ensures PutWord(b, i, w)[4 * i..4 * i + 4]
         == [w % 0x100, w / 0x100 % 0x100, w / 0x1_0000 % 0x100, w / 0x100_0000]
    ensures forall k | 0 <= k < BLOCK_SIZE && !(4 * i <= k < 4 * i + 4) :: PutWord(b, i, w)[k] == b[k]
    ensures GetWord(b, i) == w <==>
              b[4 * i..4 * i + 4] == [w % 0x100, w / 0x100 % 0x100, w / 0x1_0000 % 0x100, w / 0x100_0000]
  {
    WordSplits(w);
    var v := GetWord(b, i);
    WordDigits(b[4 * i], b[4 * i + 1], b[4 * i + 2], b[4 * i + 3]);
    assert b[4 * i..4 * i + 4] == [b[4 * i], b[4 * i + 1], b[4 * i + 2], b[4 * i + 3]];
  }

  lemma WordDigits(a: Byte, b: Byte, c: Byte, d: Byte)
    ensures var v := a + 0x100 * b + 0x1_0000 * c + 0x100_0000 * d;
            v % 0x100 == a && v / 0x100 % 0x100 == b && v / 0x1_0000 % 0x100 == c && v / 0x100_0000 == d
  {
    var v := a + 0x100 * b + 0x1_0000 * c + 0x100_0000 * d;
    assert v / 0x100 == b + 0x100 * c + 0x1_0000 * d;
    assert v / 0x1_0000 == v / 0x100 / 0x100 == c + 0x100 * d;
    assert v / 0x100_0000 == v / 0x1_0000 / 0x100;
  }

  /** The areas follow each other: boot block, super block, log, inode bitmap, inodes, data
      bitmap, data. */
  lemma Areas()
    ensures LOG_START == 1 + 1 && INODE_BITMAP == LOG_START + 30 && INODE_START == INODE_BITMAP + 1
    ensures DATA_BITMAP == INODE_START + 8 * BLOCK_SIZE / 16 && DATA_START == DATA_BITMAP + 1
    ensures N_BLKS == DATA_START + 8 * BLOCK_SIZE && N_INODES == 8 * BLOCK_SIZE
    ensures forall b: nat :: IsHome(b) <==> b < 2 || INODE_BITMAP <= b < N_BLKS
    ensures forall b: nat :: IsData(b) <==> DATA_START <= b < DATA_START + 8 * BLOCK_SIZE
  {
  }

  /** Two bytes, the lower one first. */
  function Half(b: Block, at: nat): nat
    requires at + 2 <= BLOCK_SIZE
  {
    b[at] as int + 0x100 * b[at + 1] as int
  }

  /** Inode `ino` takes the 64 bytes from 64 * ino on of the inode area: the type at 0, the number
      of links at 6, the size at 8 and the block addresses from 12 on. */
  lemma InodeBytes(d: Disk, ino: nat)
    requires ino < N_INODES
    ensures var n, b, at := DiskInode(d, ino), d[INODE_START + 64 * ino / BLOCK_SIZE], 64 * ino % BLOCK_SIZE;
            && at + 64 <= BLOCK_SIZE
            && n.kind % 0x1_0000 == Half(b, at) && (IsDir(n) <==> Half(b, at) == 1)
            && n.links / 0x1_0000 == Half(b, at + 6)
            && n.size == GetWord(b, (at + 8) / 4)
            && forall k | 0 <= k < N_ADDRS :: n.addrs[k] == GetWord(b, (at + 12) / 4 + k)
  {
    var b, at, slot := d[INODE_START + 64 * ino / BLOCK_SIZE], 64 * ino % BLOCK_SIZE, ino % INODES_PER_BLOCK;
    assert 64 * ino / BLOCK_SIZE == ino / 16 && at == 64 * slot;
    assert b == d[InodeBlock(ino)];
    assert 4 * (16 * slot) == at && 4 * (16 * slot + 1) == at + 4;
    Halves(b[at], b[at + 1], b[at + 2], b[at + 3]);
    Halves(b[at + 4], b[at + 5], b[at + 6], b[at + 7]);
    assert (at + 8) / 4 == 16 * slot + 2 && (at + 12) / 4 == 16 * slot + 3;
  }

  lemma Halves(a: Byte, b: Byte, c: Byte, d: Byte)
    ensures var v := a + 0x100 * b + 0x1_0000 * c + 0x100_0000 * d;
            v % 0x1_0000 == a + 0x100 * b && v / 0x1_0000 == c + 0x100 * d
  {
  }

  /** A directory entry is the inode number in two bytes, the lower one first, and thirty bytes of
      name. */
  lemma EntryBytes(c: seq<Byte>, off: nat, ino: nat, name: seq<Byte>)
    requires off + 32 <= |c| && ino < 0x1_0000 && |name| == 30
    ensures Encode(ino, name)[..2] == [ino % 0x100, ino / 0x100] && Encode(ino, name)[2..] == name
    ensures Decode(c, off).ino == c[off] as int + 0x100 * c[off + 1] as int
    ensures Decode(c, off).name == Text(c[off + 2..off + 32], 30)
  {
  }

  lemma {:induction false} BitIsDigit(x: nat, s: nat)
    ensures BitOf(x, s) <==> x / Pow2(s) % 2 == 1
  {
    if s > 0 {
      BitIsDigit(x / 2, s - 1);
      HalvedFirst(x, Pow2(s - 1), Pow2(s));
    }
  }

  /** Data block b is in use exactly if its bit of the data bitmap is set: bit (b - DATA_START) % 8
      of byte (b - DATA_START) / 8. */
  lemma BitmapBytes(f: Fs, b: nat)
    requires Sound(f) && IsData(b)
    ensures var n := b - DATA_START; b in f.o <==> f.d[DATA_BITMAP][n / 8] as int / Pow2(n % 8) % 2 == 1
  {
    hide Ref, Pow2, BitOf;
    var n := b - DATA_START;
    assert DATA_START + 8 * (n / 8) + n % 8 == b;
    assert Bit(f.d[DATA_BITMAP], n / 8, n % 8) <==> b in f.o;
    BitIsDigit(f.d[DATA_BITMAP][n / 8], n % 8);
  }
}
