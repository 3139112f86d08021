/** The image builder: it writes an image of zeros, allocates blocks that it never clears, and
    copies files into it. It establishes what the kernel's file system relies on. */
module Mkfs {
  import opened Basics
  import opened Blocks
  import opened DiskLayout
  import opened LogSpec
  import opened Strings
  import opened Inodes
  import opened Space
  import opened FileSystem
  import opened Directory
  import opened DirectoryOps
  import opened Paths

  const FT_FILE := 2
  const DOT: Byte := 46

  /** A file to install, under the last part of its path. */
  datatype Input = Input(name: seq<Byte>, data: seq<Byte>)

  /** An inode with one link and no blocks. */
  function NewInode(kind: Word): Inode { Inode(kind, 0x1_0000, 0, seq(N_ADDRS, _ => 0)) }

  // ------------------------------------------------------------------ blocks nobody owns

  /** Every data block that no file owns is still zero. */
  ghost predicate Blank(f: Fs) {
    forall b: nat | IsData(b) && b !in f.o :: f.d[b] == Zeros()
  }

  /** On a blank image, setting the bit is all that allocation has to do. */
  lemma BlankAllocation(f: Fs, b: nat)
    requires Blank(f) && IsData(b) && b !in f.o
    ensures Allocated(f.d, b)
            == f.d[DATA_BITMAP := SetBit(f.d[DATA_BITMAP], (b - DATA_START) / 8, (b - DATA_START) % 8)]
  {
    hide SetBit;
    var e := f.d[DATA_BITMAP := SetBit(f.d[DATA_BITMAP], (b - DATA_START) / 8, (b - DATA_START) % 8)];
    assert e[b] == Zeros();
    assert e[b := Zeros()] == e;
  }

  lemma StaysBlank(f: Fs, g: Fs)
    requires Blank(f) && f.o.Keys <= g.o.Keys
    requires forall b: nat | IsData(b) && b !in g.o :: g.d[b] == f.d[b]
    ensures Blank(g)
  {
  }

  // ------------------------------------------------------------------ the builder

  /** What the root directory is to hold after some files are installed: itself twice, then the
      files with the inode numbers from 2 on. */
  function RootEntries(files: seq<Input>): (es: seq<Entry>)
    ensures |es| == |files| + 2
    ensures forall k | 0 <= k < |es| ::
              es[k] == if k < 2 then Entry(ROOT_INO, if k == 0 then [DOT] else [DOT, DOT])
                       else Entry(k, Clip(files[k - 2].name))
  {
    if files == [] then [Entry(ROOT_INO, [DOT]), Entry(ROOT_INO, [DOT, DOT])]
    else RootEntries(files[..|files| - 1]) + [Entry(|files| + 1, Clip(files[|files| - 1].name))]
  }

  function RootInode(root: Word, entries: nat): Inode
    requires entries <= 32
  {
    NewInode(FT_DIR).(addrs := NewInode(FT_DIR).addrs[0 := root], size := ENTRY * entries)
  }

  /** The first k files are installed: the root directory names them, their inodes are regular
      files that hold the data, and no other inode is in use. */
  ghost predicate Installed(f: Fs, files: seq<Input>, k: nat)
    requires k <= |files| && k <= 30
  {
    && Entries(Content(f, ROOT_INO)) == RootEntries(files[..k])
    && (forall n: nat | 2 <= n < k + 2 ::
          Content(f, n) == files[n - 2].data && f.t[n].kind == FT_FILE && f.t[n].links == 0x1_0000)
    && (forall n: nat | n == 0 || k + 2 <= n < N_INODES :: f.t[n] == NoInode())
  }

  /** The inode bitmap marks exactly the inodes from 1 up to k - 1. */
  ghost predicate InodeBits(b: Block, k: nat) {
    forall byte: nat, s: nat | byte < BLOCK_SIZE && s < 8 :: Bit(b, byte, s) <==> 1 <= 8 * byte + s < k
  }

  class Image {
    /** The blocks of the image file, and the inode being filled with its number. */
    var blocks: Disk
    var inode: Inode
    var cur: nat
    /** The inodes as they will be, and the owners. */
    ghost var table: Table
    ghost var owner: map<nat, Place>

    ghost function State(): Fs
      reads this
    {
      Fs(blocks, table, owner)
    }

    /** The size of the inode being filled is recorded only when it is complete. */
    ghost predicate Valid()
      reads this
    {
      Sound(State()) && Blank(State()) && cur < N_INODES && table[cur] == inode.(size := 0)
    }

    /** mkfs_block_alloc: 0 when it gives up because no block is free. */
    method BlockAlloc() returns (bno: nat)
      requires Sound(State()) && Blank(State())
      modifies `blocks
      ensures bno == 0 ==> blocks == old(blocks) && OutOfSpace(blocks)
      ensures bno != 0 ==> IsData(bno) && bno !in owner && blocks == Allocated(old(blocks), bno)
      ensures bno != 0 ==> forall b: nat | IsData(b) && b < bno :: b in owner
    {
      hide Bit, BitsOf, SetBit, Ref;
      var bitmap := blocks[DATA_BITMAP];
      var byte := 0;
      while byte < BLOCK_SIZE
        invariant 0 <= byte <= BLOCK_SIZE
        invariant blocks == old(blocks)
        invariant forall y: nat, t: nat | y < byte && t < 8 :: Bit(bitmap, y, t)
      {
        var shift := 0;
        while shift < 8
          invariant 0 <= shift <= 8
          invariant blocks == old(blocks)
          invariant forall t: nat | t < shift :: Bit(bitmap, byte, t)
        {
          if !Bit(bitmap, byte, shift) {
            bno := 8 * byte + shift + DATA_START;
            FirstClear(bitmap, owner.Keys, bno);
            BlankAllocation(State(), bno);
            blocks := blocks[DATA_BITMAP := SetBit(bitmap, byte, shift)];
            return;
          }
          shift := shift + 1;
        }
        byte := byte + 1;
      }
      return 0;
    }

    /** mkfs_inode_alloc: 0 when it gives up because no inode is free. */
    method InodeAlloc(ghost k: nat) returns (ino: nat)
      requires InodeBits(blocks[INODE_BITMAP], k) && 0 < k
      modifies `blocks
      ensures k < N_INODES ==> ino == k && InodeBits(blocks[INODE_BITMAP], k + 1)
      ensures k >= N_INODES ==> ino == 0
      ensures blocks == old(blocks)[INODE_BITMAP := blocks[INODE_BITMAP]]
    {
      var bitmap := blocks[INODE_BITMAP];
      var byte := 0;
      while byte < BLOCK_SIZE
        invariant 0 <= byte <= BLOCK_SIZE && 8 * byte <= k
        invariant blocks == old(blocks)
      {
        var shift := 0;
        while shift < 8
          invariant 0 <= shift <= 8 && 8 * byte + shift <= k
          invariant blocks == old(blocks)
        {
          if (byte != 0 || shift != 0) && !Bit(bitmap, byte, shift) {
            blocks := blocks[INODE_BITMAP := SetBit(bitmap, byte, shift)];
            return 8 * byte + shift;
          }
          shift := shift + 1;
        }
        byte := byte + 1;
      }
      return 0;
    }

    /** mkfs_write_inode: the disk's copy of one inode, and nothing else of the image. */
    method WriteInode(ino: nat, n: Inode)
      requires ino < N_INODES
      modifies `blocks
      ensures DiskInode(blocks, ino) == n
      ensures forall m | 0 <= m < N_INODES && m != ino :: DiskInode(blocks, m) == DiskInode(old(blocks), m)
      ensures blocks == old(blocks)[InodeBlock(ino) := blocks[InodeBlock(ino)]]
    {
      hide GetInode, PutInode;
      var b, slot := InodeBlock(ino), ino % INODES_PER_BLOCK;
      InodeRoundTrip(blocks[b], slot, n);
      blocks := blocks[b := PutInode(blocks[b], slot, n)];
    }

    /** Fills an empty top-level pointer, as both branches of mkfs_block_map do. */
    method MapTop(k: nat) returns (addr: nat)
      requires Valid() && k < N_ADDRS
      modifies `blocks, `inode, `table, `owner
      ensures Valid() && Extends(old(State()), State(), cur) && inode.size == old(inode.size)
      ensures addr == inode.addrs[k] == table[cur].addrs[k]
      ensures addr == 0 ==> OutOfSpace(blocks) && State() == old(State())
      ensures old(inode.addrs[k]) != 0 ==> State() == old(State())
      ensures addr != 0 && old(inode.addrs[k]) == 0 ==>
                addr !in old(owner) && IsData(addr) && blocks == Allocated(old(blocks), addr)
      ensures if addr != 0 then Provided(old(State()), State(), cur, TopSlot(k)) else |owner| == N_DATA_BLKS
    {
      hide Owned, Extends, SetBit, Blank, Allocated, Filled;
      ghost var f := State();
      ExtendsSelf(f, cur);
      FullDisk(f);
      if inode.addrs[k] == 0 {
        addr := BlockAlloc();
        if addr != 0 {
          LinkTopExtends(f, addr, cur, k);
          TopFilled(f, addr, cur, k);
          BlankAfter(f, addr, Place(cur, if k < N_DIRECT then Direct(k) else Ptr(k - N_DIRECT)),
                     f.t[cur := f.t[cur].(addrs := f.t[cur].addrs[k := addr])]);
          inode := inode.(addrs := inode.addrs[k := addr]);
          owner := owner[addr := Place(cur, if k < N_DIRECT then Direct(k) else Ptr(k - N_DIRECT))];
          table := table[cur := table[cur].(addrs := table[cur].addrs[k := addr])];
        }
      } else {
        addr := inode.addrs[k];
      }
    }

    /** Fills an empty entry of an indirect block. */
    method MapLeaf(i: nat, j: nat) returns (addr: nat)
      requires Valid() && i < N_INDIRECT && j < WORDS && inode.addrs[N_DIRECT + i] != 0
      modifies `blocks, `owner
      ensures Valid() && Extends(old(State()), State(), cur)
      ensures addr == Ref(blocks, table[cur], Leaf(i, j))
      ensures addr == 0 ==> OutOfSpace(blocks) && State() == old(State())
      ensures old(Ref(blocks, table[cur], Leaf(i, j))) != 0 ==> State() == old(State())
      ensures if addr != 0 then Provided(old(State()), State(), cur, Leaf(i, j)) else |owner| == N_DATA_BLKS
    {
      hide Owned, Extends, SetBit, Blank, Ref, GetWord, PutWord, Filled;
      ghost var f := State();
      FullDisk(f);
      var p := inode.addrs[N_DIRECT + i];
      PointerIsData(f, cur, i);
      ExtendsSelf(f, cur);
      var entries := blocks[p];
      if GetWord(entries, j) == 0 {
        addr := BlockAlloc();
        if addr != 0 {
          LinkLeafExtends(f, addr, cur, i, j);
          EntryFilled(f, addr, cur, i, j);
          BlankAfterLeaf(f, addr, Place(cur, Leaf(i, j)), p, PutWord(entries, j, addr));
          owner := owner[addr := Place(cur, Leaf(i, j))];
          blocks := blocks[p := PutWord(entries, j, addr)];
          PointerIsData(State(), cur, i);
        }
      } else {
        addr := GetWord(entries, j);
      }
    }

    /** mkfs_block_map: the block of the inode being filled that holds its `nth` block; `ok` is
        false when it gives up, because a file cannot have that many blocks or none is free. */
    method BlockMap(nth: nat) returns (ok: bool, addr: nat)
      requires Valid()
      modifies `blocks, `inode, `table, `owner
      ensures Valid() && Extends(old(State()), State(), cur) && inode.size == old(inode.size)
      ensures ok ==> nth < MAX_BLOCKS && addr == Ref(blocks, table[cur], SlotOf(nth)) != 0
      ensures ok && nth < N_DIRECT ==> addr == inode.addrs[nth]
      ensures ok && nth >= N_DIRECT ==>
                var p := inode.addrs[N_DIRECT + (nth - N_DIRECT) / WORDS];
                IsData(p) && addr == GetWord(blocks[p], (nth - N_DIRECT) % WORDS)
      ensures !ok ==> nth >= MAX_BLOCKS || OutOfSpace(blocks)
      ensures nth < MAX_BLOCKS ==>
                if ok then Reaches(old(State()), State(), cur, nth) else Blocked(old(State()), cur, nth)
    {
      hide Extends, SetBit, Owned, Blank, Provided, Reaches, Blocked;
      ghost var f := State();
      ExtendsSelf(f, cur);
      addr := 0;
      if nth < N_DIRECT {
        addr := MapTop(nth);
        if addr != 0 {
          DirectReached(f, State(), cur, nth);
        } else {
          DirectBlocked(f, cur, nth);
        }
        return addr != 0, addr;
      }
      var n := nth - N_DIRECT;
      if n < N_INDIRECT * WORDS {
        var p := MapTop(N_DIRECT + n / WORDS);
        if p == 0 {
          LeafBlocked(f, f, cur, nth);
          return false, 0;
        }
        ghost var g := State();
        addr := MapLeaf(n / WORDS, n % WORDS);
        ExtendsTransitive(f, g, State(), cur);
        if addr != 0 {
          LeafReached(f, g, State(), cur, nth);
        } else {
          LeafBlocked(f, g, cur, nth);
        }
        return addr != 0, addr;
      }
      return false, 0;
    }

    /** One round of the copy loop: the next piece of the file, padded to a block with zeros. The
        file before the round is a whole number of blocks long. */
    method CopyRound(ghost f: Fs, data: seq<Byte>, nth: nat, at: nat, ghost hi: nat)
        returns (ok: bool, len: nat, ghost piece: seq<Byte>)
      requires Valid() && hi <= MAX_BLOCKS && Sound(f) && at == BLOCK_SIZE * nth <= |data| && inode.size == at
      requires Written(f, State(), cur, 0, data[..at])
      modifies `blocks, `inode, `table, `owner
      ensures !ok ==> nth >= MAX_BLOCKS || OutOfSpace(blocks)
      ensures ok ==>
                && nth < MAX_BLOCKS && Valid() && len <= BLOCK_SIZE == |piece|
                && inode.size == at + len <= |data|
                && (len < BLOCK_SIZE ==> at + len == |data|)
                && piece[..len] == data[at..at + len]
                && Written(f, State(), cur, 0, data[..at] + piece)
      ensures nth < hi ==>
                if !ok then old(Slack(State(), cur, nth, hi)) < 0
                else Slack(State(), cur, nth + 1, hi) == old(Slack(State(), cur, nth, hi))
    {
      hide Owned, BlockAt, ByteAt, Extends, PutChunk, Written, Blank, SetBit, SlotOf, Ref, Reaches, Blocked, Slack;
      ghost var g := State();
      len := if |data| - at < BLOCK_SIZE then |data| - at else BLOCK_SIZE;
      var buf: Block := data[at..at + len] + seq(BLOCK_SIZE - len, _ => 0);
      var addr;
      ok, addr := BlockMap(nth);
      piece := buf;
      if !ok {
        if nth < hi {
          SlackBlocked(g, cur, nth, hi);
        }
        return;
      }
      ghost var h := State();
      WholeBlock(h, cur, nth, at, addr, buf);
      blocks := blocks[addr := buf];
      inode := inode.(size := at + len);
      WrittenNext(f, g, h, cur, 0, data[..at], buf);
      ChunkKeepsSound(h, cur, at, buf);
      StaysBlank(h, State());
      if nth < hi {
        SlackKept(g, h, cur, nth, hi);
        SlackOverwritten(h, cur, at, buf, nth + 1, hi);
      }
    }

    /** The copy loop, and the inode written out behind it. A file whose length is a multiple of
        the block size gets one more block, of zeros. It gives up exactly when there are not
        enough blocks for that, or the file has the largest size or more. */
    method CopyFile(data: seq<Byte>) returns (ok: bool)
      requires Valid() && inode.size == 0 && Whole(State())
      modifies `blocks, `inode, `table, `owner
      ensures ok <==> |data| < MAX_BLOCKS * BLOCK_SIZE && old(Slack(State(), cur, 0, |data| / BLOCK_SIZE + 1)) >= 0
      ensures !ok ==> |data| >= MAX_BLOCKS * BLOCK_SIZE || OutOfSpace(blocks)
      ensures ok ==>
                && |data| < MAX_BLOCKS * BLOCK_SIZE && Sound(State()) && Blank(State()) && Whole(State())
                && (forall n: nat | n < N_INODES ::
                    Content(State(), n) == if n == cur then data else old(Content(State(), n)))
                && table == old(table)[cur := inode] && inode.kind == old(inode.kind) && inode.links == old(inode.links)
                && DiskInode(blocks, cur) == inode
                && (forall n | 0 <= n < N_INODES && n != cur :: DiskInode(blocks, n) == DiskInode(old(blocks), n))
                && (forall b | 0 <= b < INODE_START :: blocks[b] == old(blocks)[b])
    {
      hide Owned, BlockAt, ByteAt, Written, Blank, Content, Whole, GetInode, Slack;
      ghost var f := State();
      ghost var hi := if |data| < MAX_BLOCKS * BLOCK_SIZE then |data| / BLOCK_SIZE + 1 else MAX_BLOCKS;
      var nth, at, len := 0, 0, 0;
      ghost var all: seq<Byte> := [];
      WrittenNothing(f, cur, 0);
      assert data[..0] == [];
      while true
        invariant Valid() && at == BLOCK_SIZE * nth && at <= |data| && inode.size == at && nth <= MAX_BLOCKS
        invariant Written(f, State(), cur, 0, data[..at])
        invariant Slack(State(), cur, nth, hi) == Slack(f, cur, 0, hi)
        decreases |data| - at
      {
        ghost var piece;
        ok, len, piece := CopyRound(f, data, nth, at, hi);
        if !ok {
          return;
        }
        all := data[..at] + piece;
        PieceIs(data, at, len, piece);
        if len < BLOCK_SIZE {
          SlackAtEnd(State(), cur, nth + 1, hi);
          break;
        }
        nth, at := nth + 1, at + BLOCK_SIZE;
      }
      ghost var g := State();
      KeptKind(f, g, cur, all);
      WriteInode(cur, inode);
      table := table[cur := inode];
      Copied(f, g, State(), cur, data, all);
      StaysBlank(g, State());
    }

    /** mkfs_create_inode: an inode that was unused becomes the one to fill. */
    method CreateInode(ino: nat, kind: Word)
      requires Sound(State()) && Blank(State()) && Whole(State()) && ino < N_INODES && table[ino] == NoInode()
      modifies `blocks, `inode, `cur, `table
      ensures Valid() && Whole(State()) && cur == ino && inode == NewInode(kind) && table == old(table)[ino := inode]
      ensures forall n: nat | n < N_INODES :: Content(State(), n) == old(Content(State(), n))
      ensures DiskInode(blocks, ino) == inode
      ensures forall n | 0 <= n < N_INODES && n != ino :: DiskInode(blocks, n) == DiskInode(old(blocks), n)
      ensures blocks == old(blocks)[InodeBlock(ino) := blocks[InodeBlock(ino)]]
    {
      hide Owned, Blank, Content, Whole, GetInode;
      ghost var f := State();
      inode, cur := NewInode(kind), ino;
      WriteInode(ino, inode);
      table := table[ino := inode];
      SameFiles(f, State(), ino);
      StaysBlank(f, State());
    }

    /** mkfs_create_dir_entry: one more entry at the end of the root directory, whose only block
        is `root`. */
    method CreateEntry(root: nat, off: nat, name: seq<Byte>, ino: nat) returns (next: nat)
      requires Sound(State()) && Blank(State()) && Whole(State()) && 0 < ino < N_INODES && ZeroFree(name)
      requires root == table[ROOT_INO].addrs[0] != 0 && off == table[ROOT_INO].size && off % ENTRY == 0
      requires off + ENTRY <= BLOCK_SIZE
      modifies `blocks, `table
      ensures next == off + ENTRY && Sound(State()) && Blank(State()) && Whole(State())
      ensures table == old(table)[ROOT_INO := old(table)[ROOT_INO].(size := next)]
      ensures forall n: nat | n < N_INODES && n != ROOT_INO :: Content(State(), n) == old(Content(State(), n))
      ensures Entries(Content(State(), ROOT_INO)) == old(Entries(Content(State(), ROOT_INO))) + [Entry(ino, Clip(name))]
      ensures forall b: nat | b < DATA_START :: blocks[b] == old(blocks)[b]
    {
      hide Owned, Blank, Content, Whole, Entries, Text, Readable, Decode, Encode, BlockAt, ByteAt, WroteFile, Clip;
      ghost var f := State();
      BufferOf(name);
      var padded := Strncpy(name + [0], DIR_SIZE);
      var de := Encode(ino, padded);
      EncodeDecodes(ino, padded);
      RootBlock(f, root, off, de);
      blocks := blocks[root := Splice(blocks[root], off, de)];
      table := table[ROOT_INO := table[ROOT_INO].(size := off + ENTRY)];
      EntryWritten(f, State(), ROOT_INO, off, off / ENTRY, de);
      StaysBlank(f, State());
      next := off + ENTRY;
    }

    /** What holds between two files: everything is on the disk but the root's inode. */
    ghost predicate Between(root: nat, files: seq<Input>, k: nat)
      requires k <= |files| && k <= 30
      reads this
    {
      && Sound(State()) && Blank(State()) && Whole(State()) && Installed(State(), files, k)
      && 0 < root < 0x1_0000_0000 && table[ROOT_INO] == RootInode(root, k + 2)
      && InodeBits(blocks[INODE_BITMAP], k + 2) && blocks[LOG_START] == Zeros()
      && (forall n | 0 <= n < N_INODES && n != ROOT_INO :: DiskInode(blocks, n) == table[n])
    }

    /** The zeroed image. */
    constructor (sb: Block)
      ensures Sound(State()) && Blank(State()) && Whole(State()) && InodeBits(blocks[INODE_BITMAP], 1)
      ensures (forall n | 0 <= n < N_INODES :: DiskInode(blocks, n) == table[n] == NoInode()) && owner == map[]
      ensures blocks[1] == sb && blocks[LOG_START] == Zeros()
    {
      blocks := seq<Block>(N_BLKS, _ => Zeros())[1 := sb];
      inode, cur := NoInode(), 0;
      table, owner := seq<Inode>(N_INODES, _ => NoInode()), map[];
      new;
      ZeroIsSound(blocks, table);
      forall s: nat ensures !BitOf(0, s) {
        ZeroBits(s);
      }
      forall n | 0 <= n < N_INODES ensures DiskInode(blocks, n) == NoInode() {
        assert blocks[InodeBlock(n)] == Zeros();
        assert DiskInode(blocks, n).addrs == NoInode().addrs;
      }
    }

    /** The root's inode and its only block. The inode in the image does not refer to the block
        until the end. */
    method MakeRoot() returns (root: nat)
      requires Sound(State()) && Blank(State()) && Whole(State()) && InodeBits(blocks[INODE_BITMAP], 1)
      requires forall n | 0 <= n < N_INODES :: DiskInode(blocks, n) == table[n] == NoInode()
      modifies this
      ensures root == 0 ==> OutOfSpace(blocks)
      ensures root != 0 ==> blocks[LOG_START] == old(blocks)[LOG_START]
      ensures root != 0 ==>
                && Sound(State()) && Blank(State()) && Whole(State()) && InodeBits(blocks[INODE_BITMAP], 2)
                && root < 0x1_0000_0000 && table == old(table)[ROOT_INO := RootInode(root, 0)]
                && (forall n | 0 <= n < N_INODES && n != ROOT_INO :: DiskInode(blocks, n) == table[n])
                && Content(State(), ROOT_INO) == []
    {
      hide Owned, Blank, Whole, GetInode, InodeBits, SetBit, Allocated, Content;
      ghost var f := State();
      var ino := InodeAlloc(1);
      assert ino == ROOT_INO;
      ghost var g := State();
      BitmapOnly(f, g);
      root := BlockAlloc();
      if root == 0 {
        return;
      }
      inode, cur := NewInode(FT_DIR), ino;
      WriteInode(ino, inode);
      ghost var h := Fs(g.d[InodeBlock(ino) := blocks[InodeBlock(ino)]], g.t[ino := inode], g.o);
      RootLinked(g, h, root);
      Commute(g.d, InodeBlock(ino), blocks[InodeBlock(ino)], root);
      owner := owner[root := Place(ROOT_INO, Direct(0))];
      table := table[ROOT_INO := RootInode(root, 0)];
    }

    /** The directory names itself twice. */
    method FirstEntries(root: nat, ghost files: seq<Input>) returns (off: nat)
      requires Sound(State()) && Blank(State()) && Whole(State()) && InodeBits(blocks[INODE_BITMAP], 2)
      requires 0 < root < 0x1_0000_0000 && table[ROOT_INO] == RootInode(root, 0) && Content(State(), ROOT_INO) == []
      requires blocks[LOG_START] == Zeros()
      requires forall n | 0 <= n < N_INODES && n != ROOT_INO :: DiskInode(blocks, n) == table[n] == NoInode()
      modifies `blocks, `table
      ensures off == 2 * ENTRY && Between(root, files, 0)
    {
      hide Owned, Blank, Whole, GetInode, InodeBits, Content, Clip, Entries;
      NoEntries(Content(State(), ROOT_INO));
      ShortName([DOT]);
      ShortName([DOT, DOT]);
      off := CreateEntry(root, 0, [DOT], ROOT_INO);
      off := CreateEntry(root, off, [DOT, DOT], ROOT_INO);
      assert files[..0] == [];
    }

    /** One round of the loop over the files. */
    method InstallFile(root: nat, off: nat, ghost files: seq<Input>, ghost k: nat, file: Input)
        returns (ok: bool, next: nat)
      requires k < |files| && k < 30 && Between(root, files, k) && off == ENTRY * (k + 2)
      requires file == files[k] && ZeroFree(file.name)
      modifies this
      ensures !ok ==> |file.data| >= MAX_BLOCKS * BLOCK_SIZE || OutOfSpace(blocks)
      ensures ok ==> |file.data| < MAX_BLOCKS * BLOCK_SIZE && Between(root, files, k + 1) && next == off + ENTRY
    {
      hide Owned, Blank, Whole, GetInode, InodeBits, Content, Clip, Entries, RootEntries, Installed;
      ghost var f := State();
      Unused(f, files, k);
      var ino := InodeAlloc(k + 2);
      ghost var g := State();
      BitmapOnly(f, g);
      CreateInode(ino, FT_FILE);
      next := CreateEntry(root, off, file.name, ino);
      ok := CopyFile(file.data);
      if ok {
        InstalledNext(f, State(), files, k);
      }
    }

    /** The whole of mkfs behind the zeroed image: `n` files fit into the one block of the root
        directory. */
    method Make(files: seq<Input>) returns (ok: bool, n: nat)
      requires Sound(State()) && Blank(State()) && Whole(State()) && InodeBits(blocks[INODE_BITMAP], 1)
      requires forall n | 0 <= n < N_INODES :: DiskInode(blocks, n) == table[n] == NoInode()
      requires forall i | 0 <= i < |files| :: ZeroFree(files[i].name)
      requires blocks[LOG_START] == Zeros()
      modifies this
      ensures !ok ==>
                || OutOfSpace(blocks)
                || exists i :: 0 <= i < |files| && i < 30 && |files[i].data| >= MAX_BLOCKS * BLOCK_SIZE
      ensures ok ==>
                && n == (if |files| < 30 then |files| else 30)
                && Sound(State()) && Whole(State()) && Installed(State(), files, n) && IsDir(table[ROOT_INO])
                && table[ROOT_INO].size == ENTRY * (n + 2) && table[ROOT_INO].links == 0x1_0000
                && InodeBits(blocks[INODE_BITMAP], n + 2)
                && (forall m | 0 <= m < N_INODES :: DiskInode(blocks, m) == table[m])
                && (forall i | 0 <= i < n :: |files[i].data| < MAX_BLOCKS * BLOCK_SIZE)
                && HeaderOk(blocks) && HeaderOf(blocks[LOG_START]) == []
    {
      hide Owned, Blank, Whole, GetInode, InodeBits, Content, Installed;
      n := 0;
      var root := MakeRoot();
      if root == 0 {
        return false, 0;
      }
      var off := FirstEntries(root, files);
      while n < |files| && off < BLOCK_SIZE
        invariant 0 <= n <= |files| && n <= 30 && off == ENTRY * (n + 2) && Between(root, files, n)
        invariant forall i | 0 <= i < n :: |files[i].data| < MAX_BLOCKS * BLOCK_SIZE
      {
        var good, next := InstallFile(root, off, files, n, files[n]);
        if !good {
          return false, n;
        }
        n, off := n + 1, next;
      }
      ghost var f := State();
      WriteInode(ROOT_INO, RootInode(root, n + 2));
      RootWritten(f, State(), files, n);
      ok := true;
    }
  }

  lemma NoEntries(c: seq<Byte>)
    requires c == []
    ensures Entries(c) == []
  {
  }

  lemma ShortName(name: seq<Byte>)
    requires |name| < DIR_SIZE
    ensures Clip(name) == name
  {
  }

  lemma Unused(f: Fs, files: seq<Input>, k: nat)
    requires k <= |files| && k < 30 && Installed(f, files, k)
    ensures f.t[k + 2] == NoInode()
  {
  }

  lemma InstalledNext(f: Fs, g: Fs, files: seq<Input>, k: nat)
    requires k < |files| && k < 30 && Installed(f, files, k)
    requires Entries(Content(g, ROOT_INO)) == Entries(Content(f, ROOT_INO)) + [Entry(k + 2, Clip(files[k].name))]
    requires forall n: nat | n < N_INODES && n != ROOT_INO && n != k + 2 ::
              Content(g, n) == Content(f, n) && g.t[n] == f.t[n]
    requires Content(g, k + 2) == files[k].data && g.t[k + 2].kind == FT_FILE && g.t[k + 2].links == 0x1_0000
    ensures Installed(g, files, k + 1)
  {
  }

  lemma RootWritten(f: Fs, g: Fs, files: seq<Input>, n: nat)
    requires Sound(f) && Whole(f) && n <= |files| && n <= 30 && Installed(f, files, n)
    requires g == f.(d := f.d[InodeBlock(ROOT_INO) := g.d[InodeBlock(ROOT_INO)]])
    ensures Sound(g) && Whole(g) && Installed(g, files, n)
  {
    hide Owned, BlockAt, ByteAt, Entries, RootEntries;
    MetadataOnly(f, g, ROOT_INO);
    forall n: nat | n < N_INODES ensures NoHoles(g, n) && Content(g, n) == Content(f, n) {
      assert NoHoles(f, n);
    }
  }

  // ------------------------------------------------------------------ what the kernel finds

  lemma OnlyDirectory(f: Fs, files: seq<Input>, n: nat, dir: nat)
    requires n <= |files| && n <= 30 && Installed(f, files, n) && dir < N_INODES
    ensures dir != ROOT_INO ==> !IsDir(f.t[dir])
  {
  }

  /** Every name in the image leads to an inode of the table. */
  lemma InstalledIsClosed(f: Fs, files: seq<Input>, n: nat)
    requires n <= |files| && n <= 30 && Installed(f, files, n)
    ensures Closed(f)
  {
    hide Content, Entries, Clip;
    forall dir: nat, name | dir < N_INODES && IsDir(f.t[dir]) && name in Names(f, dir)
      ensures Names(f, dir)[name] < N_INODES
    {
      OnlyDirectory(f, files, n, dir);
      var k := InMapIsLive(RootEntries(files[..n]), name);
    }
  }

  lemma RootPath(name: seq<Byte>)
    requires name != [] && forall k | 0 <= k < |name| :: name[k] != SLASH
    ensures Split([SLASH] + name) == [name]
  {
    hide Split;
    var path := [SLASH] + name;
    assert path[0] == SLASH && path[1..|path|] == name && path[0..] == path;
    SplitFirst(path, 0, 1, |path|, |path|);
    SplitNone(path, |path|);
  }

  /** The path of a file in the root directory leads to the file, unless an earlier entry has
      the same name. */
  lemma InstalledResolves(f: Fs, files: seq<Input>, n: nat, i: nat)
    requires n <= |files| && n <= 30 && i < n && Installed(f, files, n) && IsDir(f.t[ROOT_INO])
    requires files[i].name != [] && forall k | 0 <= k < |files[i].name| :: files[i].name[k] != SLASH
    requires forall k: nat | k < i + 2 :: !Live(RootEntries(files[..n]), k, Clip(files[i].name))
    ensures Closed(f) && Resolve(f, ROOT_INO, Split([SLASH] + files[i].name)) == Some(i + 2)
    ensures Content(f, i + 2) == files[i].data
  {
    hide Content, Entries, Clip, IsDir, Closed, Split;
    InstalledIsClosed(f, files, n);
    RootPath(files[i].name);
    LookupIs(RootEntries(files[..n]), Clip(files[i].name), i + 2);
    assert f.t[i + 2].kind == FT_FILE;
  }

  lemma Commute(d: Disk, b: nat, data: Block, root: nat)
    requires b < DATA_BITMAP && IsData(root)
    ensures Allocated(d, root)[b := data] == Allocated(d[b := data], root)
    ensures forall c: nat | c < DATA_BITMAP :: Allocated(d, root)[c] == d[c]
  {
  }

  /** The inode bitmap is no part of any file. */
  lemma BitmapOnly(f: Fs, g: Fs)
    requires Sound(f) && Blank(f) && Whole(f) && g == f.(d := f.d[INODE_BITMAP := g.d[INODE_BITMAP]])
    ensures Sound(g) && Blank(g) && Whole(g)
    ensures forall n: nat | n < N_INODES :: Content(g, n) == Content(f, n) && DiskInode(g.d, n) == DiskInode(f.d, n)
  {
    hide Owned, BlockAt, ByteAt, GetInode;
    SameBytes(f, g);
    forall n: nat | n < N_INODES ensures NoHoles(g, n) && Content(g, n) == Content(f, n) {
      assert NoHoles(f, n);
    }
    StaysBlank(f, g);
  }

  lemma SameBytes(f: Fs, g: Fs)
    requires Sound(f) && g == f.(d := f.d[INODE_BITMAP := g.d[INODE_BITMAP]])
    ensures Sound(g)
    ensures forall n: nat, x: nat | n < N_INODES ::
              BlockAt(g, n, x) == BlockAt(f, n, x) && ByteAt(g, n, x) == ByteAt(f, n, x)
  {
    hide Owned, BlockAt, ByteAt;
    MetadataOnly(f, g, 0);
  }

  /** Hanging a fresh block into the root's inode. */
  lemma RootLinked(g: Fs, h: Fs, root: nat)
    requires Sound(g) && Blank(g) && Whole(g) && g.t[ROOT_INO] == NoInode() && IsData(root) && root !in g.o
    requires h.o == g.o && h.t == g.t[ROOT_INO := NewInode(FT_DIR)]
    requires h.d == g.d[InodeBlock(ROOT_INO) := h.d[InodeBlock(ROOT_INO)]]
    ensures var o := g.o[root := Place(ROOT_INO, Direct(0))];
            var k := Fs(Allocated(h.d, root), g.t[ROOT_INO := RootInode(root, 0)], o);
            Sound(k) && Blank(k) && Whole(k) && Content(k, ROOT_INO) == []
  {
    hide Owned, BlockAt, ByteAt, Blank, Whole, SetBit, Allocated;
    SameFiles(g, h, ROOT_INO);
    StaysBlank(g, h);
    LinkTopExtends(h, root, ROOT_INO, 0);
    var k := Fs(Allocated(h.d, root), g.t[ROOT_INO := RootInode(root, 0)], g.o[root := Place(ROOT_INO, Direct(0))]);
    assert k.t == h.t[ROOT_INO := h.t[ROOT_INO].(addrs := h.t[ROOT_INO].addrs[0 := root])];
    BlankAfter(h, root, Place(ROOT_INO, Direct(0)), k.t);
    WholeExtends(h, k, ROOT_INO);
  }

  /** Filling in pointers makes no hole. */
  lemma WholeExtends(f: Fs, g: Fs, ino: nat)
    requires Sound(f) && Whole(f) && Extends(f, g, ino)
    ensures Whole(g)
  {
    hide Owned, BlockAt, ByteAt;
    forall n: nat | n < N_INODES ensures NoHoles(g, n) {
      forall x: nat | x < g.t[n].size ensures BlockAt(g, n, x) != 0 {
        assert NoHoles(f, n) && BlockAt(f, n, x) != 0;
        ExtendsBytes(f, g, ino, n, x);
      }
    }
  }

  predicate ZeroFree(name: seq<Byte>) {
    forall k | 0 <= k < |name| :: name[k] != 0
  }

  /** The text of a name as a C string. */
  lemma BufferOf(name: seq<Byte>)
    requires ZeroFree(name)
    ensures Readable(name + [0], DIR_SIZE) && Text(name + [0], DIR_SIZE) == Clip(name)
  {
    TextIs(name + [0], DIR_SIZE, if |name| >= DIR_SIZE then DIR_SIZE else |name|);
  }

  /** Setting up an inode without blocks changes the bytes of no file. */
  lemma SameFiles(f: Fs, g: Fs, ino: nat)
    requires Sound(f) && Whole(f) && ino < N_INODES && g.o == f.o && g.t == f.t[ino := g.t[ino]]
    requires f.t[ino] == NoInode() && g.t[ino].addrs == f.t[ino].addrs && g.t[ino].size == 0
    requires forall b: nat | DATA_BITMAP <= b < N_BLKS :: g.d[b] == f.d[b]
    ensures Sound(g) && Whole(g) && forall n: nat | n < N_INODES :: Content(g, n) == Content(f, n)
  {
    hide BlockAt, ByteAt, Owned;
    MetadataOnly(f, g, ino);
    forall n: nat | n < N_INODES ensures NoHoles(g, n) && Content(g, n) == Content(f, n) {
      assert NoHoles(f, n);
    }
  }

  /** Bytes put into the first block of the root directory, behind its last entry. */
  lemma RootBlock(f: Fs, root: nat, off: nat, de: seq<Byte>)
    requires Sound(f) && root == f.t[ROOT_INO].addrs[0] != 0 && off == f.t[ROOT_INO].size && off + |de| <= BLOCK_SIZE
    requires de != []
    ensures IsData(root) && root in f.o
    ensures var t: Table := f.t[ROOT_INO := f.t[ROOT_INO].(size := off + |de|)];
            var g := Fs(f.d[root := Splice(f.d[root], off, de)], t, f.o);
            Sound(g) && WroteFile(f, g, ROOT_INO, off, de)
  {
    hide Owned, ByteAt, Extends, Ref, Written, PutChunk, BlockAt;
    FirstBlock(f, root, off);
    ExtendsSelf(f, ROOT_INO);
    WrittenNothing(f, ROOT_INO, off);
    WrittenNext(f, f, f, ROOT_INO, off, [], de);
    ChunkKeepsSound(f, ROOT_INO, off, de);
    PutChunkIs(f, ROOT_INO, off, de);
    assert [] + de == de;
    var h := PutChunk(f, ROOT_INO, off, de);
    Lengthened(f, h, ROOT_INO, off, de);
  }

  lemma FirstBlock(f: Fs, root: nat, off: nat)
    requires Sound(f) && root == f.t[ROOT_INO].addrs[0] != 0 && off < BLOCK_SIZE
    ensures BlockAt(f, ROOT_INO, off) == root && IsData(root) && root in f.o && off % BLOCK_SIZE == off
  {
  }

  lemma Lengthened(f: Fs, h: Fs, ino: nat, off: nat, data: seq<Byte>)
    requires Sound(h) && ino < N_INODES && Written(f, h, ino, off, data) && off == f.t[ino].size && data != []
    requires off + |data| < 0x1_0000_0000
    ensures var g := h.(t := h.t[ino := h.t[ino].(size := off + |data|)]); Sound(g) && WroteFile(f, g, ino, off, data)
  {
    hide Owned, ByteAt, BlockAt;
    MetadataOnly(h, h.(t := h.t[ino := h.t[ino].(size := off + |data|)]), ino);
  }

  lemma PieceIs(data: seq<Byte>, at: nat, len: nat, piece: seq<Byte>)
    requires at + len <= |data| && len <= |piece| && piece[..len] == data[at..at + len]
    requires len < |piece| ==> at + len == |data|
    ensures len == |piece| ==> data[..at] + piece == data[..at + len]
    ensures len < |piece| ==> data <= data[..at] + piece
  {
  }

  lemma KeptKind(f: Fs, g: Fs, ino: nat, data: seq<Byte>)
    requires Written(f, g, ino, 0, data)
    ensures g.t == f.t[ino := f.t[ino].(addrs := g.t[ino].addrs)]
    ensures forall n: nat | n < N_INODES :: DiskInode(g.d, n) == DiskInode(f.d, n)
    ensures forall b | 0 <= b < INODE_START :: g.d[b] == f.d[b]
  {
  }

  /** A file that was empty holds exactly the data whose blocks were written, once its size is
      set; what follows the data in its last block does not count. */
  lemma Copied(f: Fs, g: Fs, h: Fs, ino: nat, data: seq<Byte>, all: seq<Byte>)
    requires Sound(g) && Whole(f) && Written(f, g, ino, 0, all) && data <= all && f.t[ino].size == 0
    requires h.o == g.o && h.t == g.t[ino := g.t[ino].(size := h.t[ino].size)] && h.t[ino].size == |data|
    requires forall b: nat | DATA_BITMAP <= b < N_BLKS :: h.d[b] == g.d[b]
    ensures Sound(h) && Whole(h)
    ensures forall n: nat | n < N_INODES :: Content(h, n) == if n == ino then data else Content(f, n)
  {
    hide BlockAt, ByteAt, Owned;
    MetadataOnly(g, h, ino);
    forall n: nat | n < N_INODES
      ensures NoHoles(h, n) && Content(h, n) == if n == ino then data else Content(f, n)
    {
      assert NoHoles(f, n);
    }
  }

  /** Writing a block of a file as a whole. */
  lemma WholeBlock(f: Fs, ino: nat, nth: nat, at: nat, addr: nat, buf: Block)
    requires Sound(f) && ino < N_INODES && nth < MAX_BLOCKS && at == BLOCK_SIZE * nth
    requires addr == Ref(f.d, f.t[ino], SlotOf(nth)) != 0
    ensures BlockAt(f, ino, at) == addr && IsData(addr) && addr in f.o && at % BLOCK_SIZE == 0
    ensures PutChunk(f, ino, at, buf) == f.(d := f.d[addr := buf])
  {
    hide Ref;
    assert at / BLOCK_SIZE == nth;
    BlockAtIs(f, ino, at, addr);
    assert Splice(f.d[addr], 0, buf) == buf;
  }

  lemma BlankAfter(f: Fs, b: nat, at: Place, t: Table)
    requires Blank(f) && IsData(b)
    ensures Blank(Fs(Allocated(f.d, b), t, f.o[b := at]))
  {
  }

  lemma BlankAfterLeaf(f: Fs, b: nat, at: Place, p: nat, data: Block)
    requires Blank(f) && IsData(b) && p in f.o && IsData(p)
    ensures Blank(Fs(Allocated(f.d, b)[p := data], f.t, f.o[b := at]))
  {
  }

  lemma OnlyRootIsDirectory(f: Fs, files: seq<Input>, n: nat)
    requires n <= |files| && n <= 30 && Installed(f, files, n) && f.t[ROOT_INO].size as int % ENTRY == 0
    ensures !Torn(f)
  {
    hide Content, Entries;
    forall dir: nat | dir < N_INODES && IsDir(f.t[dir]) ensures f.t[dir].size as int % ENTRY == 0 {
      OnlyDirectory(f, files, n, dir);
    }
  }

  /** The name of file i stands for file i: no earlier entry of the root directory has it. */
  predicate OwnName(files: seq<Input>, i: nat)
    requires i < |files|
  {
    && files[i].name != [] && (forall k | 0 <= k < |files[i].name| :: files[i].name[k] != SLASH)
    && files[i].name != [DOT] && files[i].name != [DOT, DOT]
    && (forall j | 0 <= j < i :: Clip(files[j].name) != Clip(files[i].name))
  }

  lemma OwnNameIsFirst(files: seq<Input>, n: nat, i: nat)
    requires i < n <= |files| && OwnName(files, i)
    ensures forall k: nat | k < i + 2 :: !Live(RootEntries(files[..n]), k, Clip(files[i].name))
  {
  }

  /** On such an image file i is found under its path, from every current directory, in inode
      i + 2, and what is read is what was put in. */
  method FindInstalled(fs: FileSystem, tab: InodeTable, files: seq<Input>, ghost n: nat, i: nat, cwd: nat, here: nat)
      returns (r: Walk, out: seq<Byte>)
    requires i < n <= |files| && n <= 30 && OwnName(files, i) && ZeroFree(files[i].name)
    requires Sound(fs.State()) && Whole(fs.State()) && Installed(fs.State(), files, n)
    requires IsDir(fs.table[ROOT_INO]) && fs.table[ROOT_INO].size as int % ENTRY == 0
    requires tab.Valid() && tab.Held(cwd, here) && here < N_INODES && |tab.at| + 2 <= N_INODE
    modifies fs, tab, tab.slots
    ensures fs.State() == old(fs.State())
    ensures r.At? && tab.Valid() && tab.Held(r.slot, i + 2) && tab.refs == old(tab.refs) + multiset{i + 2}
    ensures out == files[i].data
  {
    hide Owned, Whole, Content, Installed, InodeTable.Valid, Torn, Closed, Split, Clip, IsDir;
    OwnNameIsFirst(files, n, i);
    OnlyRootIsDirectory(fs.State(), files, n);
    InstalledResolves(fs.State(), files, n, i);
    assert NoHoles(fs.State(), i + 2) by {
      WholeAt(fs.State(), i + 2);
    }
    ContentSize(fs.State(), i + 2);
    hide NoHoles;
    r := LookupPath(fs, tab, [SLASH] + files[i].name, false, cwd, here);
    var data := fs.ReadI(i + 2, 0, fs.table[i + 2].size);
    out := data.out;
  }

  /** A kernel that finds an image on its disk. */
  method Mount(d: Disk, ghost t: Table, ghost o: map<nat, Place>) returns (fs: FileSystem)
    requires forall m | 0 <= m < N_INODES :: DiskInode(d, m) == t[m]
    ensures fresh(fs) && fs.State() == Fs(d, t, o)
  {
    hide GetInode;
    var table: Table := seq<Inode>(N_INODES, m requires 0 <= m < N_INODES => DiskInode(d, m));
    assert table == t;
    fs := new FileSystem(d, table, o);
  }

  /** The whole way from the files that go into an image to a kernel that mounts it. */
  method BuildAndFind(sb: Block, files: seq<Input>, i: nat, here: nat)
      returns (im: Image, made: bool, tab: InodeTable, r: Walk, out: seq<Byte>)
    requires i < |files| && i < 30 && OwnName(files, i) && here < N_INODES
    requires forall j | 0 <= j < |files| :: ZeroFree(files[j].name)
    ensures !made ==>
              || OutOfSpace(im.blocks)
              || exists j :: 0 <= j < |files| && j < 30 && |files[j].data| >= MAX_BLOCKS * BLOCK_SIZE
    ensures made ==> r.At? && tab.Valid() && tab.Held(r.slot, i + 2) && tab.refs == multiset{here, i + 2}
    ensures made ==> out == files[i].data
  {
    hide Owned, Blank, Whole, GetInode, InodeBits, Content, Installed, InodeTable.Valid, HeaderOk, HeaderOf, OwnName;
    im := new Image(sb);
    tab := new InodeTable();
    r, out := NoSuch, [];
    var n;
    made, n := im.Make(files);
    if made {
      var fs := Mount(im.blocks, im.table, im.owner);
      var _, cwd := tab.Iget(here);
      r, out := FindInstalled(fs, tab, files, n, i, cwd, here);
    }
  }

  /** The refusal does occur: a file of the largest size is not copied to an image without other
      files, although the kernel could write it there. */
  method LargestFileRefused() returns (im: Image, ok: bool, ghost before: Fs)
    ensures Sound(before) && im.cur < N_INODES && Enough(before, im.cur, 0, MAX_BLOCKS * BLOCK_SIZE) && !ok
  {
    hide Owned, Blank, Whole, Content, Slack, GetInode, Enough;
    im := new Image(Zeros());
    im.CreateInode(ROOT_INO + 1, FT_FILE);
    before := im.State();
    RoomForOne(before, im.cur, 0, MAX_BLOCKS * BLOCK_SIZE);
    ok := im.CopyFile(seq(MAX_BLOCKS * BLOCK_SIZE, _ => 0));
  }
}
