/** The inode layer's code: allocating and freeing blocks, the block map of a file, and
    reading, writing and truncating files. */
module FileSystem {
  import opened Blocks
  import opened DiskLayout
  import opened Inodes
  import opened BlockChanges
  import opened Space

  /** The outcome of writei: refused because the offset lies behind the end of the file, a
      number of bytes written, or a panic because the file would have too many blocks. */
  datatype WriteResult = Refused | Wrote(n: nat) | Panicked

  /** The outcome of readi: refused because the offset lies behind the end of the file, the
      bytes read, or a request that is about to go on behind the end of the file. */
  datatype ReadResult = TooFar | Bytes(out: seq<Byte>) | Unclamped

  const WRAP := 0x1_0000_0000_0000_0000

  class FileSystem {
    /** The blocks as the buffer cache presents them. */
    var blocks: Disk
    /** Every inode in its latest form, whether in memory or only on the disk. */
    var table: Table
    ghost var owner: map<nat, Place>

    constructor (blocks: Disk, table: Table, ghost owner: map<nat, Place>)
      ensures this.blocks == blocks && this.table == table && this.owner == owner
    {
      this.blocks, this.table, this.owner := blocks, table, owner;
    }

    /** A zeroed disk. */
    constructor Empty()
      ensures Sound(State()) && forall n: nat | n < N_INODES :: table[n] == NoInode() && NoHoles(State(), n)
    {
      blocks := seq<Block>(N_BLKS, _ => Zeros());
      table, owner := seq<Inode>(N_INODES, _ => NoInode()), map[];
      new;
      hide Owned;
      ZeroIsSound(blocks, table);
    }

    ghost function State(): Fs
      reads this
    {
      Fs(blocks, table, owner)
    }

    /** balloc: takes the first free block, marks and zeroes it; 0 if there is none. */
    method Balloc() returns (bno: nat)
      requires Sound(State())
      modifies `blocks
      ensures bno == 0 ==> blocks == old(blocks) && OutOfSpace(blocks)
      ensures bno != 0 ==> IsData(bno) && bno !in owner && blocks == Allocated(old(blocks), bno)
      ensures bno != 0 ==> forall b: nat | IsData(b) && b < bno :: b in owner
    {
      hide Bit, BitsOf, SetBit, Ref;
      var bitmap := blocks[DATA_BITMAP];
      var byte := 0;
      while byte < BLOCK_SIZE
        invariant 0 <= byte <= BLOCK_SIZE
        invariant blocks == old(blocks)
        invariant forall y: nat, t: nat | y < byte && t < 8 :: Bit(bitmap, y, t)
      {
        var shift := 0;
        while shift < 8
          invariant 0 <= shift <= 8
          invariant blocks == old(blocks)
          invariant forall t: nat | t < shift :: Bit(bitmap, byte, t)
        {
          if !Bit(bitmap, byte, shift) {
            bno := 8 * byte + shift + DATA_START;
            FirstClear(bitmap, owner.Keys, bno);
            blocks := blocks[DATA_BITMAP := SetBit(bitmap, byte, shift)];
            blocks := blocks[bno := Zeros()];
            return;
          }
          shift := shift + 1;
        }
        byte := byte + 1;
      }
      return 0;
    }

    /** bfree: clears the bit of one block. */
    method Bfree(bno: nat)
      requires IsData(bno)
      modifies `blocks
      ensures blocks == old(blocks)[DATA_BITMAP :=
                          ClearBit(old(blocks)[DATA_BITMAP], (bno - DATA_START) / 8, (bno - DATA_START) % 8)]
    {
      var byte := (bno - DATA_START) / 8;
      var shift := (bno - DATA_START) % 8;
      blocks := blocks[DATA_BITMAP := ClearBit(blocks[DATA_BITMAP], byte, shift)];
    }

    /** Fills an empty top-level pointer of an inode, as both branches of bmap do. */
    method FillTop(ino: nat, k: nat) returns (addr: nat)
      requires Sound(State()) && ino < N_INODES && k < N_ADDRS
      modifies this
      ensures Sound(State()) && Extends(old(State()), State(), ino)
      ensures addr == table[ino].addrs[k]
      ensures addr == 0 ==> OutOfSpace(blocks) && State() == old(State())
      ensures old(table[ino].addrs[k]) != 0 ==> State() == old(State())
      ensures addr != 0 && old(table[ino].addrs[k]) == 0 ==>
                addr !in old(owner) && IsData(addr) && blocks == Allocated(old(blocks), addr)
      ensures Changed(old(State()), State())
      ensures if addr != 0 then Provided(old(State()), State(), ino, TopSlot(k)) else |owner| == N_DATA_BLKS
    {
      hide Changed, Leads, Filled, Owned, Extends, SetBit;
      Unchanged(State());
      ExtendsSelf(State(), ino);
      FullDisk(State());
      if table[ino].addrs[k] == 0 {
        addr := Balloc();
        if addr != 0 {
          LinkTopExtends(old(State()), addr, ino, k);
          ChangedOnce(old(State()), Change(ino, FillPointer(k, addr)));
          TopFilled(old(State()), addr, ino, k);
          owner := owner[addr := Place(ino, if k < N_DIRECT then Direct(k) else Ptr(k - N_DIRECT))];
          table := table[ino := table[ino].(addrs := table[ino].addrs[k := addr])];
        }
      } else {
        addr := table[ino].addrs[k];
      }
    }

    /** Fills an empty entry of an indirect block, as the second half of bmap does. */
    method FillLeaf(ino: nat, i: nat, j: nat) returns (addr: nat)
      requires Sound(State()) && ino < N_INODES && i < N_INDIRECT && j < WORDS
      requires table[ino].addrs[N_DIRECT + i] != 0
      modifies this
      ensures Sound(State()) && Extends(old(State()), State(), ino)
      ensures addr == Ref(blocks, table[ino], Leaf(i, j))
      ensures addr == 0 ==> OutOfSpace(blocks) && State() == old(State())
      ensures old(Ref(blocks, table[ino], Leaf(i, j))) != 0 ==> State() == old(State())
      ensures addr != 0 && old(Ref(blocks, table[ino], Leaf(i, j))) == 0 ==>
                addr !in old(owner) && IsData(addr) && blocks[addr] == Zeros()
      ensures Changed(old(State()), State())
      ensures if addr != 0 then Provided(old(State()), State(), ino, Leaf(i, j)) else |owner| == N_DATA_BLKS
    {
      hide Owned, Extends, SetBit, Ref, GetWord, PutWord, Changed, Leads, Filled;
      Unchanged(State());
      FullDisk(State());
      var p := table[ino].addrs[N_DIRECT + i];
      PointerIsData(State(), ino, i);
      ExtendsSelf(State(), ino);
      var entries := blocks[p];
      if GetWord(entries, j) == 0 {
        addr := Balloc();
        if addr != 0 {
          LinkLeafExtends(old(State()), addr, ino, i, j);
          ChangedOnce(old(State()), Change(ino, FillEntry(i, j, addr)));
          EntryFilled(old(State()), addr, ino, i, j);
          owner := owner[addr := Place(ino, Leaf(i, j))];
          blocks := blocks[p := PutWord(entries, j, addr)];
          PointerIsData(State(), ino, i);
        }
      } else {
        addr := GetWord(entries, j);
      }
    }

    /** bmap: the block that holds the `nth` block of a file, allocated if need be. A result
        of 0 means that the disk is full; `ok` is false when the kernel panics because no
        file can have that many blocks. Blocks that were reachable before keep their place
        and, unless they are indirect blocks, their contents; a fresh data block is zero. */
    method Bmap(ino: nat, nth: nat) returns (ok: bool, addr: nat)
      requires Sound(State()) && ino < N_INODES
      modifies this
      ensures Sound(State()) && Extends(old(State()), State(), ino)
      ensures ok <==> nth < MAX_BLOCKS
      ensures !ok ==> State() == old(State())
      ensures ok ==> addr == Ref(blocks, table[ino], SlotOf(nth))
      ensures nth < N_DIRECT ==> addr == table[ino].addrs[nth]
      ensures ok && addr != 0 && nth >= N_DIRECT ==>
                var p := table[ino].addrs[N_DIRECT + (nth - N_DIRECT) / WORDS];
                IsData(p) && addr == GetWord(blocks[p], (nth - N_DIRECT) % WORDS)
      ensures ok && old(Ref(blocks, table[ino], SlotOf(nth))) != 0 ==> State() == old(State())
      ensures ok && addr == 0 ==> OutOfSpace(blocks)
      ensures ok && addr != 0 && old(Ref(blocks, table[ino], SlotOf(nth))) == 0 ==>
                IsData(addr) && addr !in old(owner) && blocks[addr] == Zeros()
      ensures Changed(old(State()), State())
      ensures ok ==> if addr != 0 then Reaches(old(State()), State(), ino, nth) else Blocked(old(State()), ino, nth)
    {
      hide Extends, SetBit, Owned, Changed, Provided, Reaches, Blocked;
      Unchanged(State());
      ExtendsSelf(State(), ino);
      addr := 0;
      if nth < N_DIRECT {
        addr := FillTop(ino, nth);
        if addr != 0 {
          DirectReached(old(State()), State(), ino, nth);
        } else {
          DirectBlocked(State(), ino, nth);
        }
        return true, addr;
      }
      var n := nth - N_DIRECT;
      if n < N_INDIRECT * WORDS {
        ghost var f := State();
        var p := FillTop(ino, N_DIRECT + n / WORDS);
        if p == 0 {
          LeafBlocked(f, f, ino, nth);
          return true, 0;
        }
        ghost var g := State();
        EmptyPointerEmptyLeaf(f, g, ino, n / WORDS, n % WORDS);
        addr := FillLeaf(ino, n / WORDS, n % WORDS);
        ExtendsTransitive(f, g, State(), ino);
        ChangedOn(f, g, State());
        if addr != 0 {
          LeafReached(f, g, State(), ino, nth);
        } else {
          LeafBlocked(f, g, ino, nth);
        }
        return true, addr;
      }
      return false, 0;
    }

    /** iupdate: the disk's copy of an inode becomes the latest one; no other inode's copy,
        no pointer and no byte of any file changes. */
    method Iupdate(ino: nat)
      requires Sound(State()) && ino < N_INODES
      modifies `blocks
      ensures Sound(State())
      ensures DiskInode(blocks, ino) == table[ino]
      ensures forall n | 0 <= n < N_INODES && n != ino :: DiskInode(blocks, n) == DiskInode(old(blocks), n)
      ensures forall n: nat, x: nat | n < N_INODES ::
                && BlockAt(State(), n, x) == BlockAt(old(State()), n, x)
                && ByteAt(State(), n, x) == ByteAt(old(State()), n, x)
      ensures blocks == old(blocks)[InodeBlock(ino) := blocks[InodeBlock(ino)]]
      ensures Changed(old(State()), State())
    {
      hide Owned, BlockAt, ByteAt, GetInode, PutInode, Changed, Leads;
      ChangedOnce(State(), Change(ino, StoreInode));
      var b, slot := InodeBlock(ino), ino % INODES_PER_BLOCK;
      InodeRoundTrip(blocks[b], slot, table[ino]);
      blocks := blocks[b := PutInode(blocks[b], slot, table[ino])];
      MetadataOnly(old(State()), State(), ino);
    }

    /** One round of writei's loop: as many bytes as the block at `off + done` can take. */
    method WriteChunkAt(ghost f: Fs, ino: nat, off: nat, src: seq<Byte>, done: nat, ghost hi: nat)
        returns (ok: bool, len: nat)
      requires Sound(f) && Sound(State()) && ino < N_INODES && done < |src| && hi <= MAX_BLOCKS
      requires Written(f, State(), ino, off, src[..done])
      modifies this
      ensures ok <==> (off + done) / BLOCK_SIZE < MAX_BLOCKS
      ensures ok ==>
                && Sound(State()) && done + len <= |src|
                && Written(f, State(), ino, off, src[..done + len])
      ensures ok ==>
                if len == 0 then OutOfSpace(blocks) else done + len == |src| || (off + done + len) % BLOCK_SIZE == 0
      ensures ok && len == 0 ==> BlockAt(f, ino, off + done) == 0
      ensures Changed(old(State()), State())
      ensures ok && (off + done) / BLOCK_SIZE < hi ==>
                if len == 0 then old(Slack(State(), ino, (off + done) / BLOCK_SIZE, hi)) < 0
                else Slack(State(), ino, (off + done) / BLOCK_SIZE + 1, hi)
                        == old(Slack(State(), ino, (off + done) / BLOCK_SIZE, hi))
      ensures len <= BLOCK_SIZE - (off + done) % BLOCK_SIZE
    {
      hide Owned, BlockAt, ByteAt, Extends, PutChunk, Changed, Leads, Reaches, Blocked, Slack, Written, OutOfSpace;
      len := 0;
      var at := off + done;
      ghost var g := State();
      var mapped, addr := Bmap(ino, at / BLOCK_SIZE);
      if !mapped {
        return false, 0;
      }
      if addr == 0 {
        if at / BLOCK_SIZE < hi {
          SlackBlocked(g, ino, at / BLOCK_SIZE, hi);
        }
        WrittenExtends(f, g, State(), ino, off, src[..done]);
        StillHole(f, State(), ino, off, src[..done], at);
        assert src[..done + 0] == src[..done];
        return true, 0;
      }
      len := BLOCK_SIZE - at % BLOCK_SIZE;
      if len > |src| - done {
        len := |src| - done;
      }
      BlockAtIs(State(), ino, at, addr);
      ghost var h := State();
      ghost var chunk := src[done..done + len];
      blocks := blocks[addr := Splice(blocks[addr], at % BLOCK_SIZE, src[done..done + len])];
      WrittenNext(f, g, h, ino, off, src[..done], chunk);
      ChunkKeepsSound(h, ino, at, chunk);
      PutChunkIs(h, ino, at, chunk);
      ChangedOnce(h, Change(ino, PutBytes(at, chunk)));
      ChangedOn(g, h, State());
      SlackWritten(g, h, ino, at, chunk, hi);
      assert src[..done] + chunk == src[..done + len];
      ok := true;
    }

    /** The loop of writei. */
    method WriteBytes(ino: nat, off: nat, src: seq<Byte>) returns (ok: bool, done: nat)
      requires Sound(State()) && ino < N_INODES
      modifies this
      ensures !ok <==> src != [] && off + |src| > MAX_BLOCKS * BLOCK_SIZE && old(Enough(State(), ino, off, |src|))
      ensures ok ==> (done < |src| <==> !old(Enough(State(), ino, off, |src|)))
      ensures ok ==> src == [] || off < MAX_BLOCKS * BLOCK_SIZE
      ensures ok ==>
                && Sound(State()) && done <= |src|
                && Written(old(State()), State(), ino, off, src[..done])
                && (done < |src| ==> OutOfSpace(blocks) && (done == 0 || (off + done) % BLOCK_SIZE == 0))
                && (done < |src| ==> old(BlockAt(State(), ino, off + done)) == 0)
      ensures Changed(old(State()), State())
    {
      hide Sound, Written, OutOfSpace, BlockAt, Changed, Slack, NextBlock, BlocksTo;
      ghost var f, hi := State(), BlocksTo(off + |src|);
      Unchanged(f);
      done := 0;
      WrittenNothing(f, ino, off);
      NextBlockIs(off, 0, 0);
      assert src[..0] == [];
      while done < |src|
        invariant 0 <= done <= |src|
        invariant Sound(State()) && Written(f, State(), ino, off, src[..done])
        invariant done == 0 || done == |src| || (off + done) % BLOCK_SIZE == 0
        invariant done == 0 || off < off + done <= MAX_BLOCKS * BLOCK_SIZE
        invariant Changed(f, State())
        invariant Slack(State(), ino, NextBlock(off, done), hi) == Slack(f, ino, off / BLOCK_SIZE, hi)
      {
        ghost var g := State();
        RoundIsInside(off, done, |src|);
        NextBlockIs(off, done, 0);
        var mapped, len := WriteChunkAt(f, ino, off, src, done, hi);
        ChangedOn(f, g, State());
        NextBlockIs(off, done, len);
        if !mapped {
          SlackAtEnd(g, ino, NextBlock(off, done), hi);
          return false, done;
        }
        if len == 0 {
          break;
        }
        done := done + len;
      }
      if 0 < done == |src| {
        AllReached(off, done);
        SlackAtEnd(State(), ino, NextBlock(off, done), hi);
      }
      ok := true;
    }

    /** writei, with every copy from the caller succeeding. A write stops short exactly when the
        disk has too few blocks for it, then at a block that the file did not have; so one inside
        the file's blocks is complete. It panics exactly when it reaches behind the largest size
        and the disk has all the blocks up to there. */
    method WriteI(ino: nat, off: nat, src: seq<Byte>) returns (r: WriteResult)
      requires Sound(State()) && ino < N_INODES
      modifies this
      ensures r.Refused? <==> off > old(table[ino].size)
      ensures r.Refused? ==> State() == old(State())
      ensures r.Wrote? ==>
                && Sound(State()) && r.n <= |src|
                && WroteFile(old(State()), State(), ino, off, src[..r.n])
                && DiskInode(blocks, ino) == table[ino]
                && (forall n | 0 <= n < N_INODES && n != ino :: DiskInode(blocks, n) == DiskInode(old(blocks), n))
                && (r.n < |src| ==> OutOfSpace(blocks) && (r.n == 0 || (off + r.n) % BLOCK_SIZE == 0))
                && (r.n < |src| ==> old(BlockAt(State(), ino, off + r.n)) == 0)
      ensures r.Panicked? <==>
                && off <= old(table[ino].size) && src != [] && off + |src| > MAX_BLOCKS * BLOCK_SIZE
                && old(Enough(State(), ino, off, |src|))
      ensures r.Wrote? ==> (r.n < |src| <==> !old(Enough(State(), ino, off, |src|)))
      ensures src != [] && off >= MAX_BLOCKS * BLOCK_SIZE ==> !r.Wrote?
      ensures Changed(old(State()), State())
    {
      hide Owned, BlockAt, ByteAt, GetInode, Changed, Leads, Enough;
      Unchanged(State());
      if off > table[ino].size {
        return Refused;
      }
      ghost var f := State();
      var ok, done := WriteBytes(ino, off, src);
      if !ok {
        return Panicked;
      }
      ghost var g := State();
      WrittenFits(f, g, ino, off, src[..done]);
      WrittenKeepsInodes(f, g, ino, off, src[..done]);
      if off + done > table[ino].size {
        table := table[ino := table[ino].(size := off + done)];
      }
      assert table == g.t[ino := g.t[ino].(size := table[ino].size)];
      ChangedOnce(g, Change(ino, SetSize(table[ino].size)));
      ChangedOn(f, g, State());
      MetadataOnly(g, State(), ino);
      ghost var h := State();
      Iupdate(ino);
      ChangedOn(f, h, State());
      r := Wrote(done);
    }

    /** One round of readi's loop: as many bytes as the block and the caller allow. */
    method ReadChunkAt(ino: nat, at: nat, limit: nat) returns (chunk: seq<Byte>)
      requires Sound(State()) && ino < N_INODES && NoHoles(State(), ino)
      requires 0 < limit && at + limit <= table[ino].size
      modifies this
      ensures State() == old(State())
      ensures 0 < |chunk| <= limit && chunk == Content(State(), ino)[at..at + |chunk|]
    {
      hide Owned, Extends, BlockAt, ByteAt, NoHoles, Ref, Content, Changed;
      ghost var f := State();
      ContentSize(f, ino);
      InsideIsMapped(f, ino, at);
      var _, addr := Bmap(ino, at / BLOCK_SIZE);
      var len := BLOCK_SIZE - at % BLOCK_SIZE;
      if len > limit {
        len := limit;
      }
      ReadChunk(f, ino, at, len);
      chunk := blocks[addr][at % BLOCK_SIZE..at % BLOCK_SIZE + len];
    }

    /** readi, with every copy to the caller succeeding: the requested bytes as far as the
        file has them, and no change to the file system. The end of the request is computed in
        64 bits; the request is not cut off exactly when that wraps around to inside the file. */
    method ReadI(ino: nat, off: nat, n: nat) returns (r: ReadResult)
      requires Sound(State()) && ino < N_INODES && NoHoles(State(), ino) && n < WRAP
      modifies this
      ensures State() == old(State())
      ensures r.TooFar? <==> off > table[ino].size
      ensures r.Unclamped? <==> off <= table[ino].size && WRAP <= off + n <= WRAP + table[ino].size
      ensures r.Bytes? ==>
                r.out == Content(State(), ino)[off..if off + n > table[ino].size then table[ino].size else off + n]
    {
      if off > table[ino].size {
        return TooFar;
      }
      var target := n;
      if (off + target) % WRAP > table[ino].size {
        target := table[ino].size - off;
      }
      if off + target > table[ino].size {
        return Unclamped;
      }
      var out := ReadRange(ino, off, target);
      r := Bytes(out);
    }

    /** What is written is read back, and the rest of the file is as it was. */
    method WriteThenRead(ino: nat, off: nat, src: seq<Byte>) returns (out: seq<Byte>)
      requires Sound(State()) && ino < N_INODES && NoHoles(State(), ino)
      requires off <= table[ino].size && off + |src| <= MAX_BLOCKS * BLOCK_SIZE && Enough(State(), ino, off, |src|)
      modifies this
      ensures out == src && Sound(State())
      ensures Content(State(), ino) == Overwrite(old(Content(State(), ino)), off, src)
    {
      hide Sound, NoHoles, Content, Enough, WroteFile, Changed, GetInode, OutOfSpace, BlockAt, Overwrite;
      ghost var f := State();
      var r := WriteI(ino, off, src);
      assert src[..|src|] == src;
      WriteRefinesOverwrite(f, State(), ino, off, src, ino);
      ContentSize(f, ino);
      ContentSize(State(), ino);
      OverwriteIs(Content(f, ino), off, src);
      var rd := ReadI(ino, off, |src|);
      out := rd.out;
    }

    /** The loop of readi. */
    method ReadRange(ino: nat, off: nat, target: nat) returns (out: seq<Byte>)
      requires Sound(State()) && ino < N_INODES && NoHoles(State(), ino) && off + target <= table[ino].size
      modifies this
      ensures State() == old(State())
      ensures out == Content(State(), ino)[off..off + target]
    {
      hide Owned, NoHoles, Content, Sound;
      ghost var f := State();
      ghost var c := Content(f, ino);
      ContentSize(f, ino);
      out := [];
      while |out| < target
        invariant State() == f
        invariant |out| <= target
        invariant forall x | off <= x < off + |out| :: out[x - off] == c[x]
      {
        var chunk := ReadChunkAt(ino, off + |out|, target - |out|);
        out := out + chunk;
      }
    }

    /** The loop of itrunc over the entries of one indirect block. */
    method FreeLeaves(ino: nat, i: nat)
      requires Sound(State()) && ino < N_INODES && i < N_INDIRECT && table[ino].addrs[N_DIRECT + i] != 0
      modifies `blocks
      ensures blocks == old(blocks)[DATA_BITMAP := blocks[DATA_BITMAP]]
      ensures BitsOf(blocks[DATA_BITMAP], owner.Keys - Leaves(owner, ino, i, WORDS))
    {
      var p := table[ino].addrs[N_DIRECT + i];
      assert Ref(blocks, table[ino], Ptr(i)) == p;
      var entries := blocks[p];
      var j := 0;
      assert owner.Keys - Leaves(owner, ino, i, 0) == owner.Keys;
      hide BitsOf;
      while j < WORDS
        invariant 0 <= j <= WORDS
        invariant blocks == old(blocks)[DATA_BITMAP := blocks[DATA_BITMAP]]
        invariant BitsOf(blocks[DATA_BITMAP], owner.Keys - Leaves(owner, ino, i, j))
      {
        var b := GetWord(entries, j);
        LeavesNext(old(blocks), table, owner, ino, i, j);
        if b != 0 {
          ClearedBits(blocks[DATA_BITMAP], owner.Keys - Leaves(owner, ino, i, j), b);
          assert owner.Keys - Leaves(owner, ino, i, j + 1) == (owner.Keys - Leaves(owner, ino, i, j)) - {b};
          Bfree(b);
        }
        j := j + 1;
      }
    }

    /** One round of itrunc's outer loops: frees what hangs on one top-level pointer. */
    method DropPointer(ino: nat, k: nat)
      requires Sound(State()) && ino < N_INODES && k < N_ADDRS && table[ino].addrs[k] != 0
      modifies this
      ensures Sound(State())
      ensures blocks == old(blocks)[DATA_BITMAP := blocks[DATA_BITMAP]]
      ensures table == old(table)[ino := old(table)[ino].(addrs := old(table)[ino].addrs[k := 0])]
      ensures owner == old(owner) - Subtree(old(owner), ino, k, old(table)[ino].addrs[k])
      ensures Changed(old(State()), State())
    {
      hide Owned, Ref, BitsOf, Leaves, Subtree, Changed, Leads, ClearBit;
      var b := table[ino].addrs[k];
      ghost var f := State();
      ghost var gone := Subtree(owner, ino, k, b);
      TopIsOwned(f, ino, k);
      if k >= N_DIRECT {
        FreeLeaves(ino, k - N_DIRECT);
        ClearedBits(blocks[DATA_BITMAP], owner.Keys - Leaves(owner, ino, k - N_DIRECT, WORDS), b);
      } else {
        ClearedBits(blocks[DATA_BITMAP], owner.Keys, b);
      }
      Bfree(b);
      DropTop(f, ino, k, blocks[DATA_BITMAP]);
      table := table[ino := table[ino].(addrs := table[ino].addrs[k := 0])];
      owner := owner - gone;
      assert blocks == f.d[DATA_BITMAP := blocks[DATA_BITMAP]];
      assert State() == Dropped(f, ino, k, blocks[DATA_BITMAP]);
      ChangedOnce(f, Change(ino, Write.DropPointer(k, blocks[DATA_BITMAP])));
    }

    /** itrunc: the file becomes empty and gives back exactly the blocks that it owned; every
        other inode keeps its blocks, and no block but the bitmap and the inode's own block
        is written. */
    method Itrunc(ino: nat)
      requires Sound(State()) && ino < N_INODES
      modifies this
      ensures Sound(State())
      ensures table == old(table)[ino := old(table)[ino].(size := 0, addrs := table[ino].addrs)]
      ensures forall k | 0 <= k < N_ADDRS :: table[ino].addrs[k] == 0
      ensures owner == map b | b in old(owner) && old(owner)[b].ino != ino :: old(owner)[b]
      ensures DiskInode(blocks, ino) == table[ino]
      ensures forall n | 0 <= n < N_INODES && n != ino :: DiskInode(blocks, n) == DiskInode(old(blocks), n)
      ensures forall b: nat | b < N_BLKS && b != DATA_BITMAP && b != InodeBlock(ino) :: blocks[b] == old(blocks)[b]
      ensures Changed(old(State()), State())
    {
      hide Owned, GetInode, Changed, Leads;
      ghost var f := State();
      Unchanged(f);
      var k := 0;
      while k < N_ADDRS
        invariant 0 <= k <= N_ADDRS
        invariant Sound(State())
        invariant blocks == f.d[DATA_BITMAP := blocks[DATA_BITMAP]]
        invariant table == f.t[ino := f.t[ino].(addrs := table[ino].addrs)]
        invariant forall i | 0 <= i < k :: table[ino].addrs[i] == 0
        invariant forall i | k <= i < N_ADDRS :: table[ino].addrs[i] == f.t[ino].addrs[i]
        invariant forall b | b in owner :: b in f.o && owner[b] == f.o[b]
        invariant forall b | b in f.o && b !in owner :: f.o[b].ino == ino
        invariant Changed(f, State())
      {
        if table[ino].addrs[k] != 0 {
          ghost var g := State();
          DropPointer(ino, k);
          ChangedOn(f, g, State());
          forall b | b in g.o && b !in owner ensures g.o[b].ino == ino {
            SubtreeIsBelow(g, ino, k, b);
          }
        }
        k := k + 1;
      }
      EmptyOwnsNothing(State(), ino);
      ghost var h := State();
      table := table[ino := table[ino].(size := 0)];
      ChangedOnce(h, Change(ino, SetSize(0)));
      ChangedOn(f, h, State());
      MetadataOnly(h, State(), ino);
      h := State();
      Iupdate(ino);
      ChangedOn(f, h, State());
    }
  }

  /** A file of one byte on an otherwise empty disk. */
  ghost function OneByteFile(d: Disk, t: Table): Fs {
    var n := NoInode().(addrs := NoInode().addrs[0 := DATA_START], size := 1);
    Fs(Allocated(d, DATA_START), t[0 := n], map[DATA_START := Place(0, Direct(0))])
  }

  lemma OneByteIsSound(d: Disk, t: Table)
    requires d[DATA_BITMAP] == Zeros() && forall n | 0 <= n < N_INODES :: t[n] == NoInode()
    ensures Sound(OneByteFile(d, t)) && NoHoles(OneByteFile(d, t), 0)
  {
    hide Owned, SetBit;
    var f := Fs(d, t, map[]);
    ZeroIsSound(d, t);
    LinkTopExtends(f, DATA_START, 0, 0);
    var g := OneByteFile(d, t);
    var h := g.(t := g.t[0 := g.t[0].(size := 0)]);
    assert h.t == t[0 := t[0].(addrs := t[0].addrs[0 := DATA_START])];
    assert h.o == map[][DATA_START := Place(0, Direct(0))];
    MetadataOnly(h, g, 0);
    assert SlotOf(0) == Direct(0) && BlockAt(g, 0, 0) == DATA_START;
  }

  /** The missing cut-off does occur: a request for 2^64 - 1 bytes from offset 1 of a file of one
      byte is not cut off, although the file has no byte there. */
  method WrappedRead() returns (fs: FileSystem, r: ReadResult)
    ensures Sound(fs.State()) && fs.table[0].size == 1 && r.Unclamped?
  {
    hide Owned, SetBit, NoHoles, Allocated;
    var d: Disk := seq<Block>(N_BLKS, _ => Zeros());
    var t: Table := seq<Inode>(N_INODES, _ => NoInode());
    OneByteIsSound(d, t);
    var n := NoInode().(addrs := NoInode().addrs[0 := DATA_START], size := 1);
    fs := new FileSystem(Allocated(d, DATA_START), t[0 := n], map[DATA_START := Place(0, Direct(0))]);
    r := fs.ReadI(0, 1, WRAP - 1);
  }
}
