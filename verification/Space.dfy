/** How many blocks a file needs for a range of its bytes, and whether the disk has them. */
module Space {
  import opened Basics
  import opened Blocks
  import opened DiskLayout
  import opened Inodes

  /** The pointers on the way to the `nth` block of a file. */
  function Path(nth: nat): set<FileSlot>
    requires nth < MAX_BLOCKS
  {
    if nth < N_DIRECT then {Direct(nth)} else {Ptr((nth - N_DIRECT) / WORDS), SlotOf(nth)}
  }

  function TopSlot(k: nat): FileSlot
    requires k < N_ADDRS
  {
    if k < N_DIRECT then Direct(k) else Ptr(k - N_DIRECT)
  }

  /** The pointers on the way to the blocks from `lo` up to `hi`. */
  function Ways(lo: nat, hi: nat): set<FileSlot>
    requires hi <= MAX_BLOCKS
    decreases hi - lo
  {
    if lo >= hi then {} else Path(lo) + Ways(lo + 1, hi)
  }

  /** The pointers among some that lead nowhere yet. Each of them costs one block. */
  ghost function Vacant(f: Fs, ino: nat, ss: set<FileSlot>): set<FileSlot>
    requires ino < N_INODES
  {
    set s | s in ss && Ref(f.d, f.t[ino], s) == 0
  }

  /** The blocks that are left when a file has got all its blocks from `lo` up to `hi`; below
      zero if there are too few. */
  ghost function Slack(f: Fs, ino: nat, lo: nat, hi: nat): int
    requires ino < N_INODES && hi <= MAX_BLOCKS
  {
    N_DATA_BLKS - |f.o| - |Vacant(f, ino, Ways(lo, hi))|
  }

  /** One empty pointer of a file has got a block; no other pointer of it has. */
  ghost predicate Filled(f: Fs, g: Fs, ino: nat, slot: FileSlot) {
    && ino < N_INODES && |g.o| == |f.o| + 1 && Ref(f.d, f.t[ino], slot) == 0
    && forall s: FileSlot :: Ref(g.d, g.t[ino], s) == 0 <==> Ref(f.d, f.t[ino], s) == 0 && s != slot
  }

  /** A pointer leads to a block, which it got if it had none. */
  ghost predicate Provided(f: Fs, g: Fs, ino: nat, slot: FileSlot) {
    && ino < N_INODES
    && if Ref(f.d, f.t[ino], slot) == 0 then Filled(f, g, ino, slot) else g == f
  }

  /** So do all pointers on the way to the `nth` block. */
  ghost predicate Reaches(f: Fs, g: Fs, ino: nat, nth: nat) {
    && ino < N_INODES && nth < MAX_BLOCKS && |g.o| == |f.o| + |Vacant(f, ino, Path(nth))|
    && forall s: FileSlot :: Ref(g.d, g.t[ino], s) == 0 <==> Ref(f.d, f.t[ino], s) == 0 && s !in Path(nth)
  }

  lemma DirectReached(f: Fs, g: Fs, ino: nat, nth: nat)
    requires nth < N_DIRECT && Provided(f, g, ino, Direct(nth))
    ensures Reaches(f, g, ino, nth)
  {
    hide Ref;
    assert Vacant(f, ino, Path(nth)) == if Ref(f.d, f.t[ino], Direct(nth)) == 0 then {Direct(nth)} else {};
  }

  lemma VacantTwo(f: Fs, ino: nat, p: FileSlot, s: FileSlot)
    requires ino < N_INODES && p != s
    ensures |Vacant(f, ino, {p, s})|
         == (if Ref(f.d, f.t[ino], p) == 0 then 1 else 0) + (if Ref(f.d, f.t[ino], s) == 0 then 1 else 0)
  {
    hide Ref;
    assert Vacant(f, ino, {p, s})
        == (if Ref(f.d, f.t[ino], p) == 0 then {p} else {}) + (if Ref(f.d, f.t[ino], s) == 0 then {s} else {});
  }

  lemma LeafReached(f: Fs, g: Fs, h: Fs, ino: nat, nth: nat)
    requires N_DIRECT <= nth < MAX_BLOCKS
    requires Provided(f, g, ino, Ptr((nth - N_DIRECT) / WORDS)) && Provided(g, h, ino, SlotOf(nth))
    ensures Reaches(f, h, ino, nth)
  {
    hide Ref;
    VacantTwo(f, ino, Ptr((nth - N_DIRECT) / WORDS), SlotOf(nth));
  }

  /** There are too few blocks for the way to the `nth` block. */
  ghost predicate Blocked(f: Fs, ino: nat, nth: nat) {
    ino < N_INODES && nth < MAX_BLOCKS && |f.o| + |Vacant(f, ino, Path(nth))| > N_DATA_BLKS
  }

  lemma DirectBlocked(f: Fs, ino: nat, nth: nat)
    requires ino < N_INODES && nth < N_DIRECT && Ref(f.d, f.t[ino], Direct(nth)) == 0 && |f.o| == N_DATA_BLKS
    ensures Blocked(f, ino, nth)
  {
    assert Direct(nth) in Vacant(f, ino, Path(nth));
  }

  lemma LeafBlocked(f: Fs, g: Fs, ino: nat, nth: nat)
    requires ino < N_INODES && N_DIRECT <= nth < MAX_BLOCKS
    requires var p: Slot := Ptr((nth - N_DIRECT) / WORDS);
             if Ref(f.d, f.t[ino], p) == 0 && g == f then |f.o| == N_DATA_BLKS
             else Provided(f, g, ino, p) && |g.o| == N_DATA_BLKS && Ref(g.d, g.t[ino], SlotOf(nth)) == 0
    ensures Blocked(f, ino, nth)
  {
    hide Ref;
    VacantTwo(f, ino, Ptr((nth - N_DIRECT) / WORDS), SlotOf(nth));
  }

  /** Reaching the first block of a range takes exactly what the rest of it needs less. */
  lemma SlackKept(f: Fs, g: Fs, ino: nat, lo: nat, hi: nat)
    requires Reaches(f, g, ino, lo) && lo < hi <= MAX_BLOCKS
    ensures Slack(g, ino, lo + 1, hi) == Slack(f, ino, lo, hi)
  {
    hide Ref, Path;
    var now, rest := Vacant(f, ino, Path(lo)), Vacant(g, ino, Ways(lo + 1, hi));
    assert Vacant(f, ino, Ways(lo, hi)) == now + rest && now !! rest;
  }

  lemma SlackBlocked(f: Fs, ino: nat, lo: nat, hi: nat)
    requires Blocked(f, ino, lo) && lo < hi <= MAX_BLOCKS
    ensures Slack(f, ino, lo, hi) < 0
  {
    hide Ref, Path;
    SubsetCard(Vacant(f, ino, Path(lo)), Vacant(f, ino, Ways(lo, hi)));
  }

  /** Nothing but pointers and the number of owned blocks counts. */
  lemma SlackSame(f: Fs, g: Fs, ino: nat, lo: nat, hi: nat)
    requires ino < N_INODES && hi <= MAX_BLOCKS && g.o == f.o
    requires forall s: FileSlot :: Ref(g.d, g.t[ino], s) == Ref(f.d, f.t[ino], s)
    ensures Slack(g, ino, lo, hi) == Slack(f, ino, lo, hi)
  {
    hide Ref;
    assert Vacant(g, ino, Ways(lo, hi)) == Vacant(f, ino, Ways(lo, hi));
  }

  lemma SlackAtEnd(f: Fs, ino: nat, lo: nat, hi: nat)
    requires Sound(f) && ino < N_INODES && hi <= MAX_BLOCKS && hi <= lo
    ensures Slack(f, ino, lo, hi) >= 0
  {
    SoundFits(f);
    assert Vacant(f, ino, {}) == {};
  }

  /** Overwriting bytes of a file moves no pointer. */
  lemma SlackOverwritten(f: Fs, ino: nat, at: nat, chunk: seq<Byte>, lo: nat, hi: nat)
    requires Sound(f) && ino < N_INODES && IsData(BlockAt(f, ino, at)) && at % BLOCK_SIZE + |chunk| <= BLOCK_SIZE
    requires hi <= MAX_BLOCKS
    ensures Slack(PutChunk(f, ino, at, chunk), ino, lo, hi) == Slack(f, ino, lo, hi)
  {
    hide BitsOf, GetWord, Splice, Ways;
    var b := BlockAt(f, ino, at);
    assert f.o[b] == Place(ino, SlotOf(at / BLOCK_SIZE));
    forall s: FileSlot ensures Ref(PutChunk(f, ino, at, chunk).d, f.t[ino], s) == Ref(f.d, f.t[ino], s) {
      KeepsRefs(f.d, f.t, f.o, b, Splice(f.d[b], at % BLOCK_SIZE, chunk), ino, s);
    }
    SlackSame(f, PutChunk(f, ino, at, chunk), ino, lo, hi);
  }

  /** Reaching a block and overwriting bytes in it, for the rest of a range. */
  lemma SlackWritten(f: Fs, g: Fs, ino: nat, at: nat, chunk: seq<Byte>, hi: nat)
    requires ino < N_INODES && Reaches(f, g, ino, at / BLOCK_SIZE) && Sound(g) && hi <= MAX_BLOCKS
    requires IsData(BlockAt(g, ino, at)) && at % BLOCK_SIZE + |chunk| <= BLOCK_SIZE
    ensures at / BLOCK_SIZE < hi ==>
              Slack(PutChunk(g, ino, at, chunk), ino, at / BLOCK_SIZE + 1, hi) == Slack(f, ino, at / BLOCK_SIZE, hi)
  {
    hide Reaches, Slack, Sound, BlockAt, PutChunk;
    if at / BLOCK_SIZE < hi {
      SlackKept(f, g, ino, at / BLOCK_SIZE, hi);
      SlackOverwritten(g, ino, at, chunk, at / BLOCK_SIZE + 1, hi);
    }
  }

  /** The number of blocks up to an offset, as far as a file can have them. */
  function BlocksTo(end: nat): (n: nat)
    ensures n <= MAX_BLOCKS
  {
    if end > MAX_BLOCKS * BLOCK_SIZE then MAX_BLOCKS else (end + BLOCK_SIZE - 1) / BLOCK_SIZE
  }

  /** The disk has a block for every missing one of a range of bytes, as far as a file can go. */
  ghost predicate Enough(f: Fs, ino: nat, off: nat, n: nat)
    requires ino < N_INODES
  {
    n == 0 || Slack(f, ino, off / BLOCK_SIZE, BlocksTo(off + n)) >= 0
  }

  /** The next block to reach after `done` bytes have been written from `off` on. */
  function NextBlock(off: nat, done: nat): nat {
    if done == 0 then off / BLOCK_SIZE else (off + done + BLOCK_SIZE - 1) / BLOCK_SIZE
  }

  lemma NextBlockIs(off: nat, done: nat, len: nat)
    requires done == 0 || (off + done) % BLOCK_SIZE == 0
    ensures NextBlock(off, done) == (off + done) / BLOCK_SIZE
    ensures 0 < len <= BLOCK_SIZE - (off + done) % BLOCK_SIZE ==>
              NextBlock(off, done + len) == (off + done) / BLOCK_SIZE + 1
    ensures (off + done) / BLOCK_SIZE < MAX_BLOCKS && len <= BLOCK_SIZE - (off + done) % BLOCK_SIZE ==>
              off + done + len <= MAX_BLOCKS * BLOCK_SIZE
  {
  }

  lemma RoundIsInside(off: nat, done: nat, n: nat)
    requires done < n
    ensures (off + done) / BLOCK_SIZE < MAX_BLOCKS ==> (off + done) / BLOCK_SIZE < BlocksTo(off + n)
    ensures (off + done) / BLOCK_SIZE >= MAX_BLOCKS ==>
              BlocksTo(off + n) == MAX_BLOCKS && off + n > MAX_BLOCKS * BLOCK_SIZE
  {
  }

  lemma AllReached(off: nat, n: nat)
    requires n > 0
    ensures BlocksTo(off + n) <= NextBlock(off, n)
  {
  }

  lemma {:induction false} WaysCard(lo: nat, hi: nat)
    requires lo <= hi <= MAX_BLOCKS
    ensures |Ways(lo, hi)| <= 2 * (hi - lo)
    decreases hi - lo
  {
    if lo < hi {
      WaysCard(lo + 1, hi);
      assert |Path(lo) + Ways(lo + 1, hi)| <= |Path(lo)| + |Ways(lo + 1, hi)|;
    }
  }

  /** A disk with that much room has the blocks for any one file. */
  // ------------------------------------------------------------------ new files

  lemma {:induction false} WaysAppend(lo: nat, hi: nat)
    requires lo <= hi < MAX_BLOCKS
    ensures Ways(lo, hi + 1) == Ways(lo, hi) + Path(hi)
    decreases hi - lo
  {
    hide Path;
    if lo < hi {
      WaysAppend(lo + 1, hi);
    } else {
      assert Ways(lo + 1, hi + 1) == {};
    }
  }

  /** Where in a file a pointer is first on the way. */
  function FirstUse(s: FileSlot): nat {
    match s
    case Direct(i) => i
    case Ptr(i) => N_DIRECT + WORDS * i
    case Leaf(i, j) => N_DIRECT + WORDS * i + j
  }

  lemma PathUses(nth: nat, s: FileSlot)
    requires nth < MAX_BLOCKS
    ensures s in Path(nth) ==> FirstUse(s) <= nth && (FirstUse(s) == nth || s.Ptr?)
    ensures nth == FirstUse(s) ==> s in Path(nth) || (s.Direct? && nth >= N_DIRECT)
  {
  }

  /** The pointers on the way to the first m blocks are those that are first used there. */
  lemma {:induction false} WaysAre(m: nat, s: FileSlot)
    requires m <= MAX_BLOCKS
    ensures s in Ways(0, m) <==> FirstUse(s) < m
    decreases m
  {
    hide Path, FirstUse;
    if m > 0 {
      WaysAppend(0, m - 1);
      WaysAre(m - 1, s);
      PathUses(m - 1, s);
      assert s.Direct? ==> FirstUse(s) < N_DIRECT by {
        DirectUse(s);
      }
    }
  }

  lemma DirectUse(s: FileSlot)
    ensures s.Direct? ==> FirstUse(s) < N_DIRECT
  {
  }

  /** A file of m blocks needs these and one indirect block for every 256 behind the first ten. */
  lemma {:induction false} WaysCount(m: nat)
    requires m <= MAX_BLOCKS
    ensures |Ways(0, m)| == m + if m <= 10 then 0 else (m - 10 + 255) / 256
    decreases m
  {
    if m == 0 {
      assert Ways(0, m) == {};
    } else {
      hide Ways, Path, SlotOf, FirstUse;
      var k := m - 1;
      WaysCount(k);
      WaysAppend(0, k);
      WaysAre(k, SlotOf(k));
      SlotUse(k);
      if k >= N_DIRECT {
        WaysAre(k, Ptr((k - N_DIRECT) / WORDS));
      }
      NewWays(k);
      NextCount(k);
    }
  }

  lemma SlotUse(nth: nat)
    requires nth < MAX_BLOCKS
    ensures FirstUse(SlotOf(nth)) == nth
  {
  }

  lemma NextCount(k: nat)
    ensures (if k + 1 <= 10 then 0 else (k + 1 - 10 + 255) / 256)
         == (if k <= 10 then 0 else (k - 10 + 255) / 256) + if k >= 10 && (k - 10) % 256 == 0 then 1 else 0
  {
  }

  lemma NewWays(k: nat)
    requires k < MAX_BLOCKS && SlotOf(k) !in Ways(0, k)
    requires k >= N_DIRECT ==>
               (Ptr((k - N_DIRECT) / WORDS) in Ways(0, k) <==> FirstUse(Ptr((k - N_DIRECT) / WORDS)) < k)
    ensures |Ways(0, k) + Path(k)| == |Ways(0, k)| + if k >= 10 && (k - 10) % 256 == 0 then 2 else 1
  {
    hide Ways;
    var w := Ways(0, k);
    if k >= N_DIRECT {
      var p := Ptr((k - N_DIRECT) / WORDS);
      if p in w {
        assert w + Path(k) == w + {SlotOf(k)};
      } else {
        assert w + Path(k) == w + {p} + {SlotOf(k)};
      }
    }
  }

  /** A new file gets n bytes exactly if the disk has that many free blocks. */
  lemma EnoughForNew(f: Fs, ino: nat, n: nat)
    requires ino < N_INODES && 0 < n <= MAX_BLOCKS * BLOCK_SIZE
    requires forall k | 0 <= k < N_ADDRS :: f.t[ino].addrs[k] == 0
    ensures var m := (n + 1023) / 1024;
            Enough(f, ino, 0, n) <==> m + (if m <= 10 then 0 else (m - 10 + 255) / 256) <= N_DATA_BLKS - |f.o|
  {
    hide Ways;
    var m := BlocksTo(n);
    WaysCount(m);
    assert forall s: FileSlot :: Ref(f.d, f.t[ino], s) == 0;
    assert Vacant(f, ino, Ways(0, m)) == Ways(0, m);
  }

  lemma RoomForOne(f: Fs, ino: nat, off: nat, n: nat)
    requires ino < N_INODES && |f.o| + 2 * MAX_BLOCKS <= N_DATA_BLKS
    ensures Enough(f, ino, off, n)
  {
    hide Ref, Ways, BlocksTo;
    var lo, hi := off / BLOCK_SIZE, BlocksTo(off + n);
    if lo <= hi {
      WaysCard(lo, hi);
    } else {
      NoWays(lo, hi);
    }
    SubsetCard(Vacant(f, ino, Ways(lo, hi)), Ways(lo, hi));
  }

  lemma NoWays(lo: nat, hi: nat)
    requires hi <= lo && hi <= MAX_BLOCKS
    ensures Ways(lo, hi) == {}
  {
  }

  // ------------------------------------------------------------------ counting blocks

  lemma SoundFits(f: Fs)
    requires Sound(f)
    ensures |f.o| <= N_DATA_BLKS
  {
    hide Range;
    RangeCard(DATA_START, N_DATA_BLKS);
    SubsetCard(f.o.Keys, Range(DATA_START, N_DATA_BLKS));
  }

  /** All bits are set exactly when all blocks are owned. */
  lemma FullDisk(f: Fs)
    requires Sound(f)
    ensures OutOfSpace(f.d) <==> |f.o| == N_DATA_BLKS
  {
    hide Ref, Bit, Range;
    RangeCard(DATA_START, N_DATA_BLKS);
    SubsetCard(f.o.Keys, Range(DATA_START, N_DATA_BLKS));
    if OutOfSpace(f.d) {
      forall b: nat | DATA_START <= b < N_BLKS ensures b in f.o {
        var d := b - DATA_START;
        assert Bit(f.d[DATA_BITMAP], d / 8, d % 8) && DATA_START + 8 * (d / 8) + d % 8 == b;
      }
      assert f.o.Keys == Range(DATA_START, N_DATA_BLKS);
    }
  }

  // ------------------------------------------------------------------ what bmap does

  /** Filling a top-level pointer. */
  lemma TopFilled(f: Fs, b: nat, ino: nat, k: nat)
    requires Sound(f) && IsData(b) && b !in f.o
    requires ino < N_INODES && k < N_ADDRS && f.t[ino].addrs[k] == 0
    ensures var slot: Slot := if k < N_DIRECT then Direct(k) else Ptr(k - N_DIRECT);
            var t: Table := f.t[ino := f.t[ino].(addrs := f.t[ino].addrs[k := b])];
            Filled(f, Fs(Allocated(f.d, b), t, f.o[b := Place(ino, slot)]), ino, slot)
  {
    hide SetBit, BitsOf, GetWord;
    forall s: FileSlot ensures Ref(Allocated(f.d, b), f.t[ino], s) == Ref(f.d, f.t[ino], s) {
      AllocatedRefs(f.d, f.t, f.o, b, ino, s);
    }
    ZeroWords();
  }

  lemma ZeroWords()
    ensures forall j: nat | j < WORDS :: GetWord(Zeros(), j) == 0
  {
  }

  /** Filling an entry of an indirect block. */
  lemma EntryFilled(f: Fs, b: nat, ino: nat, i: nat, j: nat)
    requires Sound(f) && IsData(b) && b !in f.o
    requires ino < N_INODES && i < N_INDIRECT && j < WORDS
    requires var p := f.t[ino].addrs[N_DIRECT + i]; p != 0 && IsData(p) && GetWord(f.d[p], j) == 0
    ensures var p := f.t[ino].addrs[N_DIRECT + i];
            var g := Fs(Allocated(f.d, b)[p := PutWord(f.d[p], j, b)], f.t, f.o[b := Place(ino, Leaf(i, j))]);
            Filled(f, g, ino, Leaf(i, j))
  {
    var p := f.t[ino].addrs[N_DIRECT + i];
    var g := Fs(Allocated(f.d, b)[p := PutWord(f.d[p], j, b)], f.t, f.o[b := Place(ino, Leaf(i, j))]);
    PointerIsData(f, ino, i);
    hide SetBit, BitsOf, GetWord, PutWord;
    forall s: FileSlot | s != Leaf(i, j) ensures Ref(g.d, g.t[ino], s) == Ref(f.d, f.t[ino], s) {
      AllocatedRefs(f.d, f.t, f.o, b, ino, s);
      if s.Leaf? {
        assert Ref(f.d, f.t[ino], Ptr(s.i)) == f.t[ino].addrs[N_DIRECT + s.i];
      }
    }
  }
}
