/** Inodes, the blocks they reach, and who owns each data block. */
module Inodes {
  import opened Basics
  import opened Blocks
  import opened DiskLayout

  const N_DIRECT: nat := 10
  const N_INDIRECT: nat := 3
  const N_ADDRS: nat := N_DIRECT + N_INDIRECT
  const N_INODES: nat := N_INODE_BLKS * INODES_PER_BLOCK

  /** The largest number of data blocks that one file can have. */
  const MAX_BLOCKS: nat := N_DIRECT + N_INDIRECT * WORDS

  type Addrs = a: seq<Word> | |a| == N_ADDRS witness seq(N_ADDRS, _ => 0)

  /** The fields of an inode; `kind` and `links` each pack two 16-bit fields into a word. */
  datatype Inode = Inode(kind: Word, links: Word, size: Word, addrs: Addrs)

  type Table = t: seq<Inode> | |t| == N_INODES witness seq<Inode>(N_INODES, _ => Inode(0, 0, 0, seq(N_ADDRS, _ => 0)))

  predicate IsData(b: nat) {
    DATA_START <= b < N_BLKS
  }

  // ---------- bitmap ----------

  /** Bit `s` of a number. */
  predicate BitOf(x: nat, s: nat) {
    if s == 0 then x % 2 == 1 else BitOf(x / 2, s - 1)
  }

  function OrBit(x: nat, s: nat): (r: nat)
    ensures forall t: nat :: BitOf(r, t) <==> t == s || BitOf(x, t)
  {
    if s == 0 then x - x % 2 + 1
    else
      var r := 2 * OrBit(x / 2, s - 1) + x % 2;
      assert forall t: nat | t > 0 :: BitOf(r, t) <==> BitOf(r / 2, t - 1);
      r
  }

  function AndNotBit(x: nat, s: nat): (r: nat)
    ensures r <= x
    ensures forall t: nat :: BitOf(r, t) <==> t != s && BitOf(x, t)
  {
    if s == 0 then x - x % 2
    else
      var r := 2 * AndNotBit(x / 2, s - 1) + x % 2;
      assert forall t: nat | t > 0 :: BitOf(r, t) <==> BitOf(r / 2, t - 1);
      r
  }

  lemma {:induction false} OrBitBound(x: nat, s: nat, w: nat)
    requires x < Pow2(w) && s < w
    ensures OrBit(x, s) < Pow2(w)
  {
    if s > 0 {
      OrBitBound(x / 2, s - 1, w - 1);
    }
  }

  predicate Bit(b: Block, byte: nat, s: nat)
    requires byte < BLOCK_SIZE
  {
    BitOf(b[byte], s)
  }

  /** Sets one bit of a bitmap block and no other. */
  function SetBit(b: Block, byte: nat, s: nat): (r: Block)
    requires byte < BLOCK_SIZE && s < 8
    ensures forall y, t: nat | 0 <= y < BLOCK_SIZE :: Bit(r, y, t) <==> (y == byte && t == s) || Bit(b, y, t)
  {
    assert Pow2(8) == 256;
    OrBitBound(b[byte], s, 8);
    b[byte := OrBit(b[byte], s)]
  }

  /** Clears one bit of a bitmap block and no other. */
  function ClearBit(b: Block, byte: nat, s: nat): (r: Block)
    requires byte < BLOCK_SIZE && s < 8
    ensures forall y, t: nat | 0 <= y < BLOCK_SIZE :: Bit(r, y, t) <==> !(y == byte && t == s) && Bit(b, y, t)
  {
    b[byte := AndNotBit(b[byte], s)]
  }

  // ---------- inodes on the disk ----------

  function InodeBlock(ino: nat): nat {
    INODE_START + ino / INODES_PER_BLOCK
  }

  /** Words `16 * slot` up to `16 * slot + 15` of a block hold one inode. */
  function GetInode(b: Block, slot: nat): Inode
    requires slot < INODES_PER_BLOCK
  {
    Inode(GetWord(b, 16 * slot), GetWord(b, 16 * slot + 1), GetWord(b, 16 * slot + 2),
          GetWords(b, 16 * slot + 3, N_ADDRS))
  }

  function GetWords(b: Block, at: nat, n: nat): (r: seq<Word>)
    requires at + n <= WORDS
    ensures |r| == n
    ensures forall i | 0 <= i < n :: r[i] == GetWord(b, at + i)
  {
    seq<Word>(n, i requires 0 <= i < n => GetWord(b, at + i))
  }

  function PutWords(b: Block, at: nat, ws: seq<Word>): (r: Block)
    requires at + |ws| <= WORDS
    ensures forall i | 0 <= i < |ws| :: GetWord(r, at + i) == ws[i]
    ensures forall j | 0 <= j < WORDS && (j < at || at + |ws| <= j) :: GetWord(r, j) == GetWord(b, j)
  {
    if ws == [] then b
    else
      var n := |ws| - 1;
      PutWord(PutWords(b, at, ws[..n]), at + n, ws[n])
  }

  function PutInode(b: Block, slot: nat, n: Inode): (r: Block)
    requires slot < INODES_PER_BLOCK
  {
    PutWords(b, 16 * slot, [n.kind, n.links, n.size] + n.addrs)
  }

  /** Writing an inode and reading it back gives the same inode, and its neighbours in the
      block stay as they are. */
  lemma InodeRoundTrip(b: Block, slot: nat, n: Inode)
    requires slot < INODES_PER_BLOCK
    ensures GetInode(PutInode(b, slot, n), slot) == n
    ensures forall other | 0 <= other < INODES_PER_BLOCK && other != slot ::
              GetInode(PutInode(b, slot, n), other) == GetInode(b, other)
  {
    var ws := [n.kind, n.links, n.size] + n.addrs;
    var r := PutInode(b, slot, n);
    assert GetWord(r, 16 * slot + 0) == ws[0] && GetWord(r, 16 * slot + 1) == ws[1];
    assert GetWord(r, 16 * slot + 2) == ws[2];
    forall i | 0 <= i < N_ADDRS ensures GetWord(r, 16 * slot + 3 + i) == n.addrs[i] {
      assert GetWord(r, 16 * slot + (3 + i)) == ws[3 + i];
    }
    assert GetInode(r, slot).addrs == n.addrs;
    forall other | 0 <= other < INODES_PER_BLOCK && other != slot
      ensures GetInode(r, other) == GetInode(b, other)
    {
      assert GetInode(r, other).addrs == GetInode(b, other).addrs;
    }
  }

  function DiskInode(d: Disk, ino: nat): Inode
    requires ino < N_INODES
  {
    GetInode(d[InodeBlock(ino)], ino % INODES_PER_BLOCK)
  }

  // ---------- block pointers and their owners ----------

  /** The places where an inode keeps block numbers: its direct pointers, its pointers to
      indirect blocks, and the entries of those. */
  datatype Slot = Direct(i: nat) | Ptr(i: nat) | Leaf(i: nat, j: nat)

  predicate IsSlot(s: Slot) {
    match s
    case Direct(i) => i < N_DIRECT
    case Ptr(i) => i < N_INDIRECT
    case Leaf(i, j) => i < N_INDIRECT && j < WORDS
  }

  type FileSlot = s: Slot | IsSlot(s) witness Direct(0)

  datatype Place = Place(ino: nat, slot: FileSlot)

  function Ref(d: Disk, n: Inode, s: FileSlot): Word {
    match s
    case Direct(i) => n.addrs[i]
    case Ptr(i) => n.addrs[N_DIRECT + i]
    case Leaf(i, j) =>
      var p := n.addrs[N_DIRECT + i];
      if IsData(p) then GetWord(d[p], j) else 0
  }

  /** Block ownership: `o` gives for every allocated data block the one place that refers to
      it. Every non-zero pointer of every inode is in `o` at its own place, so no block has
      two places, and the bitmap has exactly the bits of the blocks in `o`. */
  ghost predicate Owned(d: Disk, t: Table, o: map<nat, Place>) {
    && (forall b | b in o :: IsData(b) && o[b].ino < N_INODES && Ref(d, t[o[b].ino], o[b].slot) == b)
    && (forall ino: nat, s: FileSlot | ino < N_INODES && Ref(d, t[ino], s) != 0 ::
          Ref(d, t[ino], s) in o && o[Ref(d, t[ino], s)] == Place(ino, s))
    && BitsOf(d[DATA_BITMAP], o.Keys)
  }

  /** A bitmap block that marks exactly the data blocks in `used`. */
  ghost predicate BitsOf(b: Block, used: set<nat>) {
    forall byte: nat, s: nat | byte < BLOCK_SIZE && s < 8 ::
      Bit(b, byte, s) <==> DATA_START + 8 * byte + s in used
  }

  /** The bitmap has no clear bit left. */
  ghost predicate OutOfSpace(d: Disk) {
    forall byte: nat, s: nat | byte < BLOCK_SIZE && s < 8 :: Bit(d[DATA_BITMAP], byte, s)
  }

  /** If the first clear bit is the one for block `b`, every block before it is in use. */
  lemma FirstClear(bitmap: Block, used: set<nat>, b: nat)
    requires BitsOf(bitmap, used) && IsData(b)
    requires var n := b - DATA_START;
             && !Bit(bitmap, n / 8, n % 8)
             && (forall y: nat, t: nat | y < n / 8 && t < 8 :: Bit(bitmap, y, t))
             && (forall t: nat | t < n % 8 :: Bit(bitmap, n / 8, t))
    ensures b !in used && forall c: nat | IsData(c) && c < b :: c in used
  {
    hide Bit;
    var n := b - DATA_START;
    assert DATA_START + 8 * (n / 8) + n % 8 == b;
    forall c: nat | IsData(c) && c < b ensures c in used {
      var m := c - DATA_START;
      assert Bit(bitmap, m / 8, m % 8);
      assert DATA_START + 8 * (m / 8) + m % 8 == c;
    }
  }

  /** A block that is no indirect block of any inode can change without moving a pointer. */
  lemma KeepsRefs(d: Disk, t: Table, o: map<nat, Place>, b: nat, data: Block, ino: nat, s: FileSlot)
    requires Owned(d, t, o) && ino < N_INODES
    requires b < N_BLKS && (b in o ==> !o[b].slot.Ptr?)
    ensures Ref(d[b := data], t[ino], s) == Ref(d, t[ino], s)
  {
    if s.Leaf? {
      assert Ref(d, t[ino], Ptr(s.i)) == t[ino].addrs[N_DIRECT + s.i];
    }
  }

  lemma WriteKeepsOwned(d: Disk, t: Table, o: map<nat, Place>, b: nat, data: Block)
    requires Owned(d, t, o)
    requires b < N_BLKS && b != DATA_BITMAP && (b in o ==> !o[b].slot.Ptr?)
    ensures Owned(d[b := data], t, o)
  {
    var e := d[b := data];
    forall ino: nat, s: FileSlot | ino < N_INODES ensures Ref(e, t[ino], s) == Ref(d, t[ino], s) {
      KeepsRefs(d, t, o, b, data, ino, s);
    }
  }

  /** The disk after balloc: one more bit and one zeroed block. */
  function Allocated(d: Disk, b: nat): Disk
    requires IsData(b)
  {
    d[DATA_BITMAP := SetBit(d[DATA_BITMAP], (b - DATA_START) / 8, (b - DATA_START) % 8)][b := Zeros()]
  }

  lemma AllocatedRefs(d: Disk, t: Table, o: map<nat, Place>, b: nat, ino: nat, s: FileSlot)
    requires Owned(d, t, o) && IsData(b) && b !in o && ino < N_INODES
    ensures Ref(Allocated(d, b), t[ino], s) == Ref(d, t[ino], s)
  {
    if s.Leaf? {
      assert Ref(d, t[ino], Ptr(s.i)) == t[ino].addrs[N_DIRECT + s.i];
    }
  }

  lemma AllocatedBits(bitmap: Block, used: set<nat>, b: nat)
    requires BitsOf(bitmap, used) && IsData(b)
    ensures BitsOf(SetBit(bitmap, (b - DATA_START) / 8, (b - DATA_START) % 8), used + {b})
  {
  }

  /** Hanging a fresh block into an empty pointer of an inode keeps ownership. */
  lemma LinkTop(d: Disk, t: Table, o: map<nat, Place>, b: nat, ino: nat, k: nat)
    requires Owned(d, t, o) && IsData(b) && b !in o
    requires ino < N_INODES && k < N_ADDRS && t[ino].addrs[k] == 0
    ensures var slot: Slot := if k < N_DIRECT then Direct(k) else Ptr(k - N_DIRECT);
            Owned(Allocated(d, b), t[ino := t[ino].(addrs := t[ino].addrs[k := b])], o[b := Place(ino, slot)])
  {
    hide SetBit, BitsOf, GetWord;
    var slot: FileSlot := if k < N_DIRECT then Direct(k) else Ptr(k - N_DIRECT);
    var e, u := Allocated(d, b), t[ino := t[ino].(addrs := t[ino].addrs[k := b])];
    AllocatedBits(d[DATA_BITMAP], o.Keys, b);
    assert o[b := Place(ino, slot)].Keys == o.Keys + {b};
    forall n: nat, s: FileSlot | n < N_INODES && !(n == ino && s == slot)
      ensures Ref(e, u[n], s) == Ref(d, t[n], s)
    {
      AllocatedRefs(d, t, o, b, n, s);
    }
  }

  /** Hanging a fresh block into an empty entry of an indirect block keeps ownership. */
  lemma LinkLeaf(d: Disk, t: Table, o: map<nat, Place>, b: nat, ino: nat, i: nat, j: nat)
    requires Owned(d, t, o) && IsData(b) && b !in o
    requires ino < N_INODES && i < N_INDIRECT && j < WORDS
    requires var p := t[ino].addrs[N_DIRECT + i]; p != 0 && IsData(p) && GetWord(d[p], j) == 0
    ensures var p := t[ino].addrs[N_DIRECT + i];
            Owned(Allocated(d, b)[p := PutWord(d[p], j, b)], t, o[b := Place(ino, Leaf(i, j))])
  {
    hide SetBit, BitsOf, PutWord, GetWord;
    var p := t[ino].addrs[N_DIRECT + i];
    var e := Allocated(d, b)[p := PutWord(d[p], j, b)];
    assert Ref(d, t[ino], Ptr(i)) == p && o[p] == Place(ino, Ptr(i));
    AllocatedBits(d[DATA_BITMAP], o.Keys, b);
    assert o[b := Place(ino, Leaf(i, j))].Keys == o.Keys + {b};
    forall n: nat, s: FileSlot | n < N_INODES && !(n == ino && s == Leaf(i, j))
      ensures Ref(e, t[n], s) == Ref(d, t[n], s)
    {
      AllocatedRefs(d, t, o, b, n, s);
      if s.Leaf? {
        assert Ref(d, t[n], Ptr(s.i)) == t[n].addrs[N_DIRECT + s.i];
      }
    }
  }

  // ---------- file contents ----------

  /** The file system as one value: the blocks, the latest inodes, and the owners. */
  datatype Fs = Fs(d: Disk, t: Table, o: map<nat, Place>)

  /** The pointer that leads to the `nth` data block of a file. */
  function SlotOf(nth: nat): (s: FileSlot)
    requires nth < MAX_BLOCKS
    ensures !s.Ptr?
  {
    if nth < N_DIRECT then Direct(nth) else Leaf((nth - N_DIRECT) / WORDS, (nth - N_DIRECT) % WORDS)
  }

  /** The block that holds byte `x` of a file, or 0. */
  function BlockAt(f: Fs, ino: nat, x: nat): Word
    requires ino < N_INODES
  {
    if x / BLOCK_SIZE < MAX_BLOCKS then Ref(f.d, f.t[ino], SlotOf(x / BLOCK_SIZE)) else 0
  }

  function ByteAt(f: Fs, ino: nat, x: nat): Byte
    requires ino < N_INODES
  {
    var b := BlockAt(f, ino, x);
    if IsData(b) then f.d[b][x % BLOCK_SIZE] else 0
  }

  function Content(f: Fs, ino: nat): seq<Byte>
    requires ino < N_INODES
  {
    seq(f.t[ino].size, x requires 0 <= x < f.t[ino].size => ByteAt(f, ino, x))
  }

  lemma ContentSize(f: Fs, n: nat)
    requires n < N_INODES
    ensures |Content(f, n)| == f.t[n].size
  {
  }

  /** Where byte x of a file is: in the block that the direct pointer x / 1024 names, or in the one
      that an entry of an indirect block names, at x % 1024; it is zero where there is no block. */
  lemma ByteIsIn(f: Fs, ino: nat, x: nat)
    requires Sound(f) && ino < N_INODES && x < MAX_BLOCKS * BLOCK_SIZE
    ensures var nth, addrs := x / BLOCK_SIZE, f.t[ino].addrs;
            if nth < N_DIRECT then
              if addrs[nth] == 0 then ByteAt(f, ino, x) == 0
              else IsData(addrs[nth]) && ByteAt(f, ino, x) == f.d[addrs[nth]][x % BLOCK_SIZE]
            else
              var p := addrs[N_DIRECT + (nth - N_DIRECT) / WORDS];
              if p == 0 then ByteAt(f, ino, x) == 0
              else
                && IsData(p)
                && var b := GetWord(f.d[p], (nth - N_DIRECT) % WORDS);
                   if b == 0 then ByteAt(f, ino, x) == 0
                   else IsData(b) && ByteAt(f, ino, x) == f.d[b][x % BLOCK_SIZE]
  {
    var s := SlotOf(x / BLOCK_SIZE);
    assert Ref(f.d, f.t[ino], s) != 0 ==> Ref(f.d, f.t[ino], s) in f.o;
    if s.Leaf? {
      var p := Ref(f.d, f.t[ino], Ptr(s.i));
      assert p != 0 ==> p in f.o;
    }
  }

  ghost predicate NoHoles(f: Fs, ino: nat)
    requires ino < N_INODES
  {
    forall x: nat | x < f.t[ino].size :: BlockAt(f, ino, x) != 0
  }

  ghost predicate Sound(f: Fs) {
    Owned(f.d, f.t, f.o)
  }

  function NoInode(): Inode { Inode(0, 0, 0, seq(N_ADDRS, _ => 0)) }

  /** The zeroed image: nothing is owned, and there is nothing to own. */
  lemma ZeroIsSound(d: Disk, t: Table)
    requires d[DATA_BITMAP] == Zeros() && forall n | 0 <= n < N_INODES :: t[n] == NoInode()
    ensures Sound(Fs(d, t, map[]))
  {
    forall n: nat, s: FileSlot | n < N_INODES ensures Ref(d, t[n], s) == 0 {
    }
    forall byte: nat, s: nat | byte < BLOCK_SIZE && s < 8 ensures !Bit(Zeros(), byte, s) {
      ZeroBits(s);
    }
  }

  lemma {:induction false} ZeroBits(s: nat)
    ensures !BitOf(0, s)
  {
    if s > 0 {
      ZeroBits(s - 1);
    }
  }

  /** Going from `f` to `g`, pointers have only been filled in, in inode `ino`, and no data
      block that was reachable before has changed. */
  ghost predicate Extends(f: Fs, g: Fs, ino: nat) {
    && ino < N_INODES
    && (forall n | 0 <= n < N_INODES && n != ino :: g.t[n] == f.t[n])
    && g.t[ino] == f.t[ino].(addrs := g.t[ino].addrs)
    && (forall n: nat, s: FileSlot | n < N_INODES && Ref(f.d, f.t[n], s) != 0 ::
          Ref(g.d, g.t[n], s) == Ref(f.d, f.t[n], s))
    && (forall b | b in f.o && IsData(b) :: b in g.o && (f.o[b].slot.Ptr? || g.d[b] == f.d[b]))
    && (forall b: nat | b < DATA_START && b != DATA_BITMAP :: g.d[b] == f.d[b])
  }

  lemma ExtendsBytes(f: Fs, g: Fs, ino: nat, n: nat, x: nat)
    requires Sound(f) && Extends(f, g, ino) && n < N_INODES
    requires BlockAt(f, n, x) != 0
    ensures BlockAt(g, n, x) == BlockAt(f, n, x) && ByteAt(g, n, x) == ByteAt(f, n, x)
  {
  }

  lemma ExtendsSelf(f: Fs, ino: nat)
    requires ino < N_INODES
    ensures Extends(f, f, ino)
  {
  }

  lemma ExtendsTransitive(f: Fs, g: Fs, h: Fs, ino: nat)
    requires Sound(f) && Sound(g) && Extends(f, g, ino) && Extends(g, h, ino)
    ensures Extends(f, h, ino)
  {
    forall b | b in f.o && IsData(b) ensures g.o[b] == f.o[b] {
      assert Ref(f.d, f.t[f.o[b].ino], f.o[b].slot) == b;
      assert Ref(g.d, g.t[f.o[b].ino], f.o[b].slot) == b;
    }
  }

  /** A fresh indirect block has no entries yet. */
  lemma EmptyPointerEmptyLeaf(f: Fs, g: Fs, ino: nat, i: nat, j: nat)
    requires Sound(f) && Sound(g) && Extends(f, g, ino) && i < N_INDIRECT && j < WORDS
    requires var p := g.t[ino].addrs[N_DIRECT + i];
             && p != 0
             && (g == f || (p !in f.o && IsData(p) && g.d == Allocated(f.d, p) && f.t[ino].addrs[N_DIRECT + i] == 0))
    ensures Ref(f.d, f.t[ino], Leaf(i, j)) == Ref(g.d, g.t[ino], Leaf(i, j))
    ensures forall b | b in f.o :: b in g.o
  {
  }

  lemma PointerIsData(f: Fs, ino: nat, i: nat)
    requires Sound(f) && ino < N_INODES && i < N_INDIRECT && f.t[ino].addrs[N_DIRECT + i] != 0
    ensures var p := f.t[ino].addrs[N_DIRECT + i]; IsData(p) && p in f.o && f.o[p] == Place(ino, Ptr(i))
    ensures var p := f.t[ino].addrs[N_DIRECT + i]; forall j: nat | j < WORDS ::
              Ref(f.d, f.t[ino], Leaf(i, j)) == GetWord(f.d[p], j)
  {
    assert Ref(f.d, f.t[ino], Ptr(i)) == f.t[ino].addrs[N_DIRECT + i];
  }

  /** What bmap does when it fills pointer `k` of an inode. */
  lemma LinkTopExtends(f: Fs, b: nat, ino: nat, k: nat)
    requires Sound(f) && IsData(b) && b !in f.o
    requires ino < N_INODES && k < N_ADDRS && f.t[ino].addrs[k] == 0
    ensures var slot: Slot := if k < N_DIRECT then Direct(k) else Ptr(k - N_DIRECT);
            var t: Table := f.t[ino := f.t[ino].(addrs := f.t[ino].addrs[k := b])];
            var g := Fs(Allocated(f.d, b), t, f.o[b := Place(ino, slot)]);
            Sound(g) && Extends(f, g, ino)
  {
    LinkTop(f.d, f.t, f.o, b, ino, k);
    forall n: nat, s: FileSlot | n < N_INODES ensures Ref(Allocated(f.d, b), f.t[n], s) == Ref(f.d, f.t[n], s) {
      AllocatedRefs(f.d, f.t, f.o, b, n, s);
    }
  }

  /** What bmap does when it fills entry `j` of indirect block `i` of an inode. */
  lemma LinkLeafExtends(f: Fs, b: nat, ino: nat, i: nat, j: nat)
    requires Sound(f) && IsData(b) && b !in f.o
    requires ino < N_INODES && i < N_INDIRECT && j < WORDS
    requires var p := f.t[ino].addrs[N_DIRECT + i]; p != 0 && IsData(p) && GetWord(f.d[p], j) == 0
    ensures var p := f.t[ino].addrs[N_DIRECT + i];
            var g := Fs(Allocated(f.d, b)[p := PutWord(f.d[p], j, b)], f.t, f.o[b := Place(ino, Leaf(i, j))]);
            Sound(g) && Extends(f, g, ino)
  {
    hide BitsOf, GetWord, SetBit, PutWord;
    var p := f.t[ino].addrs[N_DIRECT + i];
    LinkLeaf(f.d, f.t, f.o, b, ino, i, j);
    var g := Fs(Allocated(f.d, b)[p := PutWord(f.d[p], j, b)], f.t, f.o[b := Place(ino, Leaf(i, j))]);
    forall n: nat, s: FileSlot | n < N_INODES && Ref(f.d, f.t[n], s) != 0
      ensures Ref(g.d, g.t[n], s) == Ref(f.d, f.t[n], s)
    {
      LeafKeepsRef(f, g, b, ino, i, j, n, s);
    }
    PointerIsData(f, ino, i);
    hide Ref;
  }

  lemma LeafKeepsRef(f: Fs, g: Fs, b: nat, ino: nat, i: nat, j: nat, n: nat, s: FileSlot)
    requires Sound(f) && IsData(b) && b !in f.o
    requires ino < N_INODES && i < N_INDIRECT && j < WORDS && n < N_INODES
    requires var p := f.t[ino].addrs[N_DIRECT + i]; p != 0 && IsData(p) && GetWord(f.d[p], j) == 0
    requires var p := f.t[ino].addrs[N_DIRECT + i];
             g == Fs(Allocated(f.d, b)[p := PutWord(f.d[p], j, b)], f.t, f.o[b := Place(ino, Leaf(i, j))])
    requires Ref(f.d, f.t[n], s) != 0
    ensures Ref(g.d, g.t[n], s) == Ref(f.d, f.t[n], s)
  {
    hide BitsOf, GetWord, SetBit, PutWord;
    assert Ref(f.d, f.t[ino], Ptr(i)) == f.t[ino].addrs[N_DIRECT + i];
    AllocatedRefs(f.d, f.t, f.o, b, n, s);
    assert s.Leaf? ==> Ref(f.d, f.t[n], Ptr(s.i)) == f.t[n].addrs[N_DIRECT + s.i];
  }

  lemma SlotOfInjective(m: nat, n: nat)
    requires m < MAX_BLOCKS && n < MAX_BLOCKS && SlotOf(m) == SlotOf(n)
    ensures m == n
  {
  }

  function Splice(b: Block, o: nat, chunk: seq<Byte>): (r: Block)
    requires o + |chunk| <= BLOCK_SIZE
    ensures forall y | 0 <= y < BLOCK_SIZE :: r[y] == if o <= y < o + |chunk| then chunk[y - o] else b[y]
  {
    b[..o] + chunk + b[o + |chunk|..]
  }

  /** The file system after bytes inside one block of a file have been overwritten. */
  function PutChunk(f: Fs, ino: nat, at: nat, chunk: seq<Byte>): Fs
    requires ino < N_INODES && IsData(BlockAt(f, ino, at)) && at % BLOCK_SIZE + |chunk| <= BLOCK_SIZE
  {
    var b := BlockAt(f, ino, at);
    f.(d := f.d[b := Splice(f.d[b], at % BLOCK_SIZE, chunk)])
  }

  /** Overwriting bytes inside one block changes those bytes of that file and nothing else
      of any file. */
  lemma ChunkBytes(f: Fs, ino: nat, at: nat, chunk: seq<Byte>, n: nat, x: nat)
    requires Sound(f) && ino < N_INODES && IsData(BlockAt(f, ino, at)) && at % BLOCK_SIZE + |chunk| <= BLOCK_SIZE
    requires n < N_INODES
    ensures var g := PutChunk(f, ino, at, chunk);
            && BlockAt(g, n, x) == BlockAt(f, n, x)
            && (BlockAt(f, n, x) != 0 ==>
                  ByteAt(g, n, x) == if n == ino && at <= x < at + |chunk| then chunk[x - at] else ByteAt(f, n, x))
  {
    var b := BlockAt(f, ino, at);
    var c := BlockAt(f, n, x);
    assert f.o[b] == Place(ino, SlotOf(at / BLOCK_SIZE));
    if x / BLOCK_SIZE < MAX_BLOCKS {
      KeepsRefs(f.d, f.t, f.o, b, Splice(f.d[b], at % BLOCK_SIZE, chunk), n, SlotOf(x / BLOCK_SIZE));
    }
    if c == b {
      assert f.o[c] == Place(n, SlotOf(x / BLOCK_SIZE));
      SlotOfInjective(x / BLOCK_SIZE, at / BLOCK_SIZE);
    } else if c != 0 && n == ino {
      assert x / BLOCK_SIZE != at / BLOCK_SIZE;
    }
  }

  lemma ChunkKeepsSound(f: Fs, ino: nat, at: nat, chunk: seq<Byte>)
    requires Sound(f) && ino < N_INODES && IsData(BlockAt(f, ino, at)) && at % BLOCK_SIZE + |chunk| <= BLOCK_SIZE
    ensures Sound(PutChunk(f, ino, at, chunk))
  {
    var b := BlockAt(f, ino, at);
    assert f.o[b] == Place(ino, SlotOf(at / BLOCK_SIZE));
    WriteKeepsOwned(f.d, f.t, f.o, b, Splice(f.d[b], at % BLOCK_SIZE, chunk));
  }

  /** `g` is `f` with `data` written at offset `off` of a file: those bytes are `data`, every
      other byte that any file had is unchanged, and no other inode has changed. */
  ghost predicate Written(f: Fs, g: Fs, ino: nat, off: nat, data: seq<Byte>) {
    && ino < N_INODES
    && (forall n | 0 <= n < N_INODES && n != ino :: g.t[n] == f.t[n])
    && g.t[ino] == f.t[ino].(addrs := g.t[ino].addrs)
    && (forall n: nat, x: nat | n < N_INODES && BlockAt(f, n, x) != 0 && !(n == ino && off <= x < off + |data|) ::
          BlockAt(g, n, x) == BlockAt(f, n, x) && ByteAt(g, n, x) == ByteAt(f, n, x))
    && (forall x: nat | off <= x < off + |data| :: BlockAt(g, ino, x) != 0 && ByteAt(g, ino, x) == data[x - off])
    && (forall x: nat | BlockAt(f, ino, x) != 0 :: BlockAt(g, ino, x) != 0)
    && (forall b: nat | b < DATA_START && b != DATA_BITMAP :: g.d[b] == f.d[b])
  }

  lemma WrittenNext(f: Fs, g: Fs, h: Fs, ino: nat, off: nat, data: seq<Byte>, chunk: seq<Byte>)
    requires Sound(f) && Sound(g) && Sound(h) && Written(f, g, ino, off, data) && Extends(g, h, ino)
    requires var at := off + |data|; IsData(BlockAt(h, ino, at)) && at % BLOCK_SIZE + |chunk| <= BLOCK_SIZE
    ensures Written(f, PutChunk(h, ino, off + |data|, chunk), ino, off, data + chunk)
  {
    hide BlockAt, ByteAt, Owned, Extends, PutChunk;
    var at := off + |data|;
    var k := PutChunk(h, ino, at, chunk);
    ChunkKeepsInodes(f, g, h, ino, off, data, chunk);
    forall n: nat, x: nat | n < N_INODES && BlockAt(f, n, x) != 0 && !(n == ino && off <= x < at + |chunk|)
      ensures BlockAt(k, n, x) == BlockAt(f, n, x) && ByteAt(k, n, x) == ByteAt(f, n, x)
    {
      ExtendsBytes(g, h, ino, n, x);
      ChunkBytes(h, ino, at, chunk, n, x);
    }
    forall x: nat | off <= x < at + |chunk|
      ensures BlockAt(k, ino, x) != 0 && ByteAt(k, ino, x) == (data + chunk)[x - off]
    {
      if x < at {
        ExtendsBytes(g, h, ino, ino, x);
      } else {
        SameBlock(h, ino, at, x);
      }
      ChunkBytes(h, ino, at, chunk, ino, x);
    }
    forall x: nat | BlockAt(f, ino, x) != 0 ensures BlockAt(k, ino, x) != 0 {
      ExtendsBytes(g, h, ino, ino, x);
      ChunkBytes(h, ino, at, chunk, ino, x);
    }
  }

  lemma ChunkKeepsInodes(f: Fs, g: Fs, h: Fs, ino: nat, off: nat, data: seq<Byte>, chunk: seq<Byte>)
    requires Written(f, g, ino, off, data) && Extends(g, h, ino)
    requires var at := off + |data|; IsData(BlockAt(h, ino, at)) && at % BLOCK_SIZE + |chunk| <= BLOCK_SIZE
    ensures var k := PutChunk(h, ino, off + |data|, chunk);
            && (forall n | 0 <= n < N_INODES && n != ino :: k.t[n] == f.t[n])
            && k.t[ino] == f.t[ino].(addrs := k.t[ino].addrs)
            && (forall b: nat | b < DATA_START && b != DATA_BITMAP :: k.d[b] == f.d[b])
  {
    hide BlockAt, ByteAt, Splice;
  }

  lemma SameBlock(f: Fs, ino: nat, x: nat, y: nat)
    requires ino < N_INODES && x <= y < x - x % BLOCK_SIZE + BLOCK_SIZE
    ensures BlockAt(f, ino, y) == BlockAt(f, ino, x) && y % BLOCK_SIZE == x % BLOCK_SIZE + (y - x)
  {
  }

  /** Changing blocks outside the data area and the bitmap, and fields other than the
      addresses of one inode, keeps all pointers, owners and bytes. */
  lemma MetadataOnly(f: Fs, g: Fs, ino: nat)
    requires Sound(f) && ino < N_INODES && g.o == f.o
    requires g.t == f.t[ino := g.t[ino]] && g.t[ino].addrs == f.t[ino].addrs
    requires forall b: nat | DATA_BITMAP <= b < N_BLKS :: g.d[b] == f.d[b]
    ensures Sound(g)
    ensures forall n: nat, x: nat | n < N_INODES ::
              BlockAt(g, n, x) == BlockAt(f, n, x) && ByteAt(g, n, x) == ByteAt(f, n, x)
  {
    forall n: nat, s: FileSlot | n < N_INODES ensures Ref(g.d, g.t[n], s) == Ref(f.d, f.t[n], s) {
    }
  }

  /** What a file holds after `data` is written at `off`: the bytes before, the data, and
      what of the old contents lies behind it. */
  function Overwrite(c: seq<Byte>, off: nat, data: seq<Byte>): seq<Byte>
    requires off <= |c|
  {
    c[..off] + data + (if off + |data| < |c| then c[off + |data|..] else [])
  }

  /** The state after writei: bytes written, size raised if needed. */
  ghost predicate WroteFile(f: Fs, g: Fs, ino: nat, off: nat, data: seq<Byte>) {
    && ino < N_INODES
    && (forall n | 0 <= n < N_INODES && n != ino :: g.t[n] == f.t[n])
    && g.t[ino].size == (if off + |data| > f.t[ino].size then off + |data| else f.t[ino].size)
    && g.t[ino].kind == f.t[ino].kind && g.t[ino].links == f.t[ino].links
    && (forall n: nat, x: nat | n < N_INODES && BlockAt(f, n, x) != 0 && !(n == ino && off <= x < off + |data|) ::
          BlockAt(g, n, x) == BlockAt(f, n, x) && ByteAt(g, n, x) == ByteAt(f, n, x))
    && (forall x: nat | off <= x < off + |data| :: BlockAt(g, ino, x) != 0 && ByteAt(g, ino, x) == data[x - off])
  }

  /** Files as byte sequences: writei changes exactly the written range of its own file,
      extending it if needed, and no byte of any other file; no file gets a hole. */
  lemma WriteRefinesOverwrite(f: Fs, g: Fs, ino: nat, off: nat, data: seq<Byte>, n: nat)
    requires WroteFile(f, g, ino, off, data) && off <= f.t[ino].size && n < N_INODES && NoHoles(f, n) && NoHoles(f, ino)
    ensures Content(g, n) == if n == ino then Overwrite(Content(f, n), off, data) else Content(f, n)
    ensures NoHoles(g, n)
  {
    hide BlockAt, ByteAt, WroteFile, Overwrite;
    forall x: nat | x < g.t[n].size
      ensures BlockAt(g, n, x) != 0
      ensures ByteAt(g, n, x) == if n == ino && off <= x < off + |data| then data[x - off] else ByteAt(f, n, x)
    {
      ByteWritten(f, g, ino, off, data, n, x);
    }
    SizeWritten(f, g, ino, off, data, n);
    if n == ino {
      OverwriteIs(Content(f, n), off, data);
    }
  }

  lemma OverwriteIs(c: seq<Byte>, off: nat, data: seq<Byte>)
    requires off <= |c|
    ensures |Overwrite(c, off, data)| == if off + |data| > |c| then off + |data| else |c|
    ensures forall x | 0 <= x < |Overwrite(c, off, data)| ::
              Overwrite(c, off, data)[x] == if off <= x < off + |data| then data[x - off] else c[x]
  {
  }

  lemma ByteWritten(f: Fs, g: Fs, ino: nat, off: nat, data: seq<Byte>, n: nat, x: nat)
    requires WroteFile(f, g, ino, off, data) && off <= f.t[ino].size && n < N_INODES && NoHoles(f, n)
    requires x < g.t[n].size
    ensures BlockAt(g, n, x) != 0
    ensures ByteAt(g, n, x) == if n == ino && off <= x < off + |data| then data[x - off] else ByteAt(f, n, x)
  {
    hide BlockAt, ByteAt;
    if !(n == ino && off <= x < off + |data|) {
      assert BlockAt(f, n, x) != 0;
    }
  }

  lemma SizeWritten(f: Fs, g: Fs, ino: nat, off: nat, data: seq<Byte>, n: nat)
    requires WroteFile(f, g, ino, off, data) && n < N_INODES
    ensures g.t[n].size == if n == ino && off + |data| > f.t[n].size then off + |data| else f.t[n].size
  {
    hide BlockAt, ByteAt;
  }

  lemma WrittenNothing(f: Fs, ino: nat, off: nat)
    requires ino < N_INODES
    ensures Written(f, f, ino, off, [])
  {
  }

  lemma WrittenExtends(f: Fs, g: Fs, h: Fs, ino: nat, off: nat, data: seq<Byte>)
    requires Sound(f) && Sound(g) && Sound(h) && Written(f, g, ino, off, data) && Extends(g, h, ino)
    ensures Written(f, h, ino, off, data)
  {
    hide Owned, BlockAt, ByteAt;
    forall n: nat, x: nat | n < N_INODES && BlockAt(g, n, x) != 0
      ensures BlockAt(h, n, x) == BlockAt(g, n, x) && ByteAt(h, n, x) == ByteAt(g, n, x)
    {
      ExtendsBytes(g, h, ino, n, x);
    }
  }

  lemma BlockAtIs(f: Fs, ino: nat, at: nat, addr: nat)
    requires Sound(f) && ino < N_INODES && at / BLOCK_SIZE < MAX_BLOCKS
    requires addr == Ref(f.d, f.t[ino], SlotOf(at / BLOCK_SIZE)) != 0
    ensures BlockAt(f, ino, at) == addr && IsData(addr)
  {
  }

  lemma PutChunkIs(f: Fs, ino: nat, at: nat, chunk: seq<Byte>)
    requires ino < N_INODES && IsData(BlockAt(f, ino, at)) && at % BLOCK_SIZE + |chunk| <= BLOCK_SIZE
    ensures var b := BlockAt(f, ino, at);
            PutChunk(f, ino, at, chunk) == Fs(f.d[b := Splice(f.d[b], at % BLOCK_SIZE, chunk)], f.t, f.o)
  {
  }

  lemma WrittenKeepsInodes(f: Fs, g: Fs, ino: nat, off: nat, data: seq<Byte>)
    requires Written(f, g, ino, off, data)
    ensures forall n: nat | n < N_INODES :: DiskInode(g.d, n) == DiskInode(f.d, n)
  {
    hide BlockAt, ByteAt, GetInode;
  }

  /** A block that is missing now was missing before. */
  lemma StillHole(f: Fs, g: Fs, ino: nat, off: nat, data: seq<Byte>, x: nat)
    requires Written(f, g, ino, off, data) && x / BLOCK_SIZE < MAX_BLOCKS
    requires Ref(g.d, g.t[ino], SlotOf(x / BLOCK_SIZE)) == 0
    ensures BlockAt(f, ino, x) == 0
  {
    hide ByteAt, Ref, SlotOf;
    assert BlockAt(g, ino, x) == 0;
  }

  lemma WrittenFits(f: Fs, g: Fs, ino: nat, off: nat, data: seq<Byte>)
    requires Written(f, g, ino, off, data)
    ensures data != [] ==> off + |data| <= MAX_BLOCKS * BLOCK_SIZE
  {
    if data != [] {
      var x: nat := off + |data| - 1;
      assert BlockAt(g, ino, x) != 0;
    }
  }

  // ---------- truncation ----------

  lemma ClearedBits(bitmap: Block, used: set<nat>, b: nat)
    requires BitsOf(bitmap, used) && IsData(b)
    ensures BitsOf(ClearBit(bitmap, (b - DATA_START) / 8, (b - DATA_START) % 8), used - {b})
  {
  }

  /** The blocks behind the first `j` entries of indirect block `i` of an inode. */
  ghost function Leaves(o: map<nat, Place>, ino: nat, i: nat, j: nat): set<nat> {
    set b | b in o && o[b].ino == ino && o[b].slot.Leaf? && o[b].slot.i == i && o[b].slot.j < j
  }

  /** Entry `j` of an indirect block is the one block that joins the first `j`, or is empty. */
  lemma LeavesNext(d: Disk, t: Table, o: map<nat, Place>, ino: nat, i: nat, j: nat)
    requires Owned(d, t, o) && ino < N_INODES && i < N_INDIRECT && j < WORDS
    ensures var b := Ref(d, t[ino], Leaf(i, j));
            && (b == 0 ==> Leaves(o, ino, i, j + 1) == Leaves(o, ino, i, j))
            && (b != 0 ==> IsData(b) && b in o && b !in Leaves(o, ino, i, j)
                           && Leaves(o, ino, i, j + 1) == Leaves(o, ino, i, j) + {b})
  {
  }

  /** The blocks that leave with top-level pointer `k`: the block itself and, behind an
      indirect block, all its entries. */
  ghost function Subtree(o: map<nat, Place>, ino: nat, k: nat, b: nat): set<nat> {
    {b} + if k < N_DIRECT then {} else Leaves(o, ino, k - N_DIRECT, WORDS)
  }

  /** The block of a top-level pointer is in use, and giving it up after the leaves behind it
      gives up the whole subtree. */
  lemma TopIsOwned(f: Fs, ino: nat, k: nat)
    requires Sound(f) && ino < N_INODES && k < N_ADDRS && f.t[ino].addrs[k] != 0
    ensures IsData(f.t[ino].addrs[k]) && BitsOf(f.d[DATA_BITMAP], f.o.Keys)
    ensures f.o.Keys - Subtree(f.o, ino, k, f.t[ino].addrs[k])
         == (if k < N_DIRECT then f.o.Keys else f.o.Keys - Leaves(f.o, ino, k - N_DIRECT, WORDS)) - {f.t[ino].addrs[k]}
  {
    hide BitsOf;
    assert Ref(f.d, f.t[ino], if k < N_DIRECT then Direct(k) else Ptr(k - N_DIRECT)) == f.t[ino].addrs[k];
  }

  /** The file system without top-level pointer `k` of an inode. */
  ghost function Dropped(f: Fs, ino: nat, k: nat, bitmap: Block): Fs
    requires ino < N_INODES && k < N_ADDRS
  {
    Fs(f.d[DATA_BITMAP := bitmap], f.t[ino := f.t[ino].(addrs := f.t[ino].addrs[k := 0])],
       f.o - Subtree(f.o, ino, k, f.t[ino].addrs[k]))
  }

  /** The places that hang on top-level pointer `k`. */
  predicate Below(s: FileSlot, k: nat) {
    if k < N_DIRECT then s == Direct(k) else s == Ptr(k - N_DIRECT) || (s.Leaf? && s.i == k - N_DIRECT)
  }

  lemma DroppedRefs(f: Fs, ino: nat, k: nat, bitmap: Block, n: nat, s: FileSlot)
    requires Sound(f) && ino < N_INODES && k < N_ADDRS && n < N_INODES
    ensures var g := Dropped(f, ino, k, bitmap);
            Ref(g.d, g.t[n], s) == if n == ino && Below(s, k) then 0 else Ref(f.d, f.t[n], s)
  {
  }

  lemma SubtreeIsBelow(f: Fs, ino: nat, k: nat, b: nat)
    requires Sound(f) && ino < N_INODES && k < N_ADDRS && f.t[ino].addrs[k] != 0 && b in f.o
    ensures b in Subtree(f.o, ino, k, f.t[ino].addrs[k]) <==> f.o[b].ino == ino && Below(f.o[b].slot, k)
  {
    var slot: FileSlot := if k < N_DIRECT then Direct(k) else Ptr(k - N_DIRECT);
    assert Ref(f.d, f.t[ino], slot) == f.t[ino].addrs[k];
    assert Ref(f.d, f.t[f.o[b].ino], f.o[b].slot) == b;
  }

  /** Dropping a top-level pointer together with the bits of all that hangs below it keeps
      ownership for everything else. */
  lemma DropTop(f: Fs, ino: nat, k: nat, bitmap: Block)
    requires Sound(f) && ino < N_INODES && k < N_ADDRS && f.t[ino].addrs[k] != 0
    requires BitsOf(bitmap, f.o.Keys - Subtree(f.o, ino, k, f.t[ino].addrs[k]))
    ensures Sound(Dropped(f, ino, k, bitmap))
  {
    var gone := Subtree(f.o, ino, k, f.t[ino].addrs[k]);
    var g := Dropped(f, ino, k, bitmap);
    hide BitsOf, Ref, Subtree, Below;
    assert g.o.Keys == f.o.Keys - gone;
    forall b | b in g.o ensures Ref(g.d, g.t[g.o[b].ino], g.o[b].slot) == b {
      SubtreeIsBelow(f, ino, k, b);
      DroppedRefs(f, ino, k, bitmap, f.o[b].ino, f.o[b].slot);
    }
    forall n: nat, s: FileSlot | n < N_INODES && Ref(g.d, g.t[n], s) != 0
      ensures Ref(g.d, g.t[n], s) in g.o && g.o[Ref(g.d, g.t[n], s)] == Place(n, s)
    {
      DroppedRefs(f, ino, k, bitmap, n, s);
      SubtreeIsBelow(f, ino, k, Ref(f.d, f.t[n], s));
    }
  }

  lemma EmptyOwnsNothing(f: Fs, ino: nat)
    requires Sound(f) && ino < N_INODES && forall k | 0 <= k < N_ADDRS :: f.t[ino].addrs[k] == 0
    ensures forall b | b in f.o :: f.o[b].ino != ino
  {
    forall b | b in f.o ensures f.o[b].ino != ino {
      assert Ref(f.d, f.t[f.o[b].ino], f.o[b].slot) == b;
    }
  }

  lemma InsideIsMapped(f: Fs, ino: nat, at: nat)
    requires Sound(f) && ino < N_INODES && NoHoles(f, ino) && at < f.t[ino].size
    ensures at / BLOCK_SIZE < MAX_BLOCKS
    ensures Ref(f.d, f.t[ino], SlotOf(at / BLOCK_SIZE)) == BlockAt(f, ino, at) != 0 && IsData(BlockAt(f, ino, at))
  {
  }

  /** A stretch of a file inside one block. */
  lemma ReadChunk(f: Fs, ino: nat, at: nat, len: nat)
    requires ino < N_INODES && at + len <= f.t[ino].size && at % BLOCK_SIZE + len <= BLOCK_SIZE
    requires IsData(BlockAt(f, ino, at))
    ensures f.d[BlockAt(f, ino, at)][at % BLOCK_SIZE..at % BLOCK_SIZE + len] == Content(f, ino)[at..at + len]
  {
    hide BlockAt;
    var o := at % BLOCK_SIZE;
    forall x | at <= x < at + len ensures f.d[BlockAt(f, ino, at)][x - at + o] == ByteAt(f, ino, x) {
      SameBlock(f, ino, at, x);
    }
  }
}
