/** What the file operations do to the disk and to the inodes, as a list of elementary changes,
    each of which keeps the ownership of blocks. */
module BlockChanges {
  import opened Blocks
  import opened DiskLayout
  import opened Inodes

  /** The writes of bmap, writei, itrunc and iupdate to an inode and its blocks. */
  datatype Write =
    | FillPointer(k: nat, b: nat)
    | FillEntry(i: nat, j: nat, b: nat)
    | PutBytes(at: nat, chunk: seq<Byte>)
    | DropPointer(k: nat, bitmap: Block)
    | SetSize(size: Word)
    | StoreInode

  datatype Change = Change(ino: nat, write: Write)

  /** The change is one that the operations make in this state: a block is
      linked only if it is free, where there was no pointer; bytes go into a block of the
      file; a pointer is dropped together with the bits of all the blocks behind it. */
  ghost predicate Allowed(f: Fs, c: Change) {
    var ino := c.ino;
    && ino < N_INODES
    && match c.write
       case FillPointer(k, b) => IsData(b) && b !in f.o && k < N_ADDRS && f.t[ino].addrs[k] == 0
       case FillEntry(i, j, b) =>
         && IsData(b) && b !in f.o && i < N_INDIRECT && j < WORDS
         && (var p := f.t[ino].addrs[N_DIRECT + i]; p != 0 && IsData(p) && GetWord(f.d[p], j) == 0)
       case PutBytes(at, chunk) => IsData(BlockAt(f, ino, at)) && at % BLOCK_SIZE + |chunk| <= BLOCK_SIZE
       case DropPointer(k, bitmap) =>
         && k < N_ADDRS && f.t[ino].addrs[k] != 0
         && BitsOf(bitmap, f.o.Keys - Subtree(f.o, ino, k, f.t[ino].addrs[k]))
       case SetSize(_) => true
       case StoreInode => true
  }

  ghost function Made(f: Fs, c: Change): Fs
    requires Allowed(f, c)
  {
    var ino := c.ino;
    match c.write
    case FillPointer(k, b) =>
      var slot: Slot := if k < N_DIRECT then Direct(k) else Ptr(k - N_DIRECT);
      Fs(Allocated(f.d, b), f.t[ino := f.t[ino].(addrs := f.t[ino].addrs[k := b])], f.o[b := Place(ino, slot)])
    case FillEntry(i, j, b) =>
      var p := f.t[ino].addrs[N_DIRECT + i];
      Fs(Allocated(f.d, b)[p := PutWord(f.d[p], j, b)], f.t, f.o[b := Place(ino, Leaf(i, j))])
    case PutBytes(at, chunk) => PutChunk(f, ino, at, chunk)
    case DropPointer(k, bitmap) => Dropped(f, ino, k, bitmap)
    case SetSize(size) => f.(t := f.t[ino := f.t[ino].(size := size)])
    case StoreInode =>
      f.(d := f.d[InodeBlock(ino) := PutInode(f.d[InodeBlock(ino)], ino % INODES_PER_BLOCK, f.t[ino])])
  }

  lemma ChangeKeepsSound(f: Fs, c: Change)
    requires Sound(f) && Allowed(f, c)
    ensures Sound(Made(f, c))
  {
    hide Owned, BlockAt, PutInode, BitsOf, Subtree, GetWord, PutWord, Extends;
    var ino := c.ino;
    match c.write
    case FillPointer(k, b) => LinkTopExtends(f, b, ino, k);
    case FillEntry(i, j, b) => LinkLeafExtends(f, b, ino, i, j);
    case PutBytes(at, chunk) => ChunkKeepsSound(f, ino, at, chunk);
    case DropPointer(k, bitmap) => DropTop(f, ino, k, bitmap);
    case SetSize(size) => MetadataOnly(f, Made(f, c), ino);
    case StoreInode => MetadataOnly(f, Made(f, c), ino);
  }

  /** The changes lead from `f` to `g`, each being allowed where it is made. */
  ghost predicate Leads(f: Fs, cs: seq<Change>, g: Fs)
    decreases |cs|
  {
    if cs == [] then f == g else Allowed(f, cs[0]) && Leads(Made(f, cs[0]), cs[1..], g)
  }

  /** Some list of elementary changes leads from `f` to `g`: those of one operation, or those of
      several in any interleaving. */
  ghost predicate Changed(f: Fs, g: Fs) {
    exists cs: seq<Change> :: Leads(f, cs, g)
  }

  lemma Unchanged(f: Fs)
    ensures Changed(f, f)
  {
    assert Leads(f, [], f);
  }

  lemma ChangedOnce(f: Fs, c: Change)
    requires Allowed(f, c)
    ensures Changed(f, Made(f, c))
  {
    hide Allowed, Made;
    assert Leads(Made(f, c), [], Made(f, c));
    assert Leads(f, [c], Made(f, c));
  }

  lemma {:induction false} LeadsOn(f: Fs, cs: seq<Change>, g: Fs, ds: seq<Change>, h: Fs)
    requires Leads(f, cs, g) && Leads(g, ds, h)
    ensures Leads(f, cs + ds, h)
    decreases |cs|
  {
    hide Allowed, Made;
    if cs == [] {
      assert cs + ds == ds;
    } else {
      LeadsOn(Made(f, cs[0]), cs[1..], g, ds, h);
      assert (cs + ds)[1..] == cs[1..] + ds;
    }
  }

  lemma ChangedOn(f: Fs, g: Fs, h: Fs)
    requires Changed(f, g) && Changed(g, h)
    ensures Changed(f, h)
  {
    hide Leads;
    var cs: seq<Change> :| Leads(f, cs, g);
    var ds: seq<Change> :| Leads(g, ds, h);
    LeadsOn(f, cs, g, ds, h);
  }

  lemma {:induction false} LeadsKeepsSound(f: Fs, cs: seq<Change>, g: Fs)
    requires Sound(f) && Leads(f, cs, g)
    ensures Sound(g)
    decreases |cs|
  {
    hide Allowed, Made, Sound;
    if cs != [] {
      ChangeKeepsSound(f, cs[0]);
      LeadsKeepsSound(Made(f, cs[0]), cs[1..], g);
    }
  }

  /** However operations are made up of elementary changes, they keep block ownership. */
  lemma ChangedKeepsSound(f: Fs, g: Fs)
    requires Sound(f) && Changed(f, g)
    ensures Sound(g)
  {
    hide Leads, Sound;
    var cs: seq<Change> :| Leads(f, cs, g);
    LeadsKeepsSound(f, cs, g);
  }
}
