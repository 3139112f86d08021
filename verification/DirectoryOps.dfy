/** dir_lookup, dir_link and the entry clearing of unlink, on the file system. */
module DirectoryOps {
  import opened Blocks
  import opened Strings
  import opened Inodes
  import opened FileSystem
  import opened Space
  import opened Directory

  const FT_DIR := 1

  datatype Lookup = Found(off: nat, ino: nat) | Missing | ReadPanic

  datatype LinkResult = Linked | Exists | NoSpace | LinkPanic

  /** No file has a hole. */
  ghost predicate Whole(f: Fs) {
    forall n: nat | n < N_INODES :: NoHoles(f, n)
  }

  ghost function Names(f: Fs, dir: nat): map<seq<Byte>, nat>
    requires dir < N_INODES
  {
    AsMap(Entries(Content(f, dir)))
  }

  predicate IsDir(n: Inode) { n.kind as int % 0x1_0000 == FT_DIR }

  /** Looking a name up comes to something that is no directory or no entry. */
  ghost predicate CannotLookUp(f: Fs, dir: nat, key: seq<Byte>)
    requires dir < N_INODES
  {
    !IsDir(f.t[dir]) || (key !in Names(f, dir) && f.t[dir].size as int % ENTRY != 0)
  }

  /** What a write of one entry does to the files. */
  lemma EntryWritten(f: Fs, g: Fs, dir: nat, off: nat, k: nat, b: seq<Byte>)
    requires WroteFile(f, g, dir, off, b) && Whole(f) && dir < N_INODES && |b| == ENTRY
    requires f.t[dir].size as int % ENTRY == 0 && off == ENTRY * k && off <= f.t[dir].size
    ensures Whole(g) && forall n: nat | n < N_INODES && n != dir :: Content(g, n) == Content(f, n)
    ensures |Content(g, dir)| % ENTRY == 0
    ensures Entries(Content(g, dir))
         == if off == f.t[dir].size then Entries(Content(f, dir)) + [Decode(b, 0)]
            else Entries(Content(f, dir))[k := Decode(b, 0)]
  {
    hide WroteFile, Content, NoHoles, Decode, Entries, Overwrite;
    ContentSize(f, dir);
    forall n: nat | n < N_INODES
      ensures NoHoles(g, n) && Content(g, n) == if n == dir then Overwrite(Content(f, n), off, b) else Content(f, n)
    {
      WriteRefinesOverwrite(f, g, dir, off, b, n);
    }
    PutEntry(Content(f, dir), off, k, b);
  }

  /** A write that stored nothing changes no file. */
  lemma NothingWritten(f: Fs, g: Fs, dir: nat, off: nat)
    requires WroteFile(f, g, dir, off, []) && Whole(f) && dir < N_INODES && off <= f.t[dir].size
    ensures Whole(g) && forall n: nat | n < N_INODES :: Content(g, n) == Content(f, n)
  {
    hide WroteFile, Content, NoHoles;
    ContentSize(f, dir);
    forall n: nat | n < N_INODES ensures NoHoles(g, n) && Content(g, n) == Content(f, n) {
      WriteRefinesOverwrite(f, g, dir, off, [], n);
    }
  }

  /** An entry never straddles two blocks, so it is written whole or not at all. */
  lemma WholeOrNothing(off: nat, n: nat)
    requires off % ENTRY == 0 && n <= ENTRY && (n == ENTRY || n == 0 || (off + n) % BLOCK_SIZE == 0)
    ensures n == 0 || n == ENTRY
  {
  }

  lemma LiveInside(c: seq<Byte>, off: nat, k: nat, name: seq<Byte>)
    requires Live(Entries(c), k, name) && off == ENTRY * k
    ensures off + ENTRY <= |c|
  {
    hide Decode;
  }

  lemma InsideMapped(f: Fs, n: nat, x: nat)
    requires n < N_INODES && Whole(f) && x < f.t[n].size
    ensures BlockAt(f, n, x) != 0
  {
    hide BlockAt;
    assert NoHoles(f, n);
  }

  lemma PartialEnd(c: seq<Byte>, off: nat, k: nat)
    requires off == ENTRY * k && off < |c| < off + ENTRY
    ensures k == |Entries(c)| && |c| % ENTRY != 0
  {
  }

  lemma EntryAt(c: seq<Byte>, k: nat, off: nat)
    requires off == ENTRY * k && off + ENTRY <= |c|
    ensures k < |Entries(c)| && Entries(c)[k] == Decode(c, off)
  {
  }

  /** dir_lookup, before it takes a reference to what it finds. It panics exactly when this is no
      directory, or when it does not find the name and comes to a partial entry at the end. */
  method DirLookup(fs: FileSystem, dir: nat, name: seq<Byte>) returns (r: Lookup)
    requires Sound(fs.State()) && dir < N_INODES && NoHoles(fs.State(), dir) && Readable(name, DIR_SIZE)
    modifies fs
    ensures fs.State() == old(fs.State())
    ensures r.ReadPanic? <==> CannotLookUp(fs.State(), dir, Text(name, DIR_SIZE))
    ensures r.Missing? ==> Text(name, DIR_SIZE) !in Names(fs.State(), dir) && fs.table[dir].size as int % ENTRY == 0
    ensures r.Found? ==>
              && Text(name, DIR_SIZE) in Names(fs.State(), dir) && Names(fs.State(), dir)[Text(name, DIR_SIZE)] == r.ino
              && r.off % ENTRY == 0 && Live(Entries(Content(fs.State(), dir)), r.off / ENTRY, Text(name, DIR_SIZE))
  {
    hide Content, NoHoles, Sound, Text, Entries, Decode, AsMap, Readable;
    ghost var f := fs.State();
    ghost var c := Content(f, dir);
    ghost var es := Entries(c);
    ghost var key := Text(name, DIR_SIZE);
    ContentSize(f, dir);
    if !IsDir(fs.table[dir]) {
      return ReadPanic;
    }
    var off := 0;
    ghost var k := 0;
    while off < fs.table[dir].size
      invariant fs.State() == f && off == ENTRY * k && k <= |es|
      invariant off <= |c|
      invariant forall i: nat | i < k :: !Live(es, i, key)
    {
      var same, ino := ReadEntry(fs, dir, off, name);
      if same == -1 {
        PartialEnd(c, off, k);
        LookupIs(es, key, k);
        return ReadPanic;
      }
      EntryAt(c, k, off);
      if same == 1 {
        LookupIs(es, key, k);
        return Found(off, ino);
      }
      off := off + ENTRY;
      k := k + 1;
    }
    LookupIs(es, key, k);
    r := Missing;
  }

  /** Reads one entry and compares its name: 1 for a live entry with this name, 0 for another
      entry, -1 when the entry cannot be read whole. */
  method ReadEntry(fs: FileSystem, dir: nat, off: nat, name: seq<Byte>) returns (same: int, ino: nat)
    requires Sound(fs.State()) && dir < N_INODES && NoHoles(fs.State(), dir) && Readable(name, DIR_SIZE)
    requires off < fs.table[dir].size
    modifies fs
    ensures fs.State() == old(fs.State())
    ensures same == -1 <==> off + ENTRY > fs.table[dir].size
    ensures same != -1 ==> off + ENTRY <= |Content(fs.State(), dir)| && ino == Decode(Content(fs.State(), dir), off).ino
    ensures same != -1 ==>
              same == if ino != 0 && Decode(Content(fs.State(), dir), off).name == Text(name, DIR_SIZE) then 1 else 0
  {
    hide Content, NoHoles, Sound;
    ghost var c := Content(fs.State(), dir);
    ContentSize(fs.State(), dir);
    var rd := fs.ReadI(dir, off, ENTRY);
    if !rd.Bytes? || |rd.out| != ENTRY {
      return -1, 0;
    }
    var de := rd.out;
    ino := de[0] as int + 256 * de[1] as int;
    assert c[off] == de[0] && c[off + 1] == de[1] && c[off + 2..off + ENTRY] == de[2..];
    if ino == 0 {
      return 0, 0;
    }
    assert Readable(de[2..], DIR_SIZE);
    var d := Strncmp(de[2..], name, DIR_SIZE);
    same := if d == 0 then 1 else 0;
  }

  /** The scan of dir_link: it reads every entry and never stops early, because it looks at the
      number of the directory and not at the entry. */
  method ScanToEnd(fs: FileSystem, dir: nat) returns (ok: bool, off: nat)
    requires Sound(fs.State()) && 0 < dir < N_INODES && NoHoles(fs.State(), dir)
    modifies fs
    ensures fs.State() == old(fs.State())
    ensures ok <==> fs.table[dir].size as int % ENTRY == 0
    ensures ok ==> off == fs.table[dir].size
  {
    hide Content, NoHoles, Sound;
    ghost var f := fs.State();
    ContentSize(f, dir);
    off := 0;
    while off < fs.table[dir].size
      invariant fs.State() == f && off % ENTRY == 0
      invariant off <= fs.table[dir].size
    {
      var rd := fs.ReadI(dir, off, ENTRY);
      if !rd.Bytes? || |rd.out| != ENTRY {
        return false, off;
      }
      if dir == 0 {
        break;
      }
      off := off + ENTRY;
    }
    ok := true;
  }

  /** dir_link: adds a name to the map of a directory, unless it is there already. It panics
      exactly when the lookup does, or when the name is new and the directory has the largest
      size of a file; a new name finds no space exactly when there are too few blocks. */
  method DirLink(fs: FileSystem, dir: nat, name: seq<Byte>, ino: nat) returns (r: LinkResult)
    requires Sound(fs.State()) && Whole(fs.State()) && 0 < dir < N_INODES && 0 < ino < N_INODES
    requires Readable(name, DIR_SIZE)
    modifies fs
    ensures r.Exists? ==> fs.State() == old(fs.State()) && Text(name, DIR_SIZE) in Names(fs.State(), dir)
    ensures r.Linked? || r.NoSpace? ==> Sound(fs.State()) && Whole(fs.State())
    ensures r.Linked? || r.NoSpace? ==>
              forall n: nat | n < N_INODES && n != dir :: Content(fs.State(), n) == old(Content(fs.State(), n))
    ensures r.Linked? ==> Text(name, DIR_SIZE) !in old(Names(fs.State(), dir))
                          && Names(fs.State(), dir) == old(Names(fs.State(), dir))[Text(name, DIR_SIZE) := ino]
    ensures r.Linked? && old(UniqueNames(Entries(Content(fs.State(), dir)))) ==>
              UniqueNames(Entries(Content(fs.State(), dir)))
    ensures r.NoSpace? ==> Content(fs.State(), dir) == old(Content(fs.State(), dir)) && OutOfSpace(fs.blocks)
    ensures r.NoSpace? ==> Text(name, DIR_SIZE) !in old(Names(fs.State(), dir))
    ensures r.Linked? || r.NoSpace? ==> (r.Linked? <==> old(Enough(fs.State(), dir, fs.table[dir].size, ENTRY)))
    ensures r.LinkPanic? <==>
              || old(CannotLookUp(fs.State(), dir, Text(name, DIR_SIZE)))
              || old(Overfull(fs.State(), dir, Text(name, DIR_SIZE)))
  {
    hide Content, NoHoles, Sound, Text, Entries, Decode, AsMap, Readable, WroteFile, UniqueNames, Encode, GetInode;
    hide Enough, OutOfSpace, BlockAt;
    ghost var f := fs.State();
    var l := DirLookup(fs, dir, name);
    if l.ReadPanic? {
      return LinkPanic;
    }
    if l.Found? {
      return Exists;
    }
    var ok, off := ScanToEnd(fs, dir);
    var padded := Strncpy(name, DIR_SIZE);
    var de := Encode(ino % 0x1_0000, padded);
    SizeFits(f, dir);
    var w := fs.WriteI(dir, off, de);
    if !w.Wrote? {
      EntryFits(off);
      return LinkPanic;
    }
    WholeOrNothing(off, w.n);
    ContentSize(f, dir);
    if w.n != ENTRY {
      assert de[..w.n] == [];
      NothingWritten(f, fs.State(), dir, off);
      return NoSpace;
    }
    assert de[..w.n] == de;
    EncodeDecodes(ino, padded);
    EntryWritten(f, fs.State(), dir, off, off / ENTRY, de);
    LinkInserts(Entries(Content(f, dir)), Entry(ino, Text(name, DIR_SIZE)));
    r := Linked;
  }

  /** The name is new, and the directory cannot grow. */
  ghost predicate Overfull(f: Fs, dir: nat, key: seq<Byte>)
    requires dir < N_INODES
  {
    key !in Names(f, dir) && f.t[dir].size == MAX_BLOCKS * BLOCK_SIZE
  }

  /** A file without holes is not larger than a file can be. */
  lemma SizeFits(f: Fs, n: nat)
    requires n < N_INODES && Whole(f)
    ensures f.t[n].size <= MAX_BLOCKS * BLOCK_SIZE
  {
    hide Ref, SlotOf;
    assert NoHoles(f, n) && BlockAt(f, n, MAX_BLOCKS * BLOCK_SIZE) == 0;
  }

  /** The largest size is a whole number of entries. */
  lemma EntryFits(off: nat)
    requires off % ENTRY == 0 && off + ENTRY > MAX_BLOCKS * BLOCK_SIZE
    ensures off >= MAX_BLOCKS * BLOCK_SIZE
  {
  }

  /** The end of unlink: clears the entry at an offset that dir_lookup has found. The entry lies
      on a block that the directory has, so the write is complete even on a full disk, and the
      kernel's panic at this point cannot happen. */
  method DirClear(fs: FileSystem, dir: nat, off: nat, ghost name: seq<Byte>) returns (ok: bool)
    requires Sound(fs.State()) && Whole(fs.State()) && 0 < dir < N_INODES && off % ENTRY == 0
    requires fs.table[dir].size as int % ENTRY == 0 && UniqueNames(Entries(Content(fs.State(), dir)))
    requires Live(Entries(Content(fs.State(), dir)), off / ENTRY, name)
    modifies fs
    ensures ok && Sound(fs.State()) && Whole(fs.State()) && UniqueNames(Entries(Content(fs.State(), dir)))
    ensures forall n: nat | n < N_INODES && n != dir :: Content(fs.State(), n) == old(Content(fs.State(), n))
    ensures Names(fs.State(), dir) == old(Names(fs.State(), dir)) - {name}
  {
    hide Content, NoHoles, Sound, Entries, AsMap, WroteFile, UniqueNames, GetInode, BlockAt, OutOfSpace, Enough;
    ghost var f := fs.State();
    ContentSize(f, dir);
    SizeFits(f, dir);
    var de := seq(ENTRY, _ => 0);
    ghost var c := Content(f, dir);
    LiveInside(c, off, off / ENTRY, name);
    var w := fs.WriteI(dir, off, de);
    if !w.Wrote? {
      assert false;
    }
    WholeOrNothing(off, w.n);
    InsideMapped(f, dir, off);
    if w.n != ENTRY {
      assert false;
    }
    assert de[..w.n] == de;
    ghost var k := off / ENTRY;
    EntryWritten(f, fs.State(), dir, off, k, de);
    assert Decode(de, 0).ino == 0;
    ClearRemoves(Entries(Content(f, dir)), k, Decode(de, 0));
    ok := true;
  }
}
