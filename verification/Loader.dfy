/** Loading a program file: load_seg, and what it makes of the pages of a new address space. */
module Loader {
  import opened Basics
  import opened Blocks
  import opened PageTable
  import opened VirtualMemory
  import opened UserMemory
  import opened UserCopy
  import opened ExecStack
  import Inodes
  import Files = FileSystem

  /** A program header of type LOAD, and whether reading the header from the file succeeds. */
  datatype Segment = Segment(vaddr: nat, memsz: nat, filesz: nat, off: nat, flags: nat, headerRead: bool)

  /** Some bytes of a file from an offset on; none if the file does not have them. */
  function Slice(c: seq<Byte>, off: nat, n: nat): seq<Byte> {
    if off + n <= |c| then c[off..off + n] else []
  }

  /** The number of bytes that a read can get. */
  function Available(c: seq<Byte>, off: nat, n: nat): nat {
    if off + n <= |c| then n else if off <= |c| then |c| - off else 0
  }

  /** User mode has every page of a range. */
  ghost predicate UserRange(s: Mem, root: nat, lo: nat, n: nat) {
    forall w: nat | lo <= w < lo + n :: UserPage(s, root, w)
  }

  /** One round of load_seg: the bytes that the file has for one page, put there. The page is
      the caller's, so the kernel does not panic. */
  method LoadPage(mem: Memory, root: nat, va: nat, fs: Files.FileSystem, ino: nat, off: nat, n: nat) returns (got: nat)
    requires mem.Valid() && Private(mem.State(), root) && va % PAGE_SIZE == 0
    requires UserPage(mem.State(), root, va / PAGE_SIZE)
    requires Inodes.Sound(fs.State()) && ino < Inodes.N_INODES && Inodes.NoHoles(fs.State(), ino) && 0 < n <= PAGE_SIZE
    modifies mem, fs
    ensures fs.State() == old(fs.State()) && mem.Valid()
    ensures var c := Inodes.Content(fs.State(), ino);
            got == Available(c, off, n) && WroteUser(old(mem.State()), mem.State(), root, va, Slice(c, off, got))
  {
    hide ValidMem, WroteUser, Inodes.Owned, Inodes.NoHoles, Inodes.Content, IsValid, IsUser, Entry, Private, PutBytes;
    ghost var s, c := mem.State(), Inodes.Content(fs.State(), ino);
    Inodes.ContentSize(fs.State(), ino);
    PrivateRoot(s, root);
    ReadableIsThere(s, root, va);
    var ok, page := UvmWalkAddr(mem, root, va);
    if !ok || page == 0 {
      assert false;
    }
    PageIsThere(s, root, va);
    WroteNothing(s, root, va);
    var rd := fs.ReadI(ino, off, n);
    if !rd.Bytes? {
      return 0;
    }
    got := |rd.out|;
    assert rd.out == Slice(c, off, got);
    if got > 0 {
      mem.bytes := mem.bytes[page := PutBytes(mem.bytes[page], 0, rd.out)];
      ChunkWrites(s, mem.State(), root, va, rd.out);
    }
  }

  lemma PrivateRoot(s: Mem, root: nat)
    requires Private(s, root)
    ensures IsRoot(s.owner, root)
  {
  }

  lemma PageIsThere(s: Mem, root: nat, va: nat)
    requires ValidMem(s) && Private(s, root) && UserPage(s, root, va / PAGE_SIZE)
    ensures OwnsFrame(s, root, va / PAGE_SIZE) && FrameOf(s, root, va / PAGE_SIZE) in s.bytes
  {
    hide ValidMem, IsValid, IsUser, Entry;
    OwnedExists(s, FrameOf(s, root, va / PAGE_SIZE));
  }

  /** load_seg: succeeds exactly when the file has all the bytes, and then they are at the
      segment's address; nothing else of the address space changes. It never panics. */
  method LoadSegment(mem: Memory, root: nat, va: nat, fs: Files.FileSystem, ino: nat, off: nat, sz: nat)
      returns (ok: bool, ghost done: nat)
    requires mem.Valid() && Private(mem.State(), root) && va % PAGE_SIZE == 0
    requires UserRange(mem.State(), root, va / PAGE_SIZE, PageCount(sz))
    requires Inodes.Sound(fs.State()) && ino < Inodes.N_INODES && Inodes.NoHoles(fs.State(), ino)
    modifies mem, fs
    ensures fs.State() == old(fs.State()) && mem.Valid()
    ensures var c := Inodes.Content(fs.State(), ino);
            && (ok <==> sz == 0 || off + sz <= |c|) && (ok ==> done == sz)
            && WroteUser(old(mem.State()), mem.State(), root, va, Slice(c, off, done))
  {
    hide ValidMem, WroteUser, Inodes.Sound, Inodes.NoHoles, Inodes.Content, Private, UserPage;
    ghost var s, f := mem.State(), fs.State();
    ghost var c := Inodes.Content(f, ino);
    WroteNothing(s, root, va);
    var i := 0;
    ghost var k := 0;
    assert Slice(c, off, 0) == [];
    while i < sz
      invariant i == k * PAGE_SIZE && k <= PageCount(sz) && fs.State() == f
      invariant i <= sz ==> (i == 0 || off + i <= |c|)
      invariant i > sz ==> off + sz <= |c| && sz > 0
      invariant mem.Valid() && WroteUser(s, mem.State(), root, va, Slice(c, off, if i <= sz then i else sz))
    {
      ghost var t := mem.State();
      SameTables(s, t, root, va, Slice(c, off, i));
      assert (va + i) / PAGE_SIZE == va / PAGE_SIZE + k;
      SameUserPage(s, t, root, va / PAGE_SIZE + k);
      var n := if sz - i < PAGE_SIZE then sz - i else PAGE_SIZE;
      var got := LoadPage(mem, root, va + i, fs, ino, off + i, n);
      WroteNext(s, t, mem.State(), root, va, Slice(c, off, i), Slice(c, off + i, got));
      assert Slice(c, off, i) + Slice(c, off + i, got) == Slice(c, off, if got == 0 then i else i + got);
      if got != n {
        return false, if got == 0 then i else i + got;
      }
      i := i + PAGE_SIZE;
      k := k + 1;
    }
    return true, sz;
  }

  lemma SameUserPage(s: Mem, t: Mem, root: nat, w: nat)
    requires t.tables == s.tables && UserPage(s, root, w)
    ensures UserPage(t, root, w)
  {
  }

  // ------------------------------------------------------------------ the image of a program

  /** flags2perm: the permissions for the flags of a program header. */
  function Permissions(flags: nat): (perm: nat)
    ensures perm < 1024
  {
    (if flags % 2 == 1 then 8 else 0) + if flags / 2 % 2 == 1 then 4 else 0
  }

  /** PTE_X for flag 1 and PTE_W for flag 2. */
  lemma PermissionBits(flags: nat)
    ensures BitAnd(flags, 0x1) != 0 <==> BitAnd(Permissions(flags), 0x8) != 0
    ensures BitAnd(flags, 0x2) != 0 <==> BitAnd(Permissions(flags), 0x4) != 0
    ensures Permissions(flags) <= 0x8 + 0x4
  {
    hide BitAnd;
    BitIs(flags, 1);
    BitIs(flags, 2);
    BitIs(Permissions(flags), 4);
    BitIs(Permissions(flags), 8);
  }

  /** The segment is one that exec refuses. */
  predicate Refused(g: Segment) {
    !g.headerRead || g.memsz < g.filesz || g.vaddr + g.memsz >= WORD || g.vaddr % PAGE_SIZE != 0
  }

  /** The file has the bytes of the segment. */
  predicate HasBytes(c: seq<Byte>, g: Segment) {
    g.filesz == 0 || g.off + g.filesz <= |c|
  }

  /** The first `k` segments are acceptable and lie below `size`. */
  predicate Accepted(segments: seq<Segment>, k: nat, size: nat) {
    k <= |segments| && forall i | 0 <= i < k :: !Refused(segments[i]) && size >= segments[i].vaddr + segments[i].memsz
  }

  /** The byte that a program expects at an address: that of the last of its first `k` segments
      which has one there, and zero where none has. */
  function ImageByte(c: seq<Byte>, segments: seq<Segment>, k: nat, a: nat): Byte
    requires k <= |segments|
  {
    if k == 0 then 0
    else
      var g := segments[k - 1];
      if g.vaddr <= a < g.vaddr + g.filesz && g.off + (a - g.vaddr) < |c| then c[g.off + (a - g.vaddr)]
      else ImageByte(c, segments, k - 1, a)
  }

  /** The first `n` pages of an address space hold the image. */
  ghost predicate Loaded(s: Mem, root: nat, c: seq<Byte>, segments: seq<Segment>, k: nat, n: nat)
    requires k <= |segments|
  {
    forall a: nat | a / PAGE_SIZE < n ::
      && OwnsFrame(s, root, a / PAGE_SIZE) && FrameOf(s, root, a / PAGE_SIZE) in s.bytes
      && ByteOf(s, root, a) == ImageByte(c, segments, k, a)
  }

  /** An address among the file bytes of a segment. */
  predicate CoversByte(g: Segment, a: nat) {
    g.vaddr <= a < g.vaddr + g.filesz
  }

  /** Where the image comes from: byte x of a segment is byte off + x of the file, unless a later
      segment covers it, and an address that no segment covers has a zero byte. */
  lemma {:induction false} ImageByteIs(c: seq<Byte>, segments: seq<Segment>, k: nat, i: nat, a: nat)
    requires i < k <= |segments| && HasBytes(c, segments[i]) && CoversByte(segments[i], a)
    requires forall j | i < j < k :: !CoversByte(segments[j], a)
    ensures var x := a - segments[i].vaddr;
            segments[i].off + x < |c| && ImageByte(c, segments, k, a) == c[segments[i].off + x]
  {
    if i < k - 1 {
      assert !CoversByte(segments[k - 1], a);
      ImageByteIs(c, segments, k - 1, i, a);
    }
  }

  lemma {:induction false} ImageByteElsewhere(c: seq<Byte>, segments: seq<Segment>, k: nat, a: nat)
    requires k <= |segments| && forall j | 0 <= j < k :: !CoversByte(segments[j], a)
    ensures ImageByte(c, segments, k, a) == 0
  {
    if k > 0 {
      assert !CoversByte(segments[k - 1], a);
      ImageByteElsewhere(c, segments, k - 1, a);
    }
  }

  lemma {:induction false} ImageEnds(c: seq<Byte>, segments: seq<Segment>, k: nat, size: nat, a: nat)
    requires Accepted(segments, k, size) && size <= a
    ensures ImageByte(c, segments, k, a) == 0
  {
    if k > 0 {
      ImageEnds(c, segments, k - 1, size, a);
    }
  }

  /** Growing the address space: the fresh pages are zero, as the image is behind its segments. */
  lemma LoadedGrown(s: Mem, t: Mem, root: nat, c: seq<Byte>, segments: seq<Segment>, k: nat, size: nat, n: nat,
                    perm: nat)
    requires ValidMem(s) && perm < 1024 && Grown(s, t, root, PageCount(size), n, perm)
    requires Accepted(segments, k, size) && Loaded(s, root, c, segments, k, PageCount(size))
    ensures Loaded(t, root, c, segments, k, PageCount(size) + n)
  {
    hide ValidMem, Grown, ImageByte, Loaded;
    forall a: nat | a / PAGE_SIZE < PageCount(size) + n
      ensures OwnsFrame(t, root, a / PAGE_SIZE) && FrameOf(t, root, a / PAGE_SIZE) in t.bytes
      ensures ByteOf(t, root, a) == ImageByte(c, segments, k, a)
    {
      if a / PAGE_SIZE < PageCount(size) {
        OldByte(s, t, root, c, segments, k, PageCount(size), n, perm, a);
      } else {
        FreshByte(s, t, root, PageCount(size), n, perm, a);
        ImageEnds(c, segments, k, size, a);
      }
    }
    LoadedIs(t, root, c, segments, k, PageCount(size) + n);
  }

  lemma LoadedIs(s: Mem, root: nat, c: seq<Byte>, segments: seq<Segment>, k: nat, n: nat)
    requires k <= |segments|
    requires forall a: nat | a / PAGE_SIZE < n ::
               && OwnsFrame(s, root, a / PAGE_SIZE) && FrameOf(s, root, a / PAGE_SIZE) in s.bytes
               && ByteOf(s, root, a) == ImageByte(c, segments, k, a)
    ensures Loaded(s, root, c, segments, k, n)
  {
    hide OwnsFrame, FrameOf, ByteOf, ImageByte;
  }

  lemma LoadedAt(s: Mem, root: nat, c: seq<Byte>, segments: seq<Segment>, k: nat, n: nat, a: nat)
    requires k <= |segments| && Loaded(s, root, c, segments, k, n) && a / PAGE_SIZE < n
    ensures OwnsFrame(s, root, a / PAGE_SIZE) && FrameOf(s, root, a / PAGE_SIZE) in s.bytes
    ensures ByteOf(s, root, a) == ImageByte(c, segments, k, a)
  {
    hide OwnsFrame, FrameOf, ByteOf, ImageByte;
  }

  lemma OldByte(s: Mem, t: Mem, root: nat, c: seq<Byte>, segments: seq<Segment>, k: nat, lo: nat, n: nat, perm: nat,
                a: nat)
    requires ValidMem(s) && perm < 1024 && Grown(s, t, root, lo, n, perm) && a / PAGE_SIZE < lo
    requires k <= |segments| && Loaded(s, root, c, segments, k, lo)
    ensures OwnsFrame(t, root, a / PAGE_SIZE) && FrameOf(t, root, a / PAGE_SIZE) in t.bytes
    ensures ByteOf(t, root, a) == ImageByte(c, segments, k, a)
  {
    hide Loaded, Forest, Entry, Ppn, ImageByte, Fresh, Distinct;
    LoadedAt(s, root, c, segments, k, lo, a);
    assert Entry(t.tables, root, a / PAGE_SIZE) == Entry(s.tables, root, a / PAGE_SIZE);
    assert FrameOf(s, root, a / PAGE_SIZE) !in s.free;
  }

  lemma FreshByte(s: Mem, t: Mem, root: nat, lo: nat, n: nat, perm: nat, a: nat)
    requires perm < 1024 && Grown(s, t, root, lo, n, perm) && lo <= a / PAGE_SIZE < lo + n
    ensures OwnsFrame(t, root, a / PAGE_SIZE) && FrameOf(t, root, a / PAGE_SIZE) in t.bytes && ByteOf(t, root, a) == 0
  {
    hide Entry, Ppn, LeafEntry;
    assert Fresh(t, root, a / PAGE_SIZE, perm);
  }

  /** Loading the next segment. */
  lemma LoadedNext(s: Mem, t: Mem, root: nat, c: seq<Byte>, segments: seq<Segment>, k: nat, n: nat)
    requires k < |segments| && Loaded(s, root, c, segments, k, n) && HasBytes(c, segments[k])
    requires WroteUser(s, t, root, segments[k].vaddr, Slice(c, segments[k].off, segments[k].filesz))
    ensures Loaded(t, root, c, segments, k + 1, n)
  {
    hide Loaded, Within, Entry, Ppn;
    forall a: nat | a / PAGE_SIZE < n
      ensures OwnsFrame(t, root, a / PAGE_SIZE) && FrameOf(t, root, a / PAGE_SIZE) in t.bytes
      ensures ByteOf(t, root, a) == ImageByte(c, segments, k + 1, a)
    {
      LoadedAt(s, root, c, segments, k, n, a);
    }
    LoadedIs(t, root, c, segments, k + 1, n);
  }

  /** Copying the arguments to the stack page leaves the image alone. */
  lemma LoadedBelow(s: Mem, t: Mem, root: nat, c: seq<Byte>, segments: seq<Segment>, k: nat, n: nat)
    requires k <= |segments| && n <= V_STACK && Loaded(s, root, c, segments, k, n) && RestKept(s, t, root)
    ensures Loaded(t, root, c, segments, k, n)
  {
    hide OwnsFrame, FrameOf, ImageByte;
  }

  /** So does an operation on another address space. */
  lemma LoadedElsewhere(s: Mem, t: Mem, other: nat, root: nat, c: seq<Byte>, segments: seq<Segment>, k: nat, n: nat)
    requires ValidMem(s) && Within(s, t, other) && root != other && IsRoot(s.owner, root)
    requires k <= |segments| && Loaded(s, root, c, segments, k, n)
    ensures Loaded(t, root, c, segments, k, n)
  {
    hide ValidMem, Loaded, Within, ImageByte;
    forall a: nat | a / PAGE_SIZE < n
      ensures OwnsFrame(t, root, a / PAGE_SIZE) && FrameOf(t, root, a / PAGE_SIZE) in t.bytes
      ensures ByteOf(t, root, a) == ImageByte(c, segments, k, a)
    {
      LoadedAt(s, root, c, segments, k, n, a);
      ForeignByte(s, t, other, root, a);
    }
    LoadedIs(t, root, c, segments, k, n);
  }

  lemma ForeignByte(s: Mem, t: Mem, other: nat, root: nat, a: nat)
    requires ValidMem(s) && Within(s, t, other) && root != other && IsRoot(s.owner, root)
    requires OwnsFrame(s, root, a / PAGE_SIZE) && FrameOf(s, root, a / PAGE_SIZE) in s.bytes
    ensures OwnsFrame(t, root, a / PAGE_SIZE) && FrameOf(t, root, a / PAGE_SIZE) in t.bytes
    ensures ByteOf(t, root, a) == ByteOf(s, root, a)
  {
    hide Forest, Distinct, Entry, Ppn, Holdings, Others;
    OthersSame(s.owner, t.owner, other);
    assert Entry(t.tables, root, a / PAGE_SIZE) == Entry(s.tables, root, a / PAGE_SIZE);
  }

  lemma UserEntry(page: nat, extra: nat)
    requires extra < 1024
    ensures UserPerm(extra) < 1024 && IsUser(LeafEntry(page, UserPerm(extra)))
    ensures IsValid(LeafEntry(page, UserPerm(extra)))
  {
    UserPermIs(extra);
    EntryIsLeaf(page, UserPerm(extra));
    var perm := UserPerm(extra);
    var h := perm / 2;
    var k, rwx := h / 8, h % 8;
    FlagBits(k / 2, k % 2, rwx, perm % 2);
    assert k % 2 == 1;
    FlagBits(32 * page + k / 2, 1, rwx, 1);
    assert LeafEntry(page, perm) == 32 * (32 * page + k / 2) + 16 * 1 + 2 * rwx + 1;
  }

  /** The pages that uvm_alloc adds are for user mode. */
  lemma UserGrown(s: Mem, t: Mem, root: nat, lo: nat, n: nat, extra: nat)
    requires extra < 1024 && UserPerm(extra) < 1024 && Grown(s, t, root, lo, n, UserPerm(extra))
    requires UserRange(s, root, 0, lo) && lo + n <= V_STACK
    ensures UserRange(t, root, 0, lo + n)
  {
    hide Entry, UserPerm, IsUser, IsValid, LeafEntry, Ppn, Holdings;
    forall w: nat | w < lo + n ensures UserPage(t, root, w) {
      if w < lo {
        assert UserPage(s, root, w);
      } else {
        assert Fresh(t, root, w, UserPerm(extra));
        UserEntry(Ppn(Entry(t.tables, root, w)), extra);
      }
    }
  }
}
