/** Replacing the address space of a process: exec commits only when everything has worked. */
module Exec {
  import opened Basics
  import opened Blocks
  import opened PageTable
  import opened VirtualMemory
  import opened UserMemory
  import opened UserCopy
  import opened ExecStack
  import opened Loader
  import Inodes
  import Files = FileSystem

  class Process {
    var root: nat
    var size: nat
    /** The trap-frame registers that exec sets for the new program. */
    var a1: nat
    var a2: nat
    var sp: nat
    var epc: nat

    constructor (root: nat, size: nat)
      ensures this.root == root && this.size == size
    {
      this.root, this.size, this.a1, this.a2, this.sp, this.epc := root, size, 0, 0, 0, 0;
    }
  }

  /** The pages at the top of an address space: only the stack is for user mode. */
  ghost predicate TopIsSafe(s: Mem, root: nat) {
    && Flags(Entry(s.tables, root, V_STACK)) == 0x17
    && Flags(Entry(s.tables, root, V_TRAP_FRAME)) == 0x07 && Flags(Entry(s.tables, root, V_TRAMPOLINE)) == 0x0b
    && IsUser(Entry(s.tables, root, V_STACK)) && IsWritable(Entry(s.tables, root, V_STACK))
    && !IsUser(Entry(s.tables, root, V_TRAP_FRAME)) && !IsUser(Entry(s.tables, root, V_TRAMPOLINE))
  }

  /** A complete address space with a safe top can take the argument stack. */
  lemma UserIsReady(s: Mem, root: nat, n: nat)
    requires ValidMem(s) && User(s, root, n) && TopIsSafe(s, root)
    ensures StackReady(s, root)
  {
    hide ValidMem, Entry, IsUser, IsWritable, Ppn, IsLeaf, Flags;
    assert IsRoot(s.owner, root);
    forall w | UserPage(s, root, w) ensures OwnsFrame(s, root, w) {
      MappedIsLeaf(s, root, w);
      assert w in Range(0, n) + {V_STACK, V_TRAP_FRAME, V_TRAMPOLINE};
    }
    MappedIsLeaf(s, root, V_STACK);
    assert V_STACK in Range(0, n) + {V_STACK, V_TRAP_FRAME, V_TRAMPOLINE};
  }

  lemma GrownTop(s: Mem, t: Mem, root: nat, lo: nat, n: nat, perm: nat)
    requires perm < 1024 && Grown(s, t, root, lo, n, perm) && lo + n <= V_STACK && TopIsSafe(s, root)
    ensures TopIsSafe(t, root)
  {
  }

  /** Why exec gives up: the file is no program, there is no memory for a page table, a segment
      is refused, there is no memory for a segment, the file is too short for it, or the
      arguments do not fit. */
  datatype Reason = Fine | NoProgram | NoTable | BadSegment | NoMemory | Unread | NoRoom

  /** Where a segment ends. */
  function EndOf(g: Segment): nat { g.vaddr + g.memsz }

  /** There may be too few pages for a segment: three for every page up to its end. An empty
      segment at address 0 looks like a failure of uvm_alloc, too. */
  predicate TooBig(g: Segment, free: nat) {
    EndOf(g) == 0 || free < 3 * PageCount(EndOf(g))
  }

  /** The address space in which segments are loaded: complete, with pages for user mode that
      hold the image so far. */
  ghost predicate Partly(s: Mem, root: nat, c: seq<Byte>, segments: seq<Segment>, k: nat, size: nat)
    requires k <= |segments|
  {
    && User(s, root, PageCount(size)) && TopIsSafe(s, root) && UserRange(s, root, 0, PageCount(size))
    && Accepted(segments, k, size) && Loaded(s, root, c, segments, k, PageCount(size))
  }

  /** Segment i is the first one that reaches page w. */
  predicate FirstFor(segments: seq<Segment>, i: nat, w: nat) {
    && i < |segments| && w < PageCount(segments[i].vaddr + segments[i].memsz)
    && forall j | 0 <= j < i :: PageCount(segments[j].vaddr + segments[j].memsz) <= w
  }

  /** The size is the end of a segment, and each of the pages has the flags of the first segment
      that reaches it: valid, readable and for user mode (0x13), executable (8) by flag 1 of the
      header and writable (4) by flag 2. */
  ghost predicate Flagged(s: Mem, root: nat, segments: seq<Segment>, k: nat, size: nat)
    requires k <= |segments|
  {
    && (size == 0 || exists j :: 0 <= j < k && size == segments[j].vaddr + segments[j].memsz)
    && forall w: nat, i: nat | w < PageCount(size) && w < N_VPN && i < k && FirstFor(segments, i, w) ::
         Flags(Entry(s.tables, root, w))
         == 0x13 + (if segments[i].flags % 2 == 1 then 8 else 0) + if segments[i].flags / 2 % 2 == 1 then 4 else 0
  }

  lemma SegmentFlags(page: nat, flags: nat)
    ensures UserPerm(Permissions(flags)) < 1024
    ensures Flags(LeafEntry(page, UserPerm(Permissions(flags))))
         == 0x13 + (if flags % 2 == 1 then 8 else 0) + if flags / 2 % 2 == 1 then 4 else 0
  {
    var perm := Permissions(flags);
    assert perm == 0 || perm == 4 || perm == 8 || perm == 12;
    assert UserPerm(perm) == perm + 18;
    QuotientIs(LeafEntry(page, UserPerm(perm)), 1024, page, perm + 19);
  }

  /** The pages that a segment adds have its flags. */
  lemma FlaggedGrown(s: Mem, t: Mem, root: nat, segments: seq<Segment>, k: nat, size: nat, newSize: nat)
    requires k < |segments| && Accepted(segments, k, size) && Flagged(s, root, segments, k, size)
    requires newSize == (if EndOf(segments[k]) > size then EndOf(segments[k]) else size)
    requires UserPerm(Permissions(segments[k].flags)) < 1024 && PageCount(newSize) <= V_STACK
    requires newSize == size ==> t == s
    requires newSize > size ==> Grown(s, t, root, PageCount(size), PageCount(newSize) - PageCount(size),
                                      UserPerm(Permissions(segments[k].flags)))
    ensures Flagged(t, root, segments, k + 1, newSize)
  {
    hide LeafEntry, UserPerm, Permissions, Flags, Entry, Refused, Holdings;
    forall w: nat, i: nat | w < PageCount(newSize) && w < N_VPN && i < k + 1 && FirstFor(segments, i, w)
      ensures Flags(Entry(t.tables, root, w))
           == 0x13 + (if segments[i].flags % 2 == 1 then 8 else 0) + if segments[i].flags / 2 % 2 == 1 then 4 else 0
    {
      if i < k {
        assert w < PageCount(size);
      } else if w >= PageCount(size) {
        assert Fresh(t, root, w, UserPerm(Permissions(segments[k].flags)));
        SegmentFlags(Ppn(Entry(t.tables, root, w)), segments[k].flags);
      }
    }
  }

  lemma FlaggedSame(s: Mem, t: Mem, root: nat, segments: seq<Segment>, k: nat, size: nat)
    requires k <= |segments| && Flagged(s, root, segments, k, size) && t.tables == s.tables
    ensures Flagged(t, root, segments, k, size)
  {
  }

  lemma TopSame(s: Mem, t: Mem, root: nat)
    requires TopIsSafe(s, root) && t.tables == s.tables
    ensures TopIsSafe(t, root)
  {
  }

  lemma TopElsewhere(s: Mem, t: Mem, other: nat, root: nat, n: nat)
    requires TopIsSafe(s, root) && User(s, root, n) && Within(s, t, other) && root != other
    ensures TopIsSafe(t, root)
  {
    hide Entry, Flags, Holdings, Others;
    assert IsRoot(s.owner, root);
  }

  lemma FlaggedElsewhere(s: Mem, t: Mem, other: nat, root: nat, segments: seq<Segment>, k: nat, size: nat)
    requires k <= |segments| && Flagged(s, root, segments, k, size) && User(s, root, PageCount(size))
    requires Within(s, t, other) && root != other
    ensures Flagged(t, root, segments, k, size)
  {
    hide Entry, Flags, Holdings, Others;
    assert IsRoot(s.owner, root);
    assert forall w: nat | w < PageCount(size) && w < N_VPN :: Entry(t.tables, root, w) == Entry(s.tables, root, w);
  }

  /** One LOAD segment: grows the new address space and loads the segment's bytes. */
  method AddSegment(mem: Memory, root: nat, size: nat, fs: Files.FileSystem, ino: nat, segments: seq<Segment>, k: nat)
      returns (r: Outcome, newSize: nat, why: Reason)
    requires Inodes.Sound(fs.State()) && ino < Inodes.N_INODES && Inodes.NoHoles(fs.State(), ino) && k < |segments|
    requires mem.Valid() && Partly(mem.State(), root, Inodes.Content(fs.State(), ino), segments, k, size)
    requires Flagged(mem.State(), root, segments, k, size)
    modifies mem, fs
    ensures fs.State() == old(fs.State())
    ensures r == Panicked ==> PageCount(EndOf(segments[k])) > V_STACK && |old(mem.free)| + PageCount(size) > V_STACK
    ensures r != Panicked ==>
              mem.Valid() && Within(old(mem.State()), mem.State(), root) && User(mem.State(), root, PageCount(newSize))
    ensures r == Done ==> Partly(mem.State(), root, Inodes.Content(fs.State(), ino), segments, k + 1, newSize)
    ensures r == Done ==> Flagged(mem.State(), root, segments, k + 1, newSize)
    ensures why.Fine? || why.BadSegment? || why.NoMemory? || why.Unread?
    ensures (r == Failed <==> !why.Fine?) && (why.BadSegment? <==> Refused(segments[k]))
    ensures why.Unread? ==> !HasBytes(Inodes.Content(fs.State(), ino), segments[k])
    ensures r == Done ==> HasBytes(Inodes.Content(fs.State(), ino), segments[k])
    ensures r == Done ==> |old(mem.free)| + 3 * PageCount(size) <= |mem.free| + 3 * PageCount(newSize)
    ensures r == Done ==> |mem.free| + PageCount(newSize) <= |old(mem.free)| + PageCount(size)
    ensures why.NoMemory? ==> TooBig(segments[k], |old(mem.free)| + 3 * PageCount(size))
  {
    hide ValidMem, User, Within, Grown, UserPerm, PageCount, TopIsSafe, Loaded, UserRange, WroteUser, Accepted;
    hide Inodes.Sound, Inodes.NoHoles, Inodes.Content, Permissions, Flagged;
    var g := segments[k];
    ghost var s, c := mem.State(), Inodes.Content(fs.State(), ino);
    WithinSelf(s, root);
    if !g.headerRead || g.memsz < g.filesz || g.vaddr + g.memsz >= WORD || g.vaddr % PAGE_SIZE != 0 {
      return Failed, size, BadSegment;
    }
    why := Fine;
    r, newSize := UvmAlloc(mem, root, size, g.vaddr + g.memsz, Permissions(g.flags));
    if r == Panicked {
      return;
    }
    if newSize == 0 {
      return Failed, size, NoMemory;
    }
    ghost var t := mem.State();
    Enlarged(s, t, root, c, segments, k, size, newSize, Permissions(g.flags));
    FitsBelowStack(t, root, PageCount(newSize));
    FlaggedGrown(s, t, root, segments, k, size, newSize);
    UserIsReady(t, root, PageCount(newSize));
    SegmentRange(t, root, g, newSize);
    var ok, done := LoadSegment(mem, root, g.vaddr, fs, ino, g.off, g.filesz);
    Written(t, mem.State(), root, g.vaddr, Slice(c, g.off, done), newSize);
    WithinOn(s, t, mem.State(), root);
    if !ok {
      r, why := Failed, Unread;
      return;
    }
    FlaggedSame(t, mem.State(), root, segments, k + 1, newSize);
    LoadedNext(t, mem.State(), root, c, segments, k, PageCount(newSize));
    AcceptedNext(segments, k, newSize, newSize);
  }

  /** The address space after uvm_alloc for the next segment. */
  lemma Enlarged(s: Mem, t: Mem, root: nat, c: seq<Byte>, segments: seq<Segment>, k: nat, size: nat, newSize: nat,
                 extra: nat)
    requires k < |segments| && Partly(s, root, c, segments, k, size) && ValidMem(s) && extra < 1024
    requires UserPerm(extra) < 1024
    requires newSize == if EndOf(segments[k]) > size then EndOf(segments[k]) else size
    requires User(t, root, PageCount(newSize)) && (newSize == size ==> t == s)
    requires newSize > size ==>
              Grown(s, t, root, PageCount(size), PageCount(newSize) - PageCount(size), UserPerm(extra))
    ensures PageCount(size) <= PageCount(newSize) && Partly(t, root, c, segments, k, newSize)
  {
    hide ValidMem, Grown, UserPerm, TopIsSafe, Loaded, UserRange, Accepted, Space;
    if newSize > size {
      var lo, n := PageCount(size), PageCount(newSize) - PageCount(size);
      SegmentTop(s, t, root, size, newSize, UserPerm(extra));
      AcceptedMore(segments, k, size, newSize);
      LoadedGrown(s, t, root, c, segments, k, size, n, UserPerm(extra));
      UserGrown(s, t, root, lo, n, extra);
    }
  }

  lemma FitsBelowStack(s: Mem, root: nat, n: nat)
    requires User(s, root, n)
    ensures n <= V_STACK
  {
  }

  lemma AcceptedMore(segments: seq<Segment>, k: nat, size: nat, more: nat)
    requires Accepted(segments, k, size) && size <= more
    ensures Accepted(segments, k, more)
  {
  }

  /** The bytes of a segment lie on pages of the address space. */
  lemma SegmentRange(s: Mem, root: nat, g: Segment, size: nat)
    requires !Refused(g) && EndOf(g) <= size && UserRange(s, root, 0, PageCount(size))
    ensures UserRange(s, root, g.vaddr / PAGE_SIZE, PageCount(g.filesz))
  {
    hide UserPage;
    assert g.vaddr / PAGE_SIZE + PageCount(g.filesz) <= PageCount(size);
  }

  /** Writing bytes into its pages leaves an address space complete. */
  lemma Written(s: Mem, t: Mem, root: nat, at: nat, data: seq<Byte>, size: nat)
    requires WroteUser(s, t, root, at, data) && User(s, root, PageCount(size)) && TopIsSafe(s, root)
    requires UserRange(s, root, 0, PageCount(size))
    ensures Within(s, t, root) && t.free == s.free && t.tables == s.tables
    ensures User(t, root, PageCount(size)) && TopIsSafe(t, root) && UserRange(t, root, 0, PageCount(size))
  {
    hide WroteUser, User, TopIsSafe, UserRange, PageCount;
    OnlyBytes(s, t, root, at, data);
    SameSpace(s, t, root, PageCount(size));
    SameTop(s, t, root, PageCount(size));
  }

  lemma OnlyBytes(s: Mem, t: Mem, root: nat, at: nat, data: seq<Byte>)
    requires WroteUser(s, t, root, at, data)
    ensures Within(s, t, root) && t.free == s.free && t.tables == s.tables && t.owner == s.owner
  {
    hide Within, ByteOf, Entry;
  }

  lemma SameTop(s: Mem, t: Mem, root: nat, n: nat)
    requires t.tables == s.tables && TopIsSafe(s, root) && UserRange(s, root, 0, n)
    ensures TopIsSafe(t, root) && UserRange(t, root, 0, n)
  {
    hide UserPage, IsUser, IsWritable, Entry;
    forall w: nat | w < n ensures UserPage(t, root, w) {
      SameUserPage(s, t, root, w);
    }
  }

  lemma SegmentTop(s: Mem, t: Mem, root: nat, size: nat, newSize: nat, perm: nat)
    requires perm < 1024 && size < newSize && User(t, root, PageCount(newSize)) && TopIsSafe(s, root)
    requires Grown(s, t, root, PageCount(size), PageCount(newSize) - PageCount(size), perm)
    ensures TopIsSafe(t, root)
  {
    hide Grown, TopIsSafe, Space;
    GrownTop(s, t, root, PageCount(size), PageCount(newSize) - PageCount(size), perm);
  }

  /** Operations on one address space leave another one complete. */
  lemma WithinUser(s: Mem, t: Mem, root: nat, r: nat, n: nat)
    requires ValidMem(s) && ValidMem(t) && Within(s, t, root) && r != root && User(s, r, n)
    ensures User(t, r, n)
  {
    hide ValidMem, Entry, Ppn, Holdings;
    OthersSame(s.owner, t.owner, root);
    hide Others;
    var mapped, data := Range(0, n) + {V_STACK, V_TRAP_FRAME, V_TRAMPOLINE}, Range(0, n) + {V_STACK};
    forall w | w in data ensures OwnsFrame(t, r, w) {
      assert OwnsFrame(s, r, w);
    }
  }

  /** The stack of an address space stays while another one is given back. */
  lemma WithinStack(s: Mem, t: Mem, root: nat, r: nat, n: nat)
    requires ValidMem(s) && Within(s, t, root) && r != root && User(s, r, n)
    ensures FrameOf(s, r, V_STACK) in s.bytes && FrameOf(t, r, V_STACK) in t.bytes
    ensures StackPage(t, r) == StackPage(s, r)
  {
    hide Entry, Ppn, Holdings, Others, Forest, Distinct;
    assert OwnsFrame(s, r, V_STACK);
    OwnedExists(s, FrameOf(s, r, V_STACK));
  }

  /** Some segment would reach the stack. */
  ghost predicate TooLarge(segments: seq<Segment>) {
    exists i :: 0 <= i < |segments| && PageCount(segments[i].vaddr + segments[i].memsz) > V_STACK
  }

  /** The reason to give up on loading the segments is a true one. */
  ghost predicate Reasons(segments: seq<Segment>, c: seq<Byte>, why: Reason, free: nat) {
    && !why.NoProgram? && !why.NoTable?
    && (why.BadSegment? ==> exists g :: g in segments && Refused(g))
    && (why.Unread? ==> exists g :: g in segments && !HasBytes(c, g))
    && (why.NoMemory? ==> exists g :: g in segments && TooBig(g, free))
  }

  /** Nothing stands in the way of loading the segments. */
  ghost predicate Loads(segments: seq<Segment>, c: seq<Byte>, free: nat) {
    && (free <= V_STACK || !TooLarge(segments))
    && forall g | g in segments :: !Refused(g) && HasBytes(c, g) && !TooBig(g, free)
  }

  lemma NoPages()
    ensures PageCount(0) == 0
  {
  }

  lemma AcceptedNext(segments: seq<Segment>, k: nat, size: nat, more: nat)
    requires Accepted(segments, k, size) && k < |segments| && size <= more
    requires !Refused(segments[k]) && more >= segments[k].vaddr + segments[k].memsz
    ensures Accepted(segments, k + 1, more)
  {
  }

  lemma NothingLoaded(s: Mem, root: nat, c: seq<Byte>, segments: seq<Segment>)
    requires User(s, root, 0) && TopIsSafe(s, root)
    ensures Partly(s, root, c, segments, 0, 0)
  {
    hide User, TopIsSafe;
  }

  lemma NothingFlagged(s: Mem, root: nat, segments: seq<Segment>)
    ensures Flagged(s, root, segments, 0, 0)
  {
  }

  /** The loop over the program headers. */
  method AddSegments(mem: Memory, root: nat, fs: Files.FileSystem, ino: nat, segments: seq<Segment>)
      returns (r: Outcome, size: nat, why: Reason)
    requires Inodes.Sound(fs.State()) && ino < Inodes.N_INODES && Inodes.NoHoles(fs.State(), ino)
    requires mem.Valid() && User(mem.State(), root, 0) && TopIsSafe(mem.State(), root)
    modifies mem, fs
    ensures fs.State() == old(fs.State())
    ensures r == Panicked ==> TooLarge(segments) && |old(mem.free)| > V_STACK
    ensures r != Panicked ==>
              mem.Valid() && Within(old(mem.State()), mem.State(), root) && User(mem.State(), root, PageCount(size))
    ensures r == Done ==> Partly(mem.State(), root, Inodes.Content(fs.State(), ino), segments, |segments|, size)
    ensures r == Done ==> Flagged(mem.State(), root, segments, |segments|, size)
    ensures r == Done ==> forall g | g in segments :: HasBytes(Inodes.Content(fs.State(), ino), g)
    ensures Reasons(segments, Inodes.Content(fs.State(), ino), why, |old(mem.free)|) && !why.NoRoom?
    ensures r == Failed <==> !why.Fine?
  {
    hide ValidMem, User, Within, PageCount, Refused, Partly, HasBytes, TooBig, Flagged, TopIsSafe, Holdings, Others;
    hide Inodes.Sound, Inodes.NoHoles, Inodes.Content;
    ghost var s, f := mem.State(), fs.State();
    ghost var c := Inodes.Content(f, ino);
    WithinSelf(s, root);
    NoPages();
    NothingLoaded(s, root, c, segments);
    NothingFlagged(s, root, segments);
    size, why := 0, Fine;
    var i := 0;
    while i < |segments|
      invariant 0 <= i <= |segments| && why.Fine? && fs.State() == f
      invariant mem.Valid() && Within(s, mem.State(), root) && Partly(mem.State(), root, c, segments, i, size)
      invariant Flagged(mem.State(), root, segments, i, size)
      invariant forall j | 0 <= j < i :: HasBytes(c, segments[j])
      invariant |mem.free| + PageCount(size) <= |s.free| <= |mem.free| + 3 * PageCount(size)
    {
      ghost var t := mem.State();
      ghost var before := size;
      r, size, why := AddSegment(mem, root, size, fs, ino, segments, i);
      if r == Panicked {
        return;
      }
      WithinOn(s, t, mem.State(), root);
      if r == Failed {
        if why.NoMemory? {
          FewerIsTooBig(segments[i], |s.free|, |t.free| + 3 * PageCount(before));
        }
        return;
      }
      i := i + 1;
    }
    PartlyUser(mem.State(), root, c, segments, size);
    r := Done;
  }

  lemma FewerIsTooBig(g: Segment, free: nat, more: nat)
    requires TooBig(g, more) && free <= more
    ensures TooBig(g, free)
  {
  }

  lemma PartlyUser(s: Mem, root: nat, c: seq<Byte>, segments: seq<Segment>, size: nat)
    requires Partly(s, root, c, segments, |segments|, size)
    ensures User(s, root, PageCount(size)) && TopIsSafe(s, root)
    ensures Loaded(s, root, c, segments, |segments|, PageCount(size))
    ensures Accepted(segments, |segments|, size)
  {
    hide User, TopIsSafe, Loaded, Accepted;
  }

  /** Making the new address space: its segments and its argument stack. */
  method MakeImage(mem: Memory, root: nat, fs: Files.FileSystem, ino: nat, segments: seq<Segment>,
                   argv: seq<seq<Byte>>, env: seq<seq<Byte>>)
    returns (r: Outcome, size: nat, a1: nat, a2: nat, why: Reason, ghost args: seq<nat>, ghost envs: seq<nat>)
    requires Inodes.Sound(fs.State()) && ino < Inodes.N_INODES && Inodes.NoHoles(fs.State(), ino)
    requires mem.Valid() && User(mem.State(), root, 0) && TopIsSafe(mem.State(), root)
    modifies mem, fs
    ensures fs.State() == old(fs.State())
    ensures r == Panicked ==> TooLarge(segments) && |old(mem.free)| > V_STACK
    ensures r != Panicked ==>
              mem.Valid() && Within(old(mem.State()), mem.State(), root) && User(mem.State(), root, PageCount(size))
    ensures r == Done ==> FrameOf(mem.State(), root, V_STACK) in mem.bytes && STACK_BASE <= a2 <= a1
                          && Arguments(StackPage(mem.State(), root), argv, args, STACK_TOP, a1)
                          && Arguments(StackPage(mem.State(), root), env, envs, a1, a2)
    ensures r == Done ==>
              Loaded(mem.State(), root, Inodes.Content(fs.State(), ino), segments, |segments|, PageCount(size))
    ensures r == Done ==> Flagged(mem.State(), root, segments, |segments|, size) && TopIsSafe(mem.State(), root)
    ensures r == Done ==> Accepted(segments, |segments|, size) && ArgvFits(argv) && EnvFits(argv, env)
    ensures r == Done ==> forall g | g in segments :: HasBytes(Inodes.Content(fs.State(), ino), g)
    ensures Reasons(segments, Inodes.Content(fs.State(), ino), why, |old(mem.free)|) && (r == Failed <==> !why.Fine?)
    ensures why.NoRoom? ==>
              !(ArgvFits(argv) && EnvFits(argv, env)) && (ArgvFits(argv) ==> a1 == StackEnd(STACK_TOP, argv))
  {
    hide ValidMem, User, Within, TopIsSafe, StackReady, Arguments, FrameOf, StackPage, PageCount, Accepted, Stacked;
    hide StackEnd, TooLarge, Flagged;
    hide ArgvFits, EnvFits, Refused, Loaded, Partly, HasBytes, TooBig, Inodes.Sound, Inodes.NoHoles, Inodes.Content;
    ghost var s := mem.State();
    a1, a2, args, envs := 0, 0, [], [];
    r, size, why := AddSegments(mem, root, fs, ino, segments);
    if r != Done {
      return;
    }
    ghost var t, c := mem.State(), Inodes.Content(fs.State(), ino);
    PartlyUser(t, root, c, segments, size);
    UserIsReady(t, root, PageCount(size));
    var ok;
    ok, a1, a2, args, envs := BuildStack(mem, root, argv, env);
    StackedUser(t, mem.State(), root, PageCount(size));
    FlaggedSame(t, mem.State(), root, segments, |segments|, size);
    TopSame(t, mem.State(), root);
    LoadedBelow(t, mem.State(), root, c, segments, |segments|, PageCount(size));
    WithinOn(s, t, mem.State(), root);
    if !ok {
      r, why := Failed, NoRoom;
    }
  }

  lemma StackedUser(s: Mem, t: Mem, root: nat, n: nat)
    requires Stacked(s, t, root, STACK_TOP) && User(s, root, n)
    ensures ValidMem(t) && Within(s, t, root) && User(t, root, n) && FrameOf(t, root, V_STACK) in t.bytes
    ensures RestKept(s, t, root) && n <= V_STACK && t.tables == s.tables
  {
    hide ValidMem, Within, StackReady, SameAbove, StackPage, FrameOf, RestKept;
    SameSpace(s, t, root, n);
  }

  /** do_execve from the point where the program file is open. On success the process has the
      new address space with the program's image and its argument stack, and nothing of the old
      one is left. On failure it keeps its address space, and every page is returned unless not
      even a page table could be made; but a1 has changed if the arguments were copied and the
      environment did not fit. */
  method DoExecve(mem: Memory, p: Process, trapFrame: nat, trampoline: nat, fs: Files.FileSystem, ino: nat,
                  loadable: bool, entry: nat, segments: seq<Segment>, argv: seq<seq<Byte>>, env: seq<seq<Byte>>)
    returns (r: Outcome, ret: int, why: Reason, ghost args: seq<nat>, ghost envs: seq<nat>)
    requires mem.Valid() && User(mem.State(), p.root, PageCount(p.size))
    requires Inodes.Sound(fs.State()) && ino < Inodes.N_INODES && Inodes.NoHoles(fs.State(), ino)
    modifies mem, p, fs
    ensures fs.State() == old(fs.State())
    ensures r == Panicked ==> TooLarge(segments) && |old(mem.free)| > V_STACK + 4
    ensures r == Failed ==>
              mem.Valid() && Abandoned(old(mem.State()), mem.State()) && p.root == old(p.root) && p.size == old(p.size)
    ensures r == Failed ==> (Pages(mem.free) == old(Pages(mem.free)) <==> !why.NoTable? || |old(mem.free)| <= 1)
    ensures r == Failed && !why.NoTable? ==>
              forall q | q in old(mem.bytes) && q !in old(mem.free) ::
                  q in mem.bytes && mem.bytes[q] == old(mem.bytes)[q]
    ensures r == Failed ==> p.a1 == (if why.NoRoom? && ArgvFits(argv) then StackEnd(STACK_TOP, argv) else old(p.a1))
                            && p.a2 == old(p.a2) && p.sp == old(p.sp) && p.epc == old(p.epc) && ret == -1
    ensures r == Done ==> ret == |argv| && p.epc == entry
    ensures (r == Failed <==> !why.Fine?) && (why.NoProgram? <==> !loadable)
    ensures why.NoTable? <==> loadable && |old(mem.free)| < 4
    ensures !why.NoProgram? && !why.NoTable? ==>
              Reasons(segments, Inodes.Content(fs.State(), ino), why, |old(mem.free)| - 4)
    ensures why.NoRoom? ==> !(ArgvFits(argv) && EnvFits(argv, env))
    ensures && loadable && |old(mem.free)| >= 4
            && Loads(segments, Inodes.Content(fs.State(), ino), |old(mem.free)| - 4) ==>
              && r == (if ArgvFits(argv) && EnvFits(argv, env) then Done else Failed)
              && (ArgvFits(argv) && !EnvFits(argv, env) ==> p.a1 == StackEnd(STACK_TOP, argv))
    ensures r == Failed && p.a1 != old(p.a1) ==> ArgvFits(argv) && !EnvFits(argv, env)
    ensures r == Done ==> loadable && Accepted(segments, |segments|, p.size) && ArgvFits(argv) && EnvFits(argv, env)
    ensures r == Done ==> forall g | g in segments :: HasBytes(Inodes.Content(fs.State(), ino), g)
    ensures r == Done ==>
              Loaded(mem.State(), p.root, Inodes.Content(fs.State(), ino), segments, |segments|, PageCount(p.size))
    ensures r == Done ==> Flagged(mem.State(), p.root, segments, |segments|, p.size) && TopIsSafe(mem.State(), p.root)
    ensures r == Done ==> mem.Valid() && p.root in old(mem.free) && User(mem.State(), p.root, PageCount(p.size))
    ensures r == Done ==> Holdings(mem.State()) == old(Holdings(mem.State()))
                          && forall q | q in mem.owner :: mem.owner[q].root != old(p.root)
    ensures r == Done ==> FrameOf(mem.State(), p.root, V_STACK) in mem.bytes && STACK_BASE <= p.a2 == p.sp <= p.a1
                          && Arguments(StackPage(mem.State(), p.root), argv, args, STACK_TOP, p.a1)
                          && Arguments(StackPage(mem.State(), p.root), env, envs, p.a1, p.a2)
  {
    hide ValidMem, User, Within, TopIsSafe, Arguments, FrameOf, StackPage, PageCount, Abandoned, Others, Entry, IsUser;
    hide IsWritable, LeafEntry, TooLarge, Flagged;
    hide Refused, Accepted, ArgvFits, EnvFits, StackEnd, Loaded, HasBytes, TooBig, Pages, Reasons, Loads, Inodes.Sound;
    hide Inodes.NoHoles, Inodes.Content;
    ghost var s := mem.State();
    ret := -1;
    NothingAbandoned(s);
    if !loadable {
      return Failed, -1, NoProgram, [], [];
    }
    var root := GetUserPageTable(mem, trapFrame, trampoline);
    if root == 0 {
      return Failed, -1, NoTable, [], [];
    }
    NewTop(mem.State(), root, trapFrame, trampoline);
    ghost var a := mem.State();
    var size, a1, a2;
    r, size, a1, a2, why, args, envs := MakeImage(mem, root, fs, ino, segments, argv, env);
    TrueReasons(segments, Inodes.Content(fs.State(), ino), r, why, |a.free|);
    if r == Panicked {
      return;
    }
    ghost var t := mem.State();
    WithinOn(s, a, t, root);
    if r == Failed {
      if why.NoRoom? && ArgvFits(argv) {
        p.a1 := a1;
      }
      FreeUserPageTable(mem, root, size);
      WithinOn(s, t, mem.State(), root);
      Conserved(s, t, mem.State(), root);
      SameIsAbandoned(s, mem.State());
      return;
    }
    RootsDiffer(s, root, p.root, PageCount(p.size));
    WithinUser(s, t, root, p.root, PageCount(p.size));
    var oldRoot, oldSize := p.root, p.size;
    p.root, p.size, p.a1, p.a2, p.sp, p.epc, ret := root, size, a1, a2, a2, entry, |argv|;
    FreeUserPageTable(mem, oldRoot, oldSize);
    WithinUser(t, mem.State(), oldRoot, root, PageCount(size));
    WithinStack(t, mem.State(), oldRoot, root, PageCount(size));
    UserRoot(t, root, PageCount(size));
    ghost var c := Inodes.Content(fs.State(), ino);
    LoadedElsewhere(t, mem.State(), oldRoot, root, c, segments, |segments|, PageCount(size));
    FlaggedElsewhere(t, mem.State(), oldRoot, root, segments, |segments|, size);
    TopElsewhere(t, mem.State(), oldRoot, root, PageCount(size));
    Replaced(s, t, mem.State(), root, oldRoot);
  }

  lemma TrueReasons(segments: seq<Segment>, c: seq<Byte>, r: Outcome, why: Reason, free: nat)
    requires Reasons(segments, c, why, free) && (r == Panicked ==> TooLarge(segments) && free > V_STACK)
    requires r == Failed <==> !why.Fine?
    ensures !why.NoProgram? && !why.NoTable?
    ensures Loads(segments, c, free) ==> r == Done || why.NoRoom?
  {
    hide Refused, HasBytes, TooBig, PageCount;
  }

  lemma UserRoot(s: Mem, root: nat, n: nat)
    requires User(s, root, n)
    ensures IsRoot(s.owner, root)
  {
  }

  lemma NewTop(s: Mem, root: nat, trapFrame: nat, trampoline: nat)
    requires IsUser(Entry(s.tables, root, V_STACK)) && IsWritable(Entry(s.tables, root, V_STACK))
    requires Flags(Entry(s.tables, root, V_STACK)) == 0x17
    requires Entry(s.tables, root, V_TRAP_FRAME) == LeafEntry(trapFrame, READ_WRITE)
    requires Entry(s.tables, root, V_TRAMPOLINE) == LeafEntry(trampoline, READ_EXECUTE)
    ensures TopIsSafe(s, root)
  {
    hide Entry, LeafEntry, IsUser, IsWritable, Flags;
    TopEntries(trapFrame, trampoline);
    KernelEntry(trapFrame, 0x07);
    KernelEntry(trampoline, 0x0b);
  }

  lemma KernelEntry(page: nat, flags: nat)
    requires flags < 16
    ensures Flags(page * 1024 + flags) == flags && !IsUser(page * 1024 + flags)
  {
    QuotientIs(page * 1024 + flags, 1024, page, flags);
    QuotientIs(page * 1024 + flags, 16, 64 * page, flags);
  }

  lemma SameIsAbandoned(s: Mem, t: Mem)
    requires t.owner == s.owner && Pages(t.free) == Pages(s.free) && SameFlat(s.tables, t.tables, s.owner)
    ensures Abandoned(s, t)
  {
  }

  lemma RootsDiffer(s: Mem, root: nat, r: nat, n: nat)
    requires ValidMem(s) && root in s.free && User(s, r, n)
    ensures r != root
  {
    hide Forest, Entry, Distinct;
  }

  lemma Replaced(s: Mem, t: Mem, u: Mem, root: nat, oldRoot: nat)
    requires Within(s, t, root) && Within(t, u, oldRoot) && u.owner == Others(t.owner, oldRoot)
    ensures Holdings(u) == Holdings(s)
    ensures forall q | q in u.owner :: u.owner[q].root != oldRoot
  {
  }

  /** The changed register does occur: a string of 4095 bytes in the environment leaves no room
      for its pointers below, although the empty list of arguments fitted. */
  method LateFailure() returns (p: Process, r: Outcome)
    ensures r == Failed && p.a1 == STACK_TOP - 16 != 0
  {
    hide ValidMem, User, Within, Loaded, Accepted, Reasons, Abandoned, Entry, Arguments, Inodes.Owned, Inodes.NoHoles;
    hide Inodes.Content;
    var mem := new Memory(1, 20);
    var root := GetUserPageTable(mem, 30, 31);
    p := new Process(root, 0);
    NoPages();
    var fs := new Files.FileSystem.Empty();
    var s: seq<Byte> := seq(4095, _ => 1);
    TooLong(s);
    var ret, why;
    ghost var args, envs;
    r, ret, why, args, envs := DoExecve(mem, p, 30, 31, fs, 0, true, 0, [], [], [s]);
  }

  lemma TooLong(s: seq<Byte>)
    requires |s| == 4095
    ensures ArgvFits([]) && StackEnd(STACK_TOP, []) == STACK_TOP - 16 && !EnvFits([], [s])
  {
    assert Pushed(STACK_TOP, []) == STACK_TOP;
    assert StackEnd(STACK_TOP, []) == STACK_TOP - 16;
    assert Pushed(STACK_TOP - 16, [s]) < STACK_BASE;
  }

  /** A program can make copy_in panic: the first address behind the virtual ones is enough. */
  method ReadBehindTheEnd() returns (r: Outcome)
    ensures r == Panicked
  {
    hide ValidMem, User, Within, Entry, IsUser, IsWritable, LeafEntry, UserByte;
    var mem := new Memory(1, 20);
    var root := GetUserPageTable(mem, 30, 31);
    NewTop(mem.State(), root, 30, 31);
    UserIsReady(mem.State(), root, 0);
    var out;
    r, out := CopyIn(mem, root, MAX_VADDR, 1);
  }
}
