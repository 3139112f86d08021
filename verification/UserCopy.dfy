/** Copying user memory: fork's copy of an address space, and copies between kernel and user. */
module UserCopy {
  import opened Basics
  import opened Blocks
  import opened PageTable
  import opened VirtualMemory
  import opened UserMemory

  // ------------------------------------------------------------------ fork

  ghost function FrameOf(s: Mem, root: nat, w: nat): nat
    requires w < N_VPN
  {
    Ppn(Entry(s.tables, root, w))
  }

  /** Page `w` of one address space in state `t` has the flags and bytes that page `w` of
      another one had in state `s`. */
  ghost predicate SamePage(s: Mem, src: nat, t: Mem, dst: nat, w: nat)
    requires w < N_VPN
  {
    && Flags(Entry(t.tables, dst, w)) == Flags(Entry(s.tables, src, w))
    && FrameOf(t, dst, w) in t.bytes && FrameOf(s, src, w) in s.bytes
    && t.bytes[FrameOf(t, dst, w)] == s.bytes[FrameOf(s, src, w)]
  }

  /** Everything in use keeps its bytes, and one address space its other pages. */
  ghost predicate KeptApart(s: Mem, t: Mem, root: nat, v: nat) {
    && (forall w: nat | w < N_VPN && w != v :: Entry(t.tables, root, w) == Entry(s.tables, root, w))
    && (forall p | p in s.bytes && p !in s.free :: p in t.bytes && t.bytes[p] == s.bytes[p])
  }

  lemma EntryFlags(page: nat, f: nat)
    requires f < 1024
    ensures (page * 1024 + f) % 1024 == f && (page * 1024 + f) / 1024 == page
  {
  }

  /** The flags of a leaf entry are permissions of a leaf entry, and are kept. */
  lemma FlagsAreLeaf(e: Pte, page: nat)
    requires IsValid(e) && IsLeaf(e)
    ensures Flags(e) < 1024 && IsLeaf(Flags(e)) && Flags(LeafEntry(page, Flags(e))) == Flags(e)
  {
    var q, f := e / 1024, e % 1024;
    var h, v := f / 2, f % 2;
    var k, rwx := h / 8, h % 8;
    EntryFlags(q, f);
    assert e == 2 * (512 * q + h) + v;
    Halves(512 * q + h, v);
    Eighths(64 * q + k, rwx);
    EntryFlags(page, f);
  }

  /** A page taken, filled, mapped and owned: nothing else in use changed. */
  lemma AdoptedApart(s: Mem, t: Mem, u: Mem, root: nat, v: nat, page: nat, perm: nat)
    requires ValidMem(s) && Taken(s, t, page) && perm < 1024 && Mapped(t, u, root, v, 1, page, perm)
    requires IsRoot(s.owner, root) && v < N_VPN && page in t.bytes
    ensures KeptApart(s, u, root, v)
    ensures Entry(u.tables, root, v) == LeafEntry(page, perm)
    ensures page in u.bytes && u.bytes[page] == t.bytes[page]
  {
    hide ValidMem, Entry, LeafEntry;
    TakenOut(s, t, page);
  }

  lemma SamePageKept(s: Mem, src: nat, t: Mem, u: Mem, dst: nat, v: nat, w: nat)
    requires ValidMem(t) && KeptApart(t, u, dst, v) && w < N_VPN && w != v
    requires SamePage(s, src, t, dst, w) && OwnsFrame(t, dst, w)
    ensures SamePage(s, src, u, dst, w)
  {
    hide Forest, Entry, Distinct, Ppn, Flags;
  }

  /** What the fork loop knows after `k` pages: the copies are complete, and the original
      address space has not changed. */
  ghost predicate Copied(s: Mem, src: nat, t: Mem, dst: nat, k: nat) {
    k <= V_STACK && forall w: nat | w < k :: SamePage(s, src, t, dst, w)
  }

  lemma CopiedNext(s: Mem, src: nat, t: Mem, u: Mem, dst: nat, k: nat)
    requires ValidMem(t) && User(t, dst, k) && KeptApart(t, u, dst, k)
    requires k < V_STACK && Copied(s, src, t, dst, k) && SamePage(s, src, u, dst, k)
    ensures Copied(s, src, u, dst, k + 1)
  {
    hide ValidMem, SamePage, KeptApart, Entry, Ppn;
    forall w: nat | w < k ensures SamePage(s, src, u, dst, w) {
      assert w in Range(0, k);
      assert OwnsFrame(t, dst, w);
      SamePageKept(s, src, t, u, dst, k, w);
    }
  }

  /** The pages of one address space, seen after operations on another one. */
  lemma SourceKept(s: Mem, t: Mem, src: nat, dst: nat, w: nat)
    requires ValidMem(s) && Within(s, t, dst) && IsRoot(s.owner, src) && src != dst && OwnsFrame(s, src, w)
    ensures Entry(t.tables, src, w) == Entry(s.tables, src, w)
    ensures FrameOf(s, src, w) in s.bytes && FrameOf(s, src, w) in t.bytes
    ensures t.bytes[FrameOf(s, src, w)] == s.bytes[FrameOf(s, src, w)]
  {
    hide Forest, Distinct, Entry, Ppn;
    RootOwned(s, FrameOf(s, src, w));
    assert FrameOf(s, src, w) in s.tables by { OwnedExists(s, FrameOf(s, src, w)); }
  }

  lemma OwnedExists(s: Mem, p: nat)
    requires ValidMem(s) && p in s.owner
    ensures p in s.tables && p in s.bytes && p !in s.free
  {
  }

  /** The source page of a round of fork's loop is mapped as it was at the start. */
  lemma SourcePage(s: Mem, t: Mem, src: nat, dst: nat, n: nat, v: nat)
    requires ValidMem(s) && ValidMem(t) && Within(s, t, dst) && src != dst && User(s, src, n) && (v < n || v == V_STACK)
    ensures IsRoot(s.owner, src) && IsRoot(t.owner, src)
    ensures Entry(t.tables, src, v) == Entry(s.tables, src, v) != 0
    ensures var f := FrameOf(s, src, v); f in s.bytes && f in t.bytes && t.bytes[f] == s.bytes[f]
    ensures var e := Entry(s.tables, src, v); IsValid(e) && IsLeaf(e)
    ensures TableOf(t.tables, src, v) != 0
  {
    hide ValidMem, Entry, Flags;
    assert OwnsFrame(s, src, v);
    SourceKept(s, t, src, dst, v);
    OthersSame(s.owner, t.owner, dst);
    MappedIsLeaf(s, src, v);
    MappedIsLeaf(t, src, v);
    NoPageZero(t);
  }

  /** After a successful round the new page is a copy. */
  lemma PageCopied(s: Mem, a: Mem, t: Mem, u: Mem, src: nat, dst: nat, k: nat, n: nat, page: nat)
    requires ValidMem(s) && ValidMem(a) && ValidMem(t) && ValidMem(u) && Within(s, a, dst) && src != dst
    requires User(s, src, n) && k < n && User(a, dst, k) && Copied(s, src, a, dst, k)
    requires Taken(a, t, page) && page in t.bytes && FrameOf(s, src, k) in a.bytes
    requires t.bytes[page] == a.bytes[FrameOf(s, src, k)]
    requires Flags(Entry(s.tables, src, k)) < 1024 && IsLeaf(Flags(Entry(s.tables, src, k)))
    requires Mapped(t, u, dst, k, 1, page, Flags(Entry(s.tables, src, k))) && RangeEmpty(t.tables, dst, k, 1)
    ensures var z := u.(owner := u.owner[page := Place(dst, Data(k))]);
            ValidMem(z) && User(z, dst, k + 1) && Within(s, z, dst) && Copied(s, src, z, dst, k + 1)
    ensures Entry(u.tables, dst, V_STACK) == Entry(a.tables, dst, V_STACK)
  {
    hide ValidMem, Entry, Mapped, Within, IsLeaf, RangeEmpty, Flags, Ppn, IsValid, Space;
    var z := u.(owner := u.owner[page := Place(dst, Data(k))]);
    var e := Entry(s.tables, src, k);
    var mapped, data := Range(0, k) + {V_STACK, V_TRAP_FRAME, V_TRAMPOLINE}, Range(0, k) + {V_STACK};
    Adopted(a, t, u, dst, k, page, Flags(e), mapped, data);
    AdoptedApart(a, t, u, dst, k, page, Flags(e));
    WithinOn(s, a, z, dst);
    UserGrows(z, dst, k);
    SourcePage(s, a, src, dst, n, k);
    FlagsAreLeaf(e, page);
    EntryIsLeaf(page, Flags(e));
    hide LeafEntry;
    assert SamePage(s, src, z, dst, k);
    assert KeptApart(a, z, dst, k);
    CopiedNext(s, src, a, z, dst, k);
  }

  /** One round of fork's loop: a page of the source is copied to a page of its own. */
  method CopyPage(mem: Memory, dst: nat, src: nat, va: nat, ghost s: Mem, ghost k: nat, ghost n: nat)
      returns (r: Outcome)
    requires mem.Valid() && ValidMem(s) && Within(s, mem.State(), dst) && src != dst
    requires User(s, src, n) && k < n && User(mem.State(), dst, k) && Copied(s, src, mem.State(), dst, k)
    requires va == k * PAGE_SIZE
    modifies mem
    ensures r != Panicked && mem.Valid() && Within(s, mem.State(), dst)
    ensures r == Done ==> User(mem.State(), dst, k + 1) && Copied(s, src, mem.State(), dst, k + 1)
    ensures r == Done ==> Entry(mem.tables, dst, V_STACK) == old(Entry(mem.tables, dst, V_STACK))
    ensures r == Failed ==> User(mem.State(), dst, k) && |old(mem.free)| < 3
    ensures r == Done ==> |old(mem.free)| <= |mem.free| + 3
  {
    hide ValidMem, Space, Within, Copied, Mapped, Walked, RangeTaken, RangeEmpty, SameFlat, IsLeaf, IsValid, Flags;
    hide TableAt, Bottom, Range, Ppn, Missing;
    ghost var a := mem.State();
    ghost var mapped, data := Range(0, k) + {V_STACK, V_TRAP_FRAME, V_TRAMPOLINE}, Range(0, k) + {V_STACK};
    assert va / PAGE_SIZE == k;
    SourcePage(s, a, src, dst, n, k);
    var table, i := mem.Walk(src, va, false);
    var e := mem.tables[table][i];
    assert e == Entry(s.tables, src, k);
    FlagsAreLeaf(e, 0);
    var page := mem.PmAlloc();
    if page == 0 {
      return Failed;
    }
    mem.bytes := mem.bytes[page := mem.bytes[Ppn(e)]];
    ghost var t := mem.State();
    FilledIsTaken(a, t, page, mem.bytes[page]);
    TakenSpace(a, t, page, dst, mapped, data);
    SpaceRoot(t, dst, mapped, data);
    assert page * PAGE_SIZE / PAGE_SIZE == page && Span(va, PAGE_SIZE) == 1;
    hide Span;
    r := mem.MapPages(dst, va, page * PAGE_SIZE, PAGE_SIZE, Flags(e));
    ghost var u := mem.State();
    if r == Failed {
      GivenBack(a, t, u, dst, k, page, Flags(e), mapped, data);
      mem.PmFree(page);
      WithinOn(s, a, mem.State(), dst);
    } else {
      mem.owner := mem.owner[page := Place(dst, Data(k))];
      PageCopied(s, a, t, u, src, dst, k, n, page);
    }
  }

  lemma FilledIsTaken(s: Mem, t: Mem, page: nat, data: Page)
    requires ValidMem(s) && ValidMem(s.(free := t.free)) && s.free == [page] + t.free && page in s.tables
    requires t == s.(free := t.free, bytes := s.bytes[page := data])
    ensures ValidMem(t) && Taken(s, t, page) && page in t.bytes
  {
  }

  /** Writing a frame of one address space shows at one virtual page only. */
  lemma FrameWritten(s: Mem, t: Mem, root: nat, v: nat, data: Page)
    requires ValidMem(s) && OwnsFrame(s, root, v)
    requires t == s.(bytes := s.bytes[FrameOf(s, root, v) := data])
    ensures ValidMem(t) && Within(s, t, root)
    ensures forall w | OwnsFrame(s, root, w) && w != v :: FrameOf(s, root, w) in s.bytes
              && t.bytes[FrameOf(s, root, w)] == s.bytes[FrameOf(s, root, w)]
  {
    hide Forest, Distinct, Entry, Ppn, Others, IsRoot;
    OwnedExists(s, FrameOf(s, root, v));
    forall w | OwnsFrame(s, root, w) && w != v
      ensures FrameOf(s, root, w) != FrameOf(s, root, v) && FrameOf(s, root, w) in s.bytes
    {
      OwnedExists(s, FrameOf(s, root, w));
    }
  }

  lemma SameSpace(s: Mem, t: Mem, root: nat, n: nat)
    requires User(s, root, n) && t.tables == s.tables && t.owner == s.owner
    ensures User(t, root, n)
  {
    hide Entry, Ppn;
    var mapped, data := Range(0, n) + {V_STACK, V_TRAP_FRAME, V_TRAMPOLINE}, Range(0, n) + {V_STACK};
    forall w | w in data ensures OwnsFrame(t, root, w) {
      assert OwnsFrame(s, root, w);
    }
  }

  /** uvm_walk_addr: the page that user mode sees at an address, 0 if there is none; `ok` is
      false when it panics. */
  method UvmWalkAddr(mem: Memory, root: nat, va: nat) returns (ok: bool, page: nat)
    requires mem.Valid() && IsRoot(mem.owner, root)
    modifies mem
    ensures mem.State() == old(mem.State())
    ensures ok <==> va < MAX_VADDR
    ensures ok ==>
              page == if UserPage(mem.State(), root, va / PAGE_SIZE) then FrameOf(mem.State(), root, va / PAGE_SIZE)
                      else 0
  {
    hide ValidMem, TableAt, Bottom, IsUser, IsLeaf, Flags;
    if va >= MAX_VADDR {
      return false, 0;
    }
    MappedIsLeaf(mem.State(), root, va / PAGE_SIZE);
    NoPageZero(mem.State());
    var table, k := mem.Walk(root, va, false);
    if table == 0 || !IsValid(mem.tables[table][k]) || !IsUser(mem.tables[table][k]) {
      return true, 0;
    }
    return true, Ppn(mem.tables[table][k]);
  }

  /** A virtual page that user mode may read. */
  ghost predicate UserPage(s: Mem, root: nat, w: nat) {
    w < MAX_VADDR / PAGE_SIZE && IsValid(Entry(s.tables, root, w)) && IsUser(Entry(s.tables, root, w))
  }

  /** copy_user_stack. */
  method CopyStack(mem: Memory, dst: nat, src: nat, ghost s: Mem, ghost n: nat)
    requires mem.Valid() && ValidMem(s) && Within(s, mem.State(), dst) && src != dst
    requires IsUser(Entry(s.tables, src, V_STACK)) && IsUser(Entry(mem.tables, dst, V_STACK))
    requires User(s, src, n) && User(mem.State(), dst, n) && Copied(s, src, mem.State(), dst, n)
    modifies mem
    ensures mem.Valid() && Within(s, mem.State(), dst) && User(mem.State(), dst, n)
    ensures Copied(s, src, mem.State(), dst, n)
    ensures mem.tables == old(mem.tables)
    ensures FrameOf(mem.State(), dst, V_STACK) in mem.bytes && FrameOf(s, src, V_STACK) in s.bytes
    ensures mem.bytes[FrameOf(mem.State(), dst, V_STACK)] == s.bytes[FrameOf(s, src, V_STACK)]
  {
    hide ValidMem, Space, Within, Entry, IsUser, IsValid, Ppn;
    ghost var t := mem.State();
    StackPages(s, t, src, dst, n);
    assert V_STACK * PAGE_SIZE / PAGE_SIZE == V_STACK;
    var _, to := UvmWalkAddr(mem, dst, V_STACK * PAGE_SIZE);
    var _, from := UvmWalkAddr(mem, src, V_STACK * PAGE_SIZE);
    mem.bytes := mem.bytes[to := mem.bytes[from]];
    StackCopied(s, t, mem.State(), src, dst, n);
  }

  lemma StackPages(s: Mem, t: Mem, src: nat, dst: nat, n: nat)
    requires ValidMem(s) && ValidMem(t) && Within(s, t, dst) && src != dst && User(s, src, n) && User(t, dst, n)
    ensures IsRoot(t.owner, src) && IsRoot(t.owner, dst)
    ensures IsValid(Entry(t.tables, src, V_STACK)) && IsValid(Entry(t.tables, dst, V_STACK))
    ensures Entry(t.tables, src, V_STACK) == Entry(s.tables, src, V_STACK) && OwnsFrame(t, dst, V_STACK)
    ensures FrameOf(s, src, V_STACK) in s.bytes && FrameOf(s, src, V_STACK) in t.bytes
    ensures t.bytes[FrameOf(s, src, V_STACK)] == s.bytes[FrameOf(s, src, V_STACK)]
  {
    hide ValidMem, Entry, Within;
    SourcePage(s, t, src, dst, n, V_STACK);
    WithinSelf(t, src);
    SourcePage(t, t, dst, src, n, V_STACK);
  }

  lemma StackCopied(s: Mem, t: Mem, u: Mem, src: nat, dst: nat, n: nat)
    requires ValidMem(s) && ValidMem(t) && Within(s, t, dst) && src != dst
    requires User(s, src, n) && User(t, dst, n) && Copied(s, src, t, dst, n)
    requires OwnsFrame(t, dst, V_STACK) && FrameOf(s, src, V_STACK) in s.bytes
    requires u == t.(bytes := t.bytes[FrameOf(t, dst, V_STACK) := s.bytes[FrameOf(s, src, V_STACK)]])
    ensures ValidMem(u) && Within(s, u, dst) && User(u, dst, n) && Copied(s, src, u, dst, n)
  {
    hide ValidMem, Within, Entry, Ppn, Flags;
    FrameWritten(t, u, dst, V_STACK, s.bytes[FrameOf(s, src, V_STACK)]);
    WithinOn(s, t, u, dst);
    SameSpace(t, u, dst, n);
    forall w: nat | w < n ensures SamePage(s, src, u, dst, w) {
      assert SamePage(s, src, t, dst, w);
      assert OwnsFrame(t, dst, w);
    }
  }

  /** copy_user_page_table gives up: the pages copied so far go back. */
  method UndoCopy(mem: Memory, dst: nat, va: nat, ghost s: Mem, ghost k: nat)
    requires mem.Valid() && ValidMem(s) && Within(s, mem.State(), dst) && User(mem.State(), dst, k)
    requires va == k * PAGE_SIZE
    modifies mem
    ensures mem.Valid() && Within(s, mem.State(), dst) && User(mem.State(), dst, 0)
  {
    hide ValidMem, Space, Within, Unmapped, RangeMapped, RangeSuits;
    ghost var t := mem.State();
    ghost var mapped, data := Range(0, k) + {V_STACK, V_TRAP_FRAME, V_TRAMPOLINE}, Range(0, k) + {V_STACK};
    SpaceRoot(t, dst, mapped, data);
    SpaceSuits(t, dst, 0, k, mapped, data, true);
    assert Span(0, va) == k;
    hide Span;
    var _ := mem.UnmapPages(dst, 0, va, true);
    UnmappedWithin(t, mem.State(), dst, 0, k);
    UnmappedSpace(t, mem.State(), dst, 0, k, mapped, data);
    assert mapped - Range(0, k) == Range(0, 0) + {V_STACK, V_TRAP_FRAME, V_TRAMPOLINE};
    assert data - Range(0, k) == Range(0, 0) + {V_STACK};
    WithinOn(s, t, mem.State(), dst);
  }

  /** copy_user_page_table: on success the child has the same bytes and flags at every user
      page, in frames of its own, and the same bytes on its stack, which keeps the flags that it
      had; on failure it has none of these pages. The parent does not change either way. It does
      not fail as long as there are three free pages for every page to copy. */
  method CopyUserPageTable(mem: Memory, dst: nat, src: nat, size: nat) returns (r: Outcome)
    requires mem.Valid() && src != dst && User(mem.State(), src, PageCount(size)) && User(mem.State(), dst, 0)
    requires IsUser(Entry(mem.tables, src, V_STACK)) && IsUser(Entry(mem.tables, dst, V_STACK))
    modifies mem
    ensures r != Panicked && mem.Valid() && Within(old(mem.State()), mem.State(), dst)
    ensures r == Failed ==> User(mem.State(), dst, 0) && |old(mem.free)| < 3 * PageCount(size)
    ensures r == Done ==>
              && User(mem.State(), dst, PageCount(size))
              && Copied(old(mem.State()), src, mem.State(), dst, PageCount(size))
    ensures r == Done ==>
              && FrameOf(mem.State(), dst, V_STACK) in mem.bytes && old(FrameOf(mem.State(), src, V_STACK) in mem.bytes)
              && mem.bytes[FrameOf(mem.State(), dst, V_STACK)] == old(mem.bytes[FrameOf(mem.State(), src, V_STACK)])
    ensures r == Done ==> Entry(mem.tables, dst, V_STACK) == old(Entry(mem.tables, dst, V_STACK))
    ensures r == Done && old(Flags(Entry(mem.tables, dst, V_STACK)) == Flags(Entry(mem.tables, src, V_STACK))) ==>
              SamePage(old(mem.State()), src, mem.State(), dst, V_STACK)
  {
    hide ValidMem, Space, Within, Entry, IsUser, Flags;
    ghost var s := mem.State();
    WithinSelf(s, dst);
    var va := 0;
    ghost var k, n := 0, PageCount(size);
    while va < size
      invariant va == k * PAGE_SIZE && k <= n
      invariant mem.Valid() && Within(s, mem.State(), dst) && User(mem.State(), dst, k)
      invariant Copied(s, src, mem.State(), dst, k)
      invariant Entry(mem.tables, dst, V_STACK) == Entry(s.tables, dst, V_STACK)
      invariant |s.free| <= |mem.free| + 3 * k
    {
      r := CopyPage(mem, dst, src, va, s, k, n);
      if r == Failed {
        UndoCopy(mem, dst, va, s, k);
        return;
      }
      va := va + PAGE_SIZE;
      k := k + 1;
    }
    CopyStack(mem, dst, src, s, n);
    r := Done;
  }

  // ------------------------------------------------------------------ copies between kernel and user

  /** User mode reads only pages of its own address space. */
  ghost predicate Private(s: Mem, root: nat) {
    IsRoot(s.owner, root) && forall w | UserPage(s, root, w) :: OwnsFrame(s, root, w)
  }

  /** The byte at a virtual address of an address space. */
  ghost function ByteOf(s: Mem, root: nat, a: nat): Byte
    requires OwnsFrame(s, root, a / PAGE_SIZE) && FrameOf(s, root, a / PAGE_SIZE) in s.bytes
  {
    s.bytes[FrameOf(s, root, a / PAGE_SIZE)][a % PAGE_SIZE]
  }

  /** The byte as user mode sees it, if it may. */
  ghost function UserByte(s: Mem, root: nat, a: nat): Option<Byte> {
    if UserPage(s, root, a / PAGE_SIZE) && FrameOf(s, root, a / PAGE_SIZE) in s.bytes then
      Some(s.bytes[FrameOf(s, root, a / PAGE_SIZE)][a % PAGE_SIZE])
    else
      None
  }

  lemma ReadableIsThere(s: Mem, root: nat, a: nat)
    requires ValidMem(s) && Private(s, root)
    ensures UserByte(s, root, a).Some? <==> UserPage(s, root, a / PAGE_SIZE)
    ensures UserPage(s, root, a / PAGE_SIZE) ==>
              OwnsFrame(s, root, a / PAGE_SIZE) && FrameOf(s, root, a / PAGE_SIZE) != 0
  {
  }

  /** The bytes of one page, in user's view. */
  lemma ChunkIs(s: Mem, root: nat, at: nat, len: nat)
    requires ValidMem(s) && Private(s, root) && at % PAGE_SIZE + len <= PAGE_SIZE && UserPage(s, root, at / PAGE_SIZE)
    ensures FrameOf(s, root, at / PAGE_SIZE) in s.bytes
    ensures forall a | at <= a < at + len ::
              UserByte(s, root, a)
              == Some(s.bytes[FrameOf(s, root, at / PAGE_SIZE)][at % PAGE_SIZE..at % PAGE_SIZE + len][a - at])
  {
    hide ValidMem, UserPage, FrameOf, Private;
    ReadableIsThere(s, root, at);
    forall a | at <= a < at + len
      ensures a / PAGE_SIZE == at / PAGE_SIZE && a % PAGE_SIZE == at % PAGE_SIZE + (a - at)
    {
      SamePageAddress(at, a);
    }
  }

  lemma SamePageAddress(at: nat, a: nat)
    requires at <= a < at + (PAGE_SIZE - at % PAGE_SIZE)
    ensures a / PAGE_SIZE == at / PAGE_SIZE && a % PAGE_SIZE == at % PAGE_SIZE + (a - at)
  {
  }

  /** copy_in: succeeds exactly when user mode may read every byte, and then yields exactly
      these bytes, across page boundaries. It panics exactly when it gets to the end of the
      virtual addresses: the range goes on there, and every byte before is readable. */
  method CopyIn(mem: Memory, root: nat, src: nat, n: nat) returns (r: Outcome, out: seq<Byte>)
    requires mem.Valid() && Private(mem.State(), root)
    modifies mem
    ensures mem.State() == old(mem.State())
    ensures r == Done <==> forall a: nat | src <= a < src + n :: UserByte(mem.State(), root, a).Some?
    ensures r == Done ==>
              |out| == n && forall a: nat | src <= a < src + n :: UserByte(mem.State(), root, a) == Some(out[a - src])
    ensures r == Panicked <==>
              n > 0 && src + n > MAX_VADDR && forall a: nat | src <= a < MAX_VADDR ::
                  UserByte(mem.State(), root, a).Some?
  {
    hide ValidMem, UserPage, UserByte, FrameOf;
    ghost var s := mem.State();
    assert IsRoot(mem.owner, root);
    hide Private;
    if n > 0 {
      NotUserAbove(s, root, src + n - 1);
      ReadableIsThere(s, root, src + n - 1);
    }
    out := [];
    while |out| < n
      invariant mem.State() == s && |out| <= n
      invariant forall a: nat | src <= a < src + |out| :: UserByte(s, root, a) == Some(out[a - src])
    {
      var at := src + |out|;
      ReadableIsThere(s, root, at);
      var ok, page := UvmWalkAddr(mem, root, at - at % PAGE_SIZE);
      assert (at - at % PAGE_SIZE) / PAGE_SIZE == at / PAGE_SIZE;
      NotUserAbove(s, root, at);
      if !ok {
        return Panicked, [];
      }
      if page == 0 {
        return Failed, [];
      }
      var len := PAGE_SIZE - at % PAGE_SIZE;
      if len > n - |out| {
        len := n - |out|;
      }
      ChunkIs(s, root, at, len);
      out := out + mem.bytes[page][at % PAGE_SIZE..at % PAGE_SIZE + len];
    }
    r := Done;
  }

  lemma NotUserAbove(s: Mem, root: nat, at: nat)
    ensures at >= MAX_VADDR <==> at - at % PAGE_SIZE >= MAX_VADDR
    ensures at >= MAX_VADDR ==> !UserPage(s, root, at / PAGE_SIZE)
  {
  }

  // ------------------------------------------------------------------ copy_out

  /** A virtual page that user mode may write. */
  ghost predicate WritablePage(s: Mem, root: nat, w: nat) {
    UserPage(s, root, w) && IsWritable(Entry(s.tables, root, w))
  }

  function PutBytes(page: Page, off: nat, data: seq<Byte>): Page
    requires off + |data| <= PAGE_SIZE
  {
    seq(PAGE_SIZE, i requires 0 <= i < PAGE_SIZE => if off <= i < off + |data| then data[i - off] else page[i])
  }

  /** Exactly the bytes at [dst, dst + |data|) of an address space are replaced. */
  ghost predicate WroteUser(s: Mem, t: Mem, root: nat, dst: nat, data: seq<Byte>) {
    && t == s.(bytes := t.bytes) && Within(s, t, root) && t.bytes.Keys == s.bytes.Keys
    && forall a: nat | OwnsFrame(s, root, a / PAGE_SIZE) && FrameOf(s, root, a / PAGE_SIZE) in s.bytes ::
         ByteOf(t, root, a) == if dst <= a < dst + |data| then data[a - dst] else ByteOf(s, root, a)
  }

  lemma WroteNothing(s: Mem, root: nat, dst: nat)
    ensures WroteUser(s, s, root, dst, [])
  {
  }

  lemma WroteNext(s: Mem, t: Mem, u: Mem, root: nat, dst: nat, data: seq<Byte>, more: seq<Byte>)
    requires ValidMem(s) && ValidMem(t)
    requires WroteUser(s, t, root, dst, data) && WroteUser(t, u, root, dst + |data|, more)
    ensures WroteUser(s, u, root, dst, data + more)
  {
  }

  lemma ChunkByte(s: Mem, t: Mem, root: nat, at: nat, data: seq<Byte>, a: nat)
    requires ValidMem(s) && OwnsFrame(s, root, at / PAGE_SIZE) && at % PAGE_SIZE + |data| <= PAGE_SIZE && 0 < |data|
    requires FrameOf(s, root, at / PAGE_SIZE) in s.bytes
    requires var f := FrameOf(s, root, at / PAGE_SIZE);
             t == s.(bytes := s.bytes[f := PutBytes(s.bytes[f], at % PAGE_SIZE, data)])
    requires OwnsFrame(s, root, a / PAGE_SIZE) && FrameOf(s, root, a / PAGE_SIZE) in s.bytes
    ensures ByteOf(t, root, a) == if at <= a < at + |data| then data[a - at] else ByteOf(s, root, a)
  {
    hide ValidMem, Within, Entry, Ppn;
    var v := at / PAGE_SIZE;
    InChunk(at, a, |data|);
    if a / PAGE_SIZE != v {
      FrameWritten(s, t, root, v, PutBytes(s.bytes[FrameOf(s, root, v)], at % PAGE_SIZE, data));
    }
  }

  /** Writing inside one page. */
  lemma ChunkWrites(s: Mem, t: Mem, root: nat, at: nat, data: seq<Byte>)
    requires ValidMem(s) && OwnsFrame(s, root, at / PAGE_SIZE) && at % PAGE_SIZE + |data| <= PAGE_SIZE && 0 < |data|
    requires FrameOf(s, root, at / PAGE_SIZE) in s.bytes
    requires var f := FrameOf(s, root, at / PAGE_SIZE);
             t == s.(bytes := s.bytes[f := PutBytes(s.bytes[f], at % PAGE_SIZE, data)])
    ensures ValidMem(t) && WroteUser(s, t, root, at, data)
  {
    hide ValidMem, Within, Entry, Ppn, ByteOf, PutBytes;
    var v := at / PAGE_SIZE;
    FrameWritten(s, t, root, v, PutBytes(s.bytes[FrameOf(s, root, v)], at % PAGE_SIZE, data));
    forall a: nat | OwnsFrame(s, root, a / PAGE_SIZE) && FrameOf(s, root, a / PAGE_SIZE) in s.bytes
      ensures ByteOf(t, root, a) == if at <= a < at + |data| then data[a - at] else ByteOf(s, root, a)
    {
      ChunkByte(s, t, root, at, data, a);
    }
  }

  lemma InChunk(at: nat, a: nat, len: nat)
    requires at % PAGE_SIZE + len <= PAGE_SIZE && 0 < len
    ensures a / PAGE_SIZE == at / PAGE_SIZE ==>
              && (at <= a < at + len <==> at % PAGE_SIZE <= a % PAGE_SIZE < at % PAGE_SIZE + len)
              && a % PAGE_SIZE - at % PAGE_SIZE == a - at
    ensures a / PAGE_SIZE != at / PAGE_SIZE ==> !(at <= a < at + len)
  {
  }

  /** copy_out: succeeds exactly when user mode may write every byte. The bytes of the address
      space change exactly at [dst, dst + done), and nothing else does; when it fails, `done`
      bytes of whole pages have been written. */
  method CopyOut(mem: Memory, root: nat, dst: nat, src: seq<Byte>) returns (ok: bool, done: nat)
    requires mem.Valid() && Private(mem.State(), root)
    modifies mem
    ensures mem.Valid() && done <= |src| && WroteUser(old(mem.State()), mem.State(), root, dst, src[..done])
    ensures ok <==> forall a: nat | dst <= a < dst + |src| :: WritablePage(old(mem.State()), root, a / PAGE_SIZE)
    ensures ok ==> done == |src|
    ensures !ok ==> done < |src| && !WritablePage(old(mem.State()), root, (dst + done) / PAGE_SIZE)
  {
    hide ValidMem, WritablePage, WroteUser;
    ghost var s := mem.State();
    WroteNothing(s, root, dst);
    done := 0;
    assert src[..0] == [];
    while done < |src|
      invariant 0 <= done <= |src|
      invariant mem.Valid() && WroteUser(s, mem.State(), root, dst, src[..done])
      invariant forall a: nat | dst <= a < dst + done :: WritablePage(s, root, a / PAGE_SIZE)
    {
      var len := CopyOutChunk(mem, root, dst, src, done, s);
      if len == 0 {
        return false, done;
      }
      done := done + len;
    }
    assert src[..done] == src;
    ok := true;
  }

  /** One round of copy_out. */
  method CopyOutChunk(mem: Memory, root: nat, dst: nat, src: seq<Byte>, done: nat, ghost s: Mem) returns (len: nat)
    requires mem.Valid() && ValidMem(s) && Private(s, root) && done < |src|
    requires WroteUser(s, mem.State(), root, dst, src[..done])
    modifies mem
    ensures mem.Valid() && done + len <= |src| && WroteUser(s, mem.State(), root, dst, src[..done + len])
    ensures len == 0 <==> !WritablePage(s, root, (dst + done) / PAGE_SIZE)
    ensures forall a: nat | dst + done <= a < dst + done + len :: a / PAGE_SIZE == (dst + done) / PAGE_SIZE
  {
    hide ValidMem, WroteUser, TableAt, Bottom, PutBytes, IsValid, IsUser, IsWritable, IsLeaf, Flags, Private, Walked;
    var at := dst + done;
    ghost var t := mem.State();
    SameTables(s, t, root, dst, src[..done]);
    assert src[..done + 0] == src[..done];
    if at - at % PAGE_SIZE >= MAX_VADDR {
      return 0;
    }
    assert (at - at % PAGE_SIZE) / PAGE_SIZE == at / PAGE_SIZE < N_VPN;
    MappedIsLeaf(t, root, at / PAGE_SIZE);
    NoPageZero(t);
    var table, k := mem.Walk(root, at - at % PAGE_SIZE, false);
    if table == 0 || !IsValid(mem.tables[table][k]) || !IsUser(mem.tables[table][k])
       || !IsWritable(mem.tables[table][k]) {
      return 0;
    }
    var page := Ppn(mem.tables[table][k]);
    len := PAGE_SIZE - at % PAGE_SIZE;
    if len > |src| - done {
      len := |src| - done;
    }
    ReadableIsThere(t, root, at);
    ghost var chunk := src[done..done + len];
    mem.bytes := mem.bytes[page := PutBytes(mem.bytes[page], at % PAGE_SIZE, src[done..done + len])];
    ChunkWrites(t, mem.State(), root, at, chunk);
    WroteNext(s, t, mem.State(), root, dst, src[..done], chunk);
    assert src[..done] + chunk == src[..done + len];
    forall a: nat | at <= a < at + len ensures a / PAGE_SIZE == at / PAGE_SIZE {
      SamePageAddress(at, a);
    }
  }

  lemma SameTables(s: Mem, t: Mem, root: nat, dst: nat, data: seq<Byte>)
    requires WroteUser(s, t, root, dst, data) && Private(s, root)
    ensures t.tables == s.tables && t.owner == s.owner && IsRoot(t.owner, root) && Private(t, root)
  {
    hide Within, ByteOf, Entry;
    forall w | UserPage(t, root, w) ensures OwnsFrame(t, root, w) {
      assert UserPage(s, root, w);
    }
  }
}
