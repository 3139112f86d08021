/** User address spaces: growing, shrinking and giving back. */
module UserMemory {
  import opened Basics
  import opened PageTable
  import opened VirtualMemory
  import opened FreeTables

  /** The virtual pages at the top of every user address space. */
  const V_TRAMPOLINE := 0x3FF_FFFF
  const V_TRAP_FRAME := 0x3FF_FFFE
  const V_STACK := 0x3FF_FFFC

  ghost function Others(o: Owners, root: nat): Owners {
    map p | p in o && o[p].root != root :: o[p]
  }

  /** What operations on one address space leave alone: the pages of all others, their
      translations and bytes, and the bytes of pages from outside the allocator. No page is
      lost and none appears. */
  ghost predicate Within(s: Mem, t: Mem, root: nat) {
    && Holdings(s) == Holdings(t) && s.tables.Keys == t.tables.Keys
    && Others(s.owner, root) == Others(t.owner, root)
    && (forall r, w: nat | IsRoot(s.owner, r) && r != root && w < N_VPN ::
        Entry(t.tables, r, w) == Entry(s.tables, r, w))
    && (forall p | p in s.bytes && p !in s.free && (p in s.owner ==> s.owner[p].root != root) ::
          p in t.bytes && t.bytes[p] == s.bytes[p])
  }

  /** The exact extent of one address space: the mapped virtual pages, and those among them
      whose frames it owns. */
  ghost predicate Space(s: Mem, root: nat, mapped: set<nat>, data: set<nat>) {
    && IsRoot(s.owner, root)
    && (forall w: nat | w < N_VPN :: Entry(s.tables, root, w) != 0 <==> w in mapped)
    && (forall w | w in mapped :: w < N_VPN)
    && (forall w | w in data :: w in mapped && OwnsFrame(s, root, w))
    && (forall p | p in s.owner && s.owner[p].root == root && s.owner[p].use.Data? :: s.owner[p].use.v in data)
  }

  ghost predicate OwnsFrame(s: Mem, root: nat, w: nat) {
    && w < N_VPN && Ppn(Entry(s.tables, root, w)) in s.owner
    && s.owner[Ppn(Entry(s.tables, root, w))] == Place(root, Data(w))
  }

  lemma SpaceRoot(s: Mem, root: nat, mapped: set<nat>, data: set<nat>)
    requires Space(s, root, mapped, data)
    ensures IsRoot(s.owner, root)
    ensures forall w: nat :: RangeTaken(s.tables, root, w, 1) ==> w in mapped
  {
    hide Entry;
  }

  lemma WithinSelf(s: Mem, root: nat)
    ensures Within(s, s, root)
  {
  }

  lemma OthersSame(o: Owners, n: Owners, root: nat)
    requires Others(o, root) == Others(n, root)
    ensures forall r | r != root :: IsRoot(o, r) <==> IsRoot(n, r)
    ensures forall p | p in o && o[p].root != root :: p in n && n[p] == o[p]
    ensures forall p | p in n && n[p].root != root :: p in o && n[p] == o[p]
  {
    forall p | p in o && o[p].root != root ensures p in n && n[p] == o[p] {
      assert p in Others(o, root);
    }
    forall p | p in n && n[p].root != root ensures p in o && n[p] == o[p] {
      assert p in Others(n, root);
    }
  }

  lemma WithinOn(s: Mem, t: Mem, u: Mem, root: nat)
    requires ValidMem(s) && ValidMem(t) && Within(s, t, root) && Within(t, u, root)
    ensures Within(s, u, root)
  {
    hide Forest, Entry, Distinct;
    OthersSame(s.owner, t.owner, root);
    forall p | p in s.bytes && p !in s.free && (p in s.owner ==> s.owner[p].root != root)
      ensures p in u.bytes && u.bytes[p] == s.bytes[p]
    {
      assert p in Holdings(s) <==> p in Holdings(t);
    }
    hide Others, Holdings;
  }

  lemma UnmappedWithin(s: Mem, t: Mem, root: nat, lo: nat, n: nat)
    requires ValidMem(s) && Unmapped(s, t, root, lo, n)
    ensures Within(s, t, root)
  {
    hide Forest, Entry, Distinct;
    assert Holdings(s) == Holdings(t);
    assert Others(s.owner, root) == Others(t.owner, root);
    hide Holdings, Others, Frames;
  }

  lemma UnmappedSpace(s: Mem, t: Mem, root: nat, lo: nat, n: nat, mapped: set<nat>, data: set<nat>)
    requires ValidMem(s) && Unmapped(s, t, root, lo, n) && Space(s, root, mapped, data)
    ensures Space(t, root, mapped - Range(lo, n), data - Range(lo, n))
  {
    hide ValidMem, Entry, Ppn;
    forall w | w in data - Range(lo, n) ensures OwnsFrame(t, root, w) {
      assert OwnsFrame(s, root, w);
    }
  }

  /** A range of owned pages can be unmapped and freed, one of other mapped pages without
      freeing. */
  lemma SpaceSuits(s: Mem, root: nat, lo: nat, n: nat, mapped: set<nat>, data: set<nat>, free: bool)
    requires ValidMem(s) && Space(s, root, mapped, data) && lo + n <= MAX_VADDR / PAGE_SIZE
    requires Range(lo, n) <= mapped && if free then Range(lo, n) <= data else Range(lo, n) !! data
    ensures RangeSuits(s, root, lo, n, free) && RangeMapped(s.tables, root, lo, n)
  {
    hide ValidMem, Entry, Ppn;
    forall w: nat | lo <= w < lo + n ensures Suits(s, root, w, free) && Entry(s.tables, root, w) != 0 {
      assert w in Range(lo, n);
      assert free ==> OwnsFrame(s, root, w);
    }
  }

  // ------------------------------------------------------------------ adding one page

  lemma MappedWithin(s: Mem, t: Mem, root: nat, lo: nat, n: nat, page: nat, perm: nat)
    requires ValidMem(s) && ValidMem(t) && perm < 1024 && Mapped(s, t, root, lo, n, page, perm)
    ensures Within(s, t, root)
  {
    hide Forest, Entry, LeafEntry, Distinct;
    forall p | p in t.owner && t.owner[p].root != root ensures p in s.owner {}
    assert Others(s.owner, root) == Others(t.owner, root);
    hide Holdings, Others;
  }

  lemma WalkedWithin(s: Mem, t: Mem, root: nat)
    requires ValidMem(s) && ValidMem(t) && Walked(s, t, root)
    ensures Within(s, t, root)
  {
    hide Forest, Entry, Distinct;
    forall p | p in t.owner && t.owner[p].root != root ensures p in s.owner {}
    assert Others(s.owner, root) == Others(t.owner, root);
    hide Holdings, Others;
  }

  lemma WalkedSpace(s: Mem, t: Mem, root: nat, mapped: set<nat>, data: set<nat>)
    requires Walked(s, t, root) && Space(s, root, mapped, data)
    ensures Space(t, root, mapped, data)
  {
    hide Entry, Ppn, Holdings;
    assert IsRoot(t.owner, root);
    forall w | w in data ensures OwnsFrame(t, root, w) {
      assert OwnsFrame(s, root, w);
    }
  }

  lemma MappedSpace(s: Mem, t: Mem, root: nat, v: nat, page: nat, perm: nat, mapped: set<nat>, data: set<nat>)
    requires perm < 1024 && IsLeaf(perm) && Mapped(s, t, root, v, 1, page, perm) && v < N_VPN && v !in mapped
    requires Space(s, root, mapped, data)
    ensures Space(t, root, mapped + {v}, data)
  {
    hide Entry, Ppn, Holdings, LeafEntry, IsLeaf, IsValid, Flags;
    EntryIsLeaf(page, perm);
    assert IsRoot(t.owner, root);
    forall w | w in data ensures OwnsFrame(t, root, w) {
      assert OwnsFrame(s, root, w);
    }
  }

  /** The frame of a mapped page becomes a page of the address space. */
  lemma AdoptFrame(s: Mem, root: nat, v: nat, page: nat, mapped: set<nat>, data: set<nat>)
    requires ValidMem(s) && Space(s, root, mapped, data) && v in mapped
    requires page in s.tables && page !in Holdings(s) && Ppn(Entry(s.tables, root, v)) == page
    ensures var t := s.(owner := s.owner[page := Place(root, Data(v))]);
            ValidMem(t) && Space(t, root, mapped, data + {v}) && Holdings(t) == Holdings(s) + {page}
  {
    hide Forest, Entry, Distinct, Ppn;
    var t := s.(owner := s.owner[page := Place(root, Data(v))]);
    MappedIsLeaf(s, root, v);
    DataIsOwned(s.tables, s.owner, root, v, page);
    forall w | w in data + {v} ensures OwnsFrame(t, root, w) {
      assert w != v ==> OwnsFrame(s, root, w);
    }
    hide IsValid;
  }

  // ------------------------------------------------------------------ growing

  /** A virtual page that just got a zeroed frame of its own. */
  ghost predicate Fresh(t: Mem, root: nat, w: nat, perm: nat)
    requires perm < 1024
  {
    && OwnsFrame(t, root, w)
    && Entry(t.tables, root, w) == LeafEntry(Ppn(Entry(t.tables, root, w)), perm)
    && Ppn(Entry(t.tables, root, w)) in t.bytes && t.bytes[Ppn(Entry(t.tables, root, w))] == ZeroPage()
  }

  /** An address space gained a range of fresh pages; everything in use stays as it was. */
  ghost predicate Grown(s: Mem, t: Mem, root: nat, lo: nat, n: nat, perm: nat)
    requires perm < 1024
  {
    && (forall w: nat | w < N_VPN && !(lo <= w < lo + n) :: Entry(t.tables, root, w) == Entry(s.tables, root, w))
    && (forall w | lo <= w < lo + n :: Fresh(t, root, w, perm))
    && (forall p | p in s.owner :: p in t.owner && t.owner[p] == s.owner[p])
    && (forall p | p in s.bytes && p !in s.free :: p in t.bytes && t.bytes[p] == s.bytes[p])
    && Holdings(s) == Holdings(t)
  }

  lemma GrownNothing(s: Mem, root: nat, lo: nat, perm: nat)
    requires perm < 1024
    ensures Grown(s, s, root, lo, 0, perm)
  {
  }

  lemma GrownNext(s: Mem, t: Mem, u: Mem, root: nat, lo: nat, n: nat, k: nat, perm: nat)
    requires perm < 1024 && ValidMem(s) && ValidMem(t)
    requires Grown(s, t, root, lo, n, perm) && Grown(t, u, root, lo + n, k, perm)
    ensures Grown(s, u, root, lo, n + k, perm)
  {
    hide Forest, Entry, LeafEntry, Ppn, Distinct;
    forall p | p in s.bytes && p !in s.free ensures p in u.bytes && u.bytes[p] == s.bytes[p] {
      assert p in Holdings(s) <==> p in Holdings(t);
    }
    forall w | lo <= w < lo + n ensures Fresh(u, root, w, perm) {
      assert Fresh(t, root, w, perm);
      assert Entry(u.tables, root, w) == Entry(t.tables, root, w);
    }
  }

  /** Taking a page, mapping it and owning it grows the address space by one page. */
  lemma GrownByOne(s: Mem, t: Mem, u: Mem, root: nat, v: nat, page: nat, perm: nat)
    requires ValidMem(s) && perm < 1024 && IsLeaf(perm) && IsRoot(s.owner, root) && v < N_VPN
    requires s.free == [page] + t.free && t.tables == s.tables[page := Empty()]
    requires t.bytes == s.bytes[page := ZeroPage()]
    requires t.owner == s.owner && ValidMem(t) && SameFlat(s.tables, t.tables, s.owner)
    requires ValidMem(u) && Mapped(t, u, root, v, 1, page, perm)
    ensures Grown(s, u.(owner := u.owner[page := Place(root, Data(v))]), root, v, 1, perm)
  {
    hide Forest, Entry, LeafEntry, Ppn, IsLeaf, IsValid, Flags;
    EntryIsLeaf(page, perm);
    Popped(s.free, page, t.free);
    hide Distinct;
    var n := u.(owner := u.owner[page := Place(root, Data(v))]);
    assert page !in t.free && page !in t.owner;
    assert page !in Holdings(t) && page !in u.owner;
    assert Holdings(n) == Holdings(s);
    assert Fresh(n, root, v, perm);
    hide Holdings, Fresh;
  }

  /** A page leaves the free list and is overwritten. */
  ghost predicate Taken(s: Mem, t: Mem, page: nat) {
    && s.free == [page] + t.free && t.owner == s.owner && SameFlat(s.tables, t.tables, s.owner)
    && page in s.tables && t.tables.Keys == s.tables.Keys && t.bytes.Keys == s.bytes.Keys
    && forall p | p in s.bytes && p != page :: t.bytes[p] == s.bytes[p]
  }

  lemma TakenSpace(s: Mem, t: Mem, page: nat, root: nat, mapped: set<nat>, data: set<nat>)
    requires Taken(s, t, page) && Space(s, root, mapped, data)
    ensures Space(t, root, mapped, data)
  {
    hide Entry, Ppn;
    forall w | w in data ensures OwnsFrame(t, root, w) {
      assert OwnsFrame(s, root, w);
    }
  }

  lemma TakenOut(s: Mem, t: Mem, page: nat)
    requires ValidMem(s) && Taken(s, t, page)
    ensures page !in Holdings(t) && Holdings(s) == Holdings(t) + {page} && page in t.tables
    ensures forall p | p in s.bytes && p !in s.free :: p != page && p !in t.free && t.bytes[p] == s.bytes[p]
  {
    hide Forest, SameFlat;
    Popped(s.free, page, t.free);
  }

  /** Taking a page, mapping it and owning it keeps to one address space. */
  lemma AdoptedWithin(s: Mem, t: Mem, u: Mem, root: nat, v: nat, page: nat, perm: nat)
    requires ValidMem(s) && ValidMem(t) && ValidMem(u) && Taken(s, t, page) && perm < 1024
    requires Mapped(t, u, root, v, 1, page, perm)
    ensures page !in Holdings(u) && page in u.tables
    ensures Within(s, u.(owner := u.owner[page := Place(root, Data(v))]), root)
  {
    hide ValidMem, Entry, Mapped, Pages;
    TakenOut(s, t, page);
    MappedWithin(t, u, root, v, 1, page, perm);
    var n := u.(owner := u.owner[page := Place(root, Data(v))]);
    assert page !in u.owner;
    assert Others(n.owner, root) == Others(u.owner, root);
    hide Others;
  }

  /** A page that was taken and could not be mapped goes back. */
  lemma ReturnedSpace(s: Mem, t: Mem, u: Mem, root: nat, page: nat, mapped: set<nat>, data: set<nat>)
    requires Taken(s, t, page) && Walked(t, u, root) && Space(s, root, mapped, data)
    ensures Space(u.(free := [page] + u.free), root, mapped, data)
  {
    hide Taken, Walked, Entry, Ppn;
    TakenSpace(s, t, page, root, mapped, data);
    WalkedSpace(t, u, root, mapped, data);
    var n := u.(free := [page] + u.free);
    forall w | w in data ensures OwnsFrame(n, root, w) {
      assert OwnsFrame(u, root, w);
    }
  }

  lemma ReturnedWithin(s: Mem, t: Mem, u: Mem, root: nat, page: nat)
    requires ValidMem(s) && ValidMem(t) && ValidMem(u) && Taken(s, t, page) && Walked(t, u, root)
    ensures page in u.tables && page !in u.owner && page !in u.free
    ensures Within(s, u.(free := [page] + u.free), root)
    ensures forall p | p in s.owner :: p in u.owner && u.owner[p] == s.owner[p]
  {
    hide Forest, Entry;
    Popped(s.free, page, t.free);
    Popped([page] + u.free, page, u.free);
    hide Distinct;
    assert page !in Holdings(t) && page !in Holdings(u);
    WalkedWithin(t, u, root);
    assert Holdings(u.(free := [page] + u.free)) == Holdings(s);
    hide Others, Holdings;
    forall r, w: nat | IsRoot(s.owner, r) && r != root && w < N_VPN
      ensures Entry(u.tables, r, w) == Entry(s.tables, r, w)
    {
      assert Entry(t.tables, r, w) == Entry(s.tables, r, w);
    }
  }

  /** A page leaves the free list and is zeroed. */
  ghost predicate Zeroed(s: Mem, t: Mem, page: nat) {
    && s.free == [page] + t.free && page in s.tables && t.owner == s.owner && SameFlat(s.tables, t.tables, s.owner)
    && t.tables == s.tables[page := Empty()] && t.bytes == s.bytes[page := ZeroPage()]
  }

  lemma ZeroedIsTaken(s: Mem, t: Mem, page: nat)
    requires ValidMem(s) && Zeroed(s, t, page)
    ensures Taken(s, t, page)
  {
  }

  lemma GivenBack(s: Mem, t: Mem, u: Mem, root: nat, v: nat, page: nat, perm: nat, mapped: set<nat>, data: set<nat>)
    requires ValidMem(s) && ValidMem(t) && ValidMem(u) && Taken(s, t, page) && Walked(t, u, root)
    requires Space(s, root, mapped, data) && perm < 1024
    ensures page in u.tables && page !in u.owner && page !in u.free
    ensures var n := u.(free := [page] + u.free);
            Space(n, root, mapped, data) && Within(s, n, root) && Grown(s, n, root, v, 0, perm)
  {
    hide ValidMem, Entry;
    ReturnedSpace(s, t, u, root, page, mapped, data);
    ReturnedWithin(s, t, u, root, page);
    Popped(s.free, page, t.free);
    hide Distinct;
    var n := u.(free := [page] + u.free);
    hide Space, Holdings;
    assert Holdings(n) == Holdings(s);
    assert IsRoot(s.owner, root) by { assert Space(s, root, mapped, data); }
    assert page in s.free;
    forall p | p in s.bytes && p !in s.free ensures p in n.bytes && n.bytes[p] == s.bytes[p] {
      assert p != page && p !in t.free;
    }
  }

  /** A page that was taken and mapped belongs to the address space. */
  lemma Adopted(s: Mem, t: Mem, u: Mem, root: nat, v: nat, page: nat, perm: nat, mapped: set<nat>, data: set<nat>)
    requires ValidMem(s) && ValidMem(t) && ValidMem(u) && Taken(s, t, page)
    requires perm < 1024 && IsLeaf(perm) && Mapped(t, u, root, v, 1, page, perm)
    requires Space(s, root, mapped, data) && RangeEmpty(t.tables, root, v, 1)
    ensures v !in mapped && v < MAX_VADDR / PAGE_SIZE && IsRoot(s.owner, root)
    ensures var n := u.(owner := u.owner[page := Place(root, Data(v))]);
            ValidMem(n) && Space(n, root, mapped + {v}, data + {v}) && Within(s, n, root)
  {
    hide ValidMem, Entry, Mapped, Within, Grown, IsLeaf, LeafEntry, SameFlat, Holdings, Ppn;
    TakenSpace(s, t, page, root, mapped, data);
    assert IsRoot(s.owner, root) && v !in mapped;
    AdoptedWithin(s, t, u, root, v, page, perm);
    MappedSpace(t, u, root, v, page, perm, mapped, data);
    MappedEntry(t, u, root, v, 1, page, perm, v);
    EntryIsLeaf(page, perm);
    hide Space;
    AdoptFrame(u, root, v, page, mapped + {v}, data);
  }

  /** The space has one page more, or is as before. */
  ghost predicate PageTried(s: Mem, t: Mem, root: nat, v: nat, perm: nat, mapped: set<nat>, data: set<nat>, done: bool)
    requires perm < 1024
  {
    && Within(s, t, root) && Grown(s, t, root, v, if done then 1 else 0, perm)
    && if done then Space(t, root, mapped + {v}, data + {v}) else Space(t, root, mapped, data)
  }

  /** One round of uvm_alloc: a zeroed page is taken and mapped, or given back. */
  method AddPage(mem: Memory, root: nat, va: nat, perm: nat, ghost mapped: set<nat>, ghost data: set<nat>)
      returns (r: Outcome)
    requires mem.Valid() && Space(mem.State(), root, mapped, data)
    requires perm < 1024 && IsLeaf(perm) && va % PAGE_SIZE == 0 && va + PAGE_SIZE < WORD
    modifies mem
    ensures r == Done ==> va / PAGE_SIZE !in mapped && va < MAX_VADDR
    ensures r != Panicked ==>
              && mem.Valid()
              && PageTried(old(mem.State()), mem.State(), root, va / PAGE_SIZE, perm, mapped, data, r == Done)
    ensures r == Panicked ==> va / PAGE_SIZE in mapped && |old(mem.free)| > 0
    ensures r == Done ==> |mem.free| < |old(mem.free)| <= |mem.free| + 3
    ensures r == Failed ==> va >= MAX_VADDR || |old(mem.free)| < 3
  {
    hide ValidMem, Space, Grown, Within, Mapped, Walked, SameFlat, IsLeaf, RangeTaken, RangeEmpty, Missing;
    ghost var s := mem.State();
    ghost var v := va / PAGE_SIZE;
    assert Span(va, PAGE_SIZE) == 1;
    hide Span;
    var page := mem.PmZalloc();
    ghost var t := mem.State();
    if page == 0 {
      GrownNothing(s, root, v, perm);
      WithinSelf(s, root);
      return Failed;
    }
    ZeroedIsTaken(s, t, page);
    TakenSpace(s, t, page, root, mapped, data);
    SpaceRoot(t, root, mapped, data);
    r := mem.MapPages(root, va, page * PAGE_SIZE, PAGE_SIZE, perm);
    assert page * PAGE_SIZE / PAGE_SIZE == page;
    ghost var u := mem.State();
    if r == Failed {
      GivenBack(s, t, u, root, v, page, perm, mapped, data);
      mem.PmFree(page);
    } else if r == Done {
      mem.owner := mem.owner[page := Place(root, Data(v))];
      Adopted(s, t, u, root, v, page, perm, mapped, data);
      GrownByOne(s, t, u, root, v, page, perm);
    }
  }

  // ------------------------------------------------------------------ address spaces of processes

  function PageCount(size: nat): nat { (size + PAGE_SIZE - 1) / PAGE_SIZE }

  /** Just enough pages for some bytes. */
  lemma PageCountIs(size: nat)
    ensures RoundUp(size) % PAGE_SIZE == 0 && size <= RoundUp(size) < size + PAGE_SIZE
    ensures PageCount(size) == 0 <==> size == 0
    ensures size > 0 ==> (PageCount(size) - 1) * PAGE_SIZE < size <= PageCount(size) * PAGE_SIZE
  {
  }

  function RoundUp(size: nat): nat { PageCount(size) * PAGE_SIZE }

  /** A complete user address space: `n` pages from address 0 on and the stack are its own;
      the trap frame and the trampoline are mapped but not its own. */
  ghost predicate User(s: Mem, root: nat, n: nat) {
    && n <= V_STACK
    && Space(s, root, Range(0, n) + {V_STACK, V_TRAP_FRAME, V_TRAMPOLINE}, Range(0, n) + {V_STACK})
  }

  /** Removing fresh pages again restores the address space. */
  lemma GrownUndone(s: Mem, t: Mem, u: Mem, root: nat, lo: nat, n: nat, perm: nat)
    requires perm < 1024 && ValidMem(s) && ValidMem(t) && IsRoot(s.owner, root) && IsRoot(t.owner, root)
    requires Grown(s, t, root, lo, n, perm) && Unmapped(t, u, root, lo, n)
    requires RangeEmpty(s.tables, root, lo, n)
    ensures Grown(s, u, root, lo, 0, perm)
  {
    hide Forest, Entry, LeafEntry, Ppn, Distinct;
    forall p | p in s.owner ensures p in u.owner && u.owner[p] == s.owner[p] {
      if p in Frames(t.owner, root, lo, n) {
        NoFrame(s, root, s.owner[p].use.v);
      }
    }
    assert Holdings(u) == Holdings(t);
    hide Holdings, Fresh, Frames;
  }

  /** uvm_dealloc: shrinks an address space to a number of whole pages. */
  method UvmDealloc(mem: Memory, root: nat, oldSize: nat, newSize: nat) returns (size: nat)
    requires mem.Valid() && User(mem.State(), root, PageCount(oldSize))
    modifies mem
    ensures mem.Valid() && Within(old(mem.State()), mem.State(), root)
    ensures size == if newSize >= oldSize then oldSize else RoundUp(newSize)
    ensures User(mem.State(), root, PageCount(size))
    ensures newSize >= oldSize ==> mem.State() == old(mem.State())
    ensures newSize < oldSize ==>
              Unmapped(old(mem.State()), mem.State(), root, PageCount(newSize), PageCount(oldSize) - PageCount(newSize))
  {
    hide ValidMem, Space, Within, Unmapped;
    ghost var s := mem.State();
    if newSize >= oldSize {
      WithinSelf(s, root);
      return oldSize;
    }
    ghost var n, k := PageCount(newSize), PageCount(oldSize) - PageCount(newSize);
    ghost var mapped := Range(0, n + k) + {V_STACK, V_TRAP_FRAME, V_TRAMPOLINE};
    ghost var data := Range(0, n + k) + {V_STACK};
    SpaceRoot(s, root, mapped, data);
    SpaceSuits(s, root, n, k, mapped, data, true);
    RoundedSpan(newSize, oldSize);
    hide Span, RangeMapped, RangeSuits;
    var _ := mem.UnmapPages(root, RoundUp(newSize), RoundUp(oldSize) - RoundUp(newSize), true);
    UnmappedWithin(s, mem.State(), root, n, k);
    UnmappedSpace(s, mem.State(), root, n, k, mapped, data);
    assert mapped - Range(n, k) == Range(0, n) + {V_STACK, V_TRAP_FRAME, V_TRAMPOLINE};
    assert data - Range(n, k) == Range(0, n) + {V_STACK};
    size := RoundUp(newSize);
  }

  lemma RoundedSpan(lo: nat, hi: nat)
    requires lo <= hi && PageCount(hi) <= V_STACK
    ensures PageCount(lo) <= PageCount(hi)
    ensures Aligned(RoundUp(lo), RoundUp(hi) - RoundUp(lo)) && RoundUp(hi) < WORD
    ensures RoundUp(lo) / PAGE_SIZE == PageCount(lo) && PageCount(RoundUp(lo)) == PageCount(lo)
    ensures Span(RoundUp(lo), RoundUp(hi) - RoundUp(lo)) == PageCount(hi) - PageCount(lo)
  {
  }

  lemma Halves(k: nat, r: nat)
    requires r < 2
    ensures (2 * k + r) / 2 == k && (2 * k + r) % 2 == r
  {
  }

  lemma Eighths(k: nat, r: nat)
    requires r < 8
    ensures (8 * k + r) / 8 == k && (8 * k + r) % 8 == r
  {
  }

  /** Reading the user bit and the three permission bits out of a flag word. */
  lemma FlagBits(q: nat, user: nat, rwx: nat, v: nat)
    requires user < 2 && rwx < 8 && v < 2
    ensures var e := 32 * q + 16 * user + 2 * rwx + v;
            e / 2 % 8 == rwx && e / 16 % 2 == user && e / 2 % 2 == rwx % 2 && e / 4 % 2 == rwx / 2 % 2
  {
    var e := 32 * q + 16 * user + 2 * rwx + v;
    Halves(16 * q + 8 * user + rwx, v);
    Eighths(2 * q + user, rwx);
    Halves(q, user);
    Halves(8 * q + 4 * user + rwx / 2, rwx % 2);
    assert e / 16 == e / 2 / 8;
    assert e / 4 == e / 2 / 2;
    Halves(4 * q + 2 * user + rwx / 2 / 2, rwx / 2 % 2);
  }

  /** Readable, for user mode, and whatever else is asked for. */
  function UserPerm(extra: nat): nat {
    extra + (if extra / 2 % 2 == 0 then 2 else 0) + if extra / 16 % 2 == 0 then 16 else 0
  }

  lemma UserPermBits(extra: nat)
    ensures UserPerm(extra) == BitOr(BitOr(0x02, 0x10), extra)
  {
    assert BitOr(0x02, 0x10) == 0x12;
    assert forall x: nat :: BitOr(0, x) == x;
    hide BitOr;
    var a := extra / 2;
    var b := a / 2;
    var c := b / 2;
    OrNext(18, extra);
    OrNext(9, a);
    OrNext(4, b);
    OrNext(2, c);
    OrNext(1, c / 2);
    assert extra / 16 == c / 2;
  }

  lemma UserPermIs(extra: nat)
    requires extra < 1024
    ensures UserPerm(extra) < 1024 && IsLeaf(UserPerm(extra)) && IsUser(UserPerm(extra))
    ensures UserPerm(extra) == BitOr(BitOr(0x02, 0x10), extra)
  {
    UserPermBits(extra);
    var h, v := extra / 2, extra % 2;
    var k, rwx := h / 8, h % 8;
    var q, user := k / 2, k % 2;
    assert extra == 32 * q + 16 * user + 2 * rwx + v;
    FlagBits(q, user, rwx, v);
    var odd := if rwx % 2 == 0 then rwx + 1 else rwx;
    FlagBits(q, 1, odd, v);
    assert UserPerm(extra) == 32 * q + 16 * 1 + 2 * odd + v;
  }

  lemma UserGrows(s: Mem, root: nat, n: nat)
    requires n < V_STACK
    requires Space(s, root, Range(0, n) + {V_STACK, V_TRAP_FRAME, V_TRAMPOLINE} + {n}, Range(0, n) + {V_STACK} + {n})
    ensures User(s, root, n + 1)
  {
    hide Space;
    assert Range(0, n) + {V_STACK, V_TRAP_FRAME, V_TRAMPOLINE} + {n}
        == Range(0, n + 1) + {V_STACK, V_TRAP_FRAME, V_TRAMPOLINE};
    assert Range(0, n) + {V_STACK} + {n} == Range(0, n + 1) + {V_STACK};
  }

  /** The pages above the size are not mapped, up to the stack. */
  lemma UserIsEmptyAbove(s: Mem, root: nat, n: nat, k: nat)
    requires User(s, root, n) && n + k <= V_STACK
    ensures RangeEmpty(s.tables, root, n, k) && IsRoot(s.owner, root)
  {
    hide Entry;
  }

  /** uvm_alloc gives up: the pages added so far go back. */
  method UndoAlloc(mem: Memory, root: nat, a: nat, oldSize: nat, ghost s: Mem, ghost k: nat, ghost perm: nat)
    requires mem.Valid() && ValidMem(s) && perm < 1024 && a == RoundUp(oldSize) + k * PAGE_SIZE
    requires User(s, root, PageCount(oldSize)) && User(mem.State(), root, PageCount(oldSize) + k)
    requires Within(s, mem.State(), root) && Grown(s, mem.State(), root, PageCount(oldSize), k, perm)
    modifies mem
    ensures mem.Valid() && Within(s, mem.State(), root) && User(mem.State(), root, PageCount(oldSize))
    ensures Grown(s, mem.State(), root, PageCount(oldSize), 0, perm)
  {
    hide ValidMem, Space, Within, Grown, Unmapped, RangeEmpty;
    ghost var lo := PageCount(oldSize);
    ghost var t := mem.State();
    UserIsEmptyAbove(s, root, lo, k);
    UserIsEmptyAbove(t, root, lo + k, 0);
    assert PageCount(a) == lo + k && PageCount(RoundUp(oldSize)) == lo;
    var _ := UvmDealloc(mem, root, a, RoundUp(oldSize));
    hide PageCount;
    WithinOn(s, t, mem.State(), root);
    if k > 0 {
      GrownUndone(s, t, mem.State(), root, lo, k, perm);
    }
  }

  /** The loop of uvm_alloc, from page `lo` on. */
  method AddPages(mem: Memory, root: nat, oldSize: nat, newSize: nat, perm: nat) returns (r: Outcome)
    requires mem.Valid() && User(mem.State(), root, PageCount(oldSize)) && oldSize < newSize
    requires perm < 1024 && IsLeaf(perm)
    modifies mem
    ensures r == Panicked ==> PageCount(newSize) > V_STACK && |old(mem.free)| > V_STACK - PageCount(oldSize)
    ensures r != Panicked ==> mem.Valid() && Within(old(mem.State()), mem.State(), root)
    ensures r == Done ==> User(mem.State(), root, PageCount(newSize))
    ensures r == Done ==>
              var n := PageCount(newSize) - PageCount(oldSize);
              Grown(old(mem.State()), mem.State(), root, PageCount(oldSize), n, perm)
    ensures r == Failed ==> User(mem.State(), root, PageCount(oldSize))
    ensures r == Failed ==> Grown(old(mem.State()), mem.State(), root, PageCount(oldSize), 0, perm)
    ensures r == Done ==>
              var n := PageCount(newSize) - PageCount(oldSize); |mem.free| + n <= |old(mem.free)| <= |mem.free| + 3 * n
    ensures r == Failed ==> |old(mem.free)| < 3 * (PageCount(newSize) - PageCount(oldSize))
  {
    hide ValidMem, Space, Within, Grown, IsLeaf;
    ghost var s := mem.State();
    WithinSelf(s, root);
    ghost var lo, k := PageCount(oldSize), 0;
    GrownNothing(s, root, lo, perm);
    var a := RoundUp(oldSize);
    while a < newSize
      invariant a == RoundUp(oldSize) + k * PAGE_SIZE && lo + k <= PageCount(newSize)
      invariant mem.Valid() && Within(s, mem.State(), root) && User(mem.State(), root, lo + k)
      invariant Grown(s, mem.State(), root, lo, k, perm)
      invariant |mem.free| + k <= |s.free| <= |mem.free| + 3 * k
    {
      ghost var t := mem.State();
      ghost var n := lo + k;
      assert a / PAGE_SIZE == n;
      r := AddPage(mem, root, a, perm, Range(0, n) + {V_STACK, V_TRAP_FRAME, V_TRAMPOLINE}, Range(0, n) + {V_STACK});
      if r == Panicked {
        return;
      }
      WithinOn(s, t, mem.State(), root);
      GrownNext(s, t, mem.State(), root, lo, k, if r == Done then 1 else 0, perm);
      if r == Failed {
        UndoAlloc(mem, root, a, oldSize, s, k, perm);
        return;
      }
      UserGrows(mem.State(), root, n);
      a := a + PAGE_SIZE;
      k := k + 1;
    }
    r := Done;
  }

  /** uvm_alloc: grows an address space by zeroed pages, or fails (result 0) and leaves the
      address space and all bytes in use as they were. It does not fail as long as there are
      three free pages for every page to add: the page and at most two tables. It panics only
      when it gets to the stack, with a page for every address below it. */
  method UvmAlloc(mem: Memory, root: nat, oldSize: nat, newSize: nat, extra: nat) returns (r: Outcome, size: nat)
    requires mem.Valid() && User(mem.State(), root, PageCount(oldSize)) && extra < 1024
    modifies mem
    ensures r == Panicked ==> PageCount(newSize) > V_STACK && |old(mem.free)| > V_STACK - PageCount(oldSize)
    ensures r != Panicked ==> mem.Valid() && Within(old(mem.State()), mem.State(), root)
    ensures newSize <= oldSize ==> r == Done && size == oldSize && mem.State() == old(mem.State())
    ensures UserPerm(extra) < 1024
    ensures r == Done && newSize > oldSize ==> size == newSize
    ensures r == Done && newSize > oldSize ==> Grown(old(mem.State()), mem.State(), root,
              PageCount(oldSize), PageCount(newSize) - PageCount(oldSize), UserPerm(extra))
    ensures r == Done ==> User(mem.State(), root, PageCount(size))
    ensures r == Failed ==> size == 0 && User(mem.State(), root, PageCount(oldSize))
    ensures r == Failed ==> Grown(old(mem.State()), mem.State(), root, PageCount(oldSize), 0, UserPerm(extra))
    ensures r == Done && newSize > oldSize ==>
              var n := PageCount(newSize) - PageCount(oldSize); |mem.free| + n <= |old(mem.free)| <= |mem.free| + 3 * n
    ensures r == Failed ==> |old(mem.free)| < 3 * (PageCount(newSize) - PageCount(oldSize))
  {
    hide ValidMem, User, Within, Grown, UserPerm, IsLeaf, IsUser, PageCount;
    UserPermIs(extra);
    if newSize <= oldSize {
      WithinSelf(mem.State(), root);
      return Done, oldSize;
    }
    r := AddPages(mem, root, oldSize, newSize, UserPerm(extra));
    size := if r == Done then newSize else 0;
  }

  // ------------------------------------------------------------------ making an address space

  const READ_WRITE := 6
  const READ_EXECUTE := 10
  const USER_READ_WRITE := 22

  /** A free page that was zeroed becomes the root of an empty address space. */
  lemma NewSpace(s: Mem, t: Mem, root: nat)
    requires ValidMem(s) && ValidMem(t) && Zeroed(s, t, root)
    ensures var n := t.(owner := t.owner[root := Place(root, Root)]);
            ValidMem(n) && Space(n, root, {}, {}) && Within(s, n, root) && Missing(n.tables, root, V_TRAMPOLINE) == 2
  {
    hide Forest, Entry, TableAt;
    var n := t.(owner := t.owner[root := Place(root, Root)]);
    Popped(s.free, root, t.free);
    assert root !in s.owner && root !in t.free;
    hide Distinct;
    RootIsNew(s.tables, s.owner, root);
    EmptyRoot(t.tables, root);
    forall p | p in s.owner ensures s.owner[p].root != root { RootOwned(s, p); }
    assert Holdings(n) == Holdings(s);
    assert Others(n.owner, root) == Others(s.owner, root);
    hide Holdings, Others;
  }

  lemma RootOwned(s: Mem, p: nat)
    requires ValidMem(s) && p in s.owner
    ensures IsRoot(s.owner, s.owner[p].root)
  {
  }

  /** Maps one page that the address space does not own. */
  method MapShared(mem: Memory, root: nat, v: nat, page: nat, perm: nat, ghost mapped: set<nat>, ghost data: set<nat>)
      returns (r: Outcome)
    requires mem.Valid() && Space(mem.State(), root, mapped, data) && v < MAX_VADDR / PAGE_SIZE && v !in mapped
    requires perm < 1024 && IsLeaf(perm)
    modifies mem
    ensures r != Panicked && mem.Valid() && Within(old(mem.State()), mem.State(), root)
    ensures r == Done ==> Space(mem.State(), root, mapped + {v}, data)
    ensures r == Done ==> Mapped(old(mem.State()), mem.State(), root, v, 1, page, perm)
    ensures r == Failed ==> Space(mem.State(), root, mapped, data) && mem.free == []
    ensures r == Done ==> |old(mem.free)| == |mem.free| + old(Missing(mem.tables, root, v))
    ensures r == Failed ==> |old(mem.free)| < old(Missing(mem.tables, root, v))
  {
    hide ValidMem, Space, Within, Mapped, Walked, RangeTaken, RangeEmpty, IsLeaf, Missing;
    ghost var s := mem.State();
    SpaceRoot(s, root, mapped, data);
    assert Span(v * PAGE_SIZE, PAGE_SIZE) == 1;
    assert v * PAGE_SIZE / PAGE_SIZE == v && page * PAGE_SIZE / PAGE_SIZE == page;
    hide Span;
    r := mem.MapPages(root, v * PAGE_SIZE, page * PAGE_SIZE, PAGE_SIZE, perm);
    if r == Done {
      MappedWithin(s, mem.State(), root, v, 1, page, perm);
      MappedSpace(s, mem.State(), root, v, page, perm, mapped, data);
    } else {
      WalkedWithin(s, mem.State(), root);
      WalkedSpace(s, mem.State(), root, mapped, data);
    }
  }

  lemma TakenAsIs(s: Mem, t: Mem, page: nat)
    requires s.free == [page] + t.free && t == s.(free := t.free) && page in s.tables
    ensures Taken(s, t, page)
  {
  }

  lemma MappedElsewhere(s: Mem, t: Mem, root: nat, v: nat, page: nat, perm: nat)
    requires perm < 1024 && Mapped(s, t, root, v, 1, page, perm) && IsRoot(s.owner, root)
    ensures forall w: nat | w < N_VPN && w != v :: Entry(t.tables, root, w) == Entry(s.tables, root, w)
  {
  }

  ghost predicate StackAdded(m: Tables, n: Tables, root: nat) {
    && IsUser(Entry(n, root, V_STACK)) && IsWritable(Entry(n, root, V_STACK)) && Flags(Entry(n, root, V_STACK)) == 0x17
    && forall w: nat | w < N_VPN && w != V_STACK :: Entry(n, root, w) == Entry(m, root, w)
  }

  /** The space has a stack page more, or is as before. */
  ghost predicate StackTried(s: Mem, t: Mem, root: nat, mapped: set<nat>, data: set<nat>, done: bool) {
    && Within(s, t, root)
    && if done then Space(t, root, mapped + {V_STACK}, data + {V_STACK}) && StackAdded(s.tables, t.tables, root)
       else Space(t, root, mapped, data)
  }

  /** The stack page of get_user_page_table: taken, mapped, or given back. */
  method MapStack(mem: Memory, root: nat, ghost mapped: set<nat>, ghost data: set<nat>) returns (r: Outcome)
    requires mem.Valid() && Space(mem.State(), root, mapped, data) && V_STACK !in mapped
    modifies mem
    ensures r != Panicked && mem.Valid() && StackTried(old(mem.State()), mem.State(), root, mapped, data, r == Done)
    ensures old(Missing(mem.tables, root, V_STACK)) == 0 ==>
              (r == Failed <==> old(mem.free) == []) && (r == Failed ==> mem.free == [])
    ensures old(Missing(mem.tables, root, V_STACK)) == 0 && r == Done ==> |old(mem.free)| == |mem.free| + 1
  {
    hide ValidMem, Space, Within, Mapped, Walked, RangeTaken, RangeEmpty, SameFlat, Missing;
    ghost var s := mem.State();
    SpaceRoot(s, root, mapped, data);
    var page := mem.PmAlloc();
    ghost var t := mem.State();
    if page == 0 {
      WithinSelf(s, root);
      return Failed;
    }
    TakenAsIs(s, t, page);
    TakenSpace(s, t, page, root, mapped, data);
    SpaceRoot(t, root, mapped, data);
    assert page * PAGE_SIZE / PAGE_SIZE == page && Span(V_STACK * PAGE_SIZE, PAGE_SIZE) == 1;
    hide Span;
    r := mem.MapPages(root, V_STACK * PAGE_SIZE, page * PAGE_SIZE, PAGE_SIZE, USER_READ_WRITE);
    ghost var u := mem.State();
    if r == Failed {
      GivenBack(s, t, u, root, V_STACK, page, USER_READ_WRITE, mapped, data);
      mem.PmFree(page);
    } else {
      mem.owner := mem.owner[page := Place(root, Data(V_STACK))];
      Adopted(s, t, u, root, V_STACK, page, USER_READ_WRITE, mapped, data);
      MappedElsewhere(t, u, root, V_STACK, page, USER_READ_WRITE);
      MappedEntry(t, u, root, V_STACK, 1, page, USER_READ_WRITE, V_STACK);
      FlagBits(32 * page, 1, 3, 1);
      QuotientIs(LeafEntry(page, USER_READ_WRITE), 1024, page, 0x17);
    }
  }

  /** A tree can be forgotten as a whole without disturbing the others. */
  lemma TreeForgotten(s: Mem, root: nat)
    requires ValidMem(s) && IsRoot(s.owner, root)
    ensures Forest(s.tables, Others(s.owner, root)) && root !in s.free && root in s.tables
  {
    RootOwned(s, root);
    var o := Others(s.owner, root);
    hide TableAt, Entry, GoodEntries;
    assert PlacedAt(s.tables, s.owner, root);
    forall p | p in o ensures PlacedAt(s.tables, o, p) {
      assert PlacedAt(s.tables, s.owner, p);
    }
    hide PlacedAt;
    forall r, u | IsRoot(o, r) && IsTable(u) && TableAt(s.tables, r, u) != 0
      ensures TableAt(s.tables, r, u) in o && o[TableAt(s.tables, r, u)] == Place(r, u)
    {
      assert IsRoot(s.owner, r);
    }
  }

  /** The error exits of get_user_page_table end like this: only the root page is freed. */
  method DropRoot(mem: Memory, root: nat)
    requires mem.Valid() && IsRoot(mem.owner, root)
    modifies mem
    ensures mem.Valid() && mem.owner == Others(old(mem.owner), root)
    ensures mem.free == [root] + old(mem.free) && mem.tables == old(mem.tables) && mem.bytes == old(mem.bytes)
  {
    hide Forest;
    TreeForgotten(mem.State(), root);
    mem.owner := Others(mem.owner, root);
    mem.PmFree(root);
  }

  /** Unmapping a page whose frame the space does not own frees nothing. */
  lemma StillNone(s: Mem, t: Mem, root: nat, v: nat, mapped: set<nat>, data: set<nat>)
    requires Space(s, root, mapped, data) && v !in data && Unmapped(s, t, root, v, 1) && s.free == []
    ensures t.free == []
  {
    hide Entry;
    assert Frames(s.owner, root, v, 1) == {};
    SomePage(t.free);
  }

  lemma SomePage(free: seq<nat>)
    ensures free == [] || Pages(free) != {}
  {
    if free != [] {
      assert free[0] in Pages(free);
    }
  }

  /** Unmaps one mapped page without freeing its frame, or with. */
  method UnmapOne(mem: Memory, root: nat, v: nat, freeIt: bool, ghost mapped: set<nat>, ghost data: set<nat>)
    requires mem.Valid() && Space(mem.State(), root, mapped, data) && v < MAX_VADDR / PAGE_SIZE
    requires v in mapped && (freeIt <==> v in data)
    modifies mem
    ensures mem.Valid() && Within(old(mem.State()), mem.State(), root)
    ensures Space(mem.State(), root, mapped - {v}, data - {v})
    ensures !freeIt && old(mem.free) == [] ==> mem.free == []
  {
    hide ValidMem, Space, Within, Unmapped;
    ghost var s := mem.State();
    SpaceRoot(s, root, mapped, data);
    SpaceSuits(s, root, v, 1, mapped, data, freeIt);
    assert Span(v * PAGE_SIZE, PAGE_SIZE) == 1 && v * PAGE_SIZE / PAGE_SIZE == v;
    hide Span, RangeMapped, RangeSuits;
    var _ := mem.UnmapPages(root, v * PAGE_SIZE, PAGE_SIZE, freeIt);
    UnmappedWithin(s, mem.State(), root, v, 1);
    UnmappedSpace(s, mem.State(), root, v, 1, mapped, data);
    if !freeIt && s.free == [] {
      StillNone(s, mem.State(), root, v, mapped, data);
    }
    assert mapped - Range(v, 1) == mapped - {v} && data - Range(v, 1) == data - {v};
  }

  /** All tables of an empty address space are free: nothing of it is left. */
  lemma FreedWithin(s: Mem, t: Mem, root: nat)
    requires ValidMem(s) && Space(s, root, {}, {}) && Freed(s, t, root, Root) && SameFlat(s.tables, t.tables, s.owner)
    ensures Within(s, t, root) && t.owner == Others(s.owner, root)
  {
    hide Forest, Entry, Distinct;
    forall p | p in s.owner && s.owner[p].root == root ensures p in Subtree(s.owner, root, Root) {
      UseIsKnown(s, p);
    }
    assert t.owner == Others(s.owner, root);
    assert Others(t.owner, root) == Others(s.owner, root);
    assert Holdings(t) == Holdings(s);
    hide Others, Holdings, Subtree;
  }

  lemma UseIsKnown(s: Mem, p: nat)
    requires ValidMem(s) && p in s.owner
    ensures IsTable(s.owner[p].use) || s.owner[p].use.Data?
  {
  }

  /** uvm_free: frees the remaining pages and all tables. */
  method UvmFree(mem: Memory, root: nat, size: nat)
    requires mem.Valid() && PageCount(size) <= V_STACK
    requires Space(mem.State(), root, Range(0, PageCount(size)), Range(0, PageCount(size)))
    modifies mem
    ensures mem.Valid() && Within(old(mem.State()), mem.State(), root)
    ensures mem.owner == Others(old(mem.owner), root)
  {
    hide ValidMem, Space, Within, Unmapped, Freed, SameFlat, HasLeaf;
    ghost var s := mem.State();
    ghost var n := PageCount(size);
    WithinSelf(s, root);
    if size > 0 {
      SpaceRoot(s, root, Range(0, n), Range(0, n));
      SpaceSuits(s, root, 0, n, Range(0, n), Range(0, n), true);
      RoundedSpan(0, size);
      hide Span, RangeMapped, RangeSuits;
      var _ := mem.UnmapPages(root, 0, RoundUp(size), true);
      UnmappedWithin(s, mem.State(), root, 0, n);
      UnmappedSpace(s, mem.State(), root, 0, n, Range(0, n), Range(0, n));
    }
    assert Range(0, n) - Range(0, n) == {} && Range(0, 0) == {};
    ghost var t := mem.State();
    SpaceRoot(t, root, {}, {});
    NothingMapped(t, root);
    var _ := FreePageTable(mem, root, root, Root, 0, 0);
    FreedWithin(t, mem.State(), root);
    WithinOn(s, t, mem.State(), root);
    WithinOthers(s, t, root);
  }

  lemma NothingMapped(s: Mem, root: nat)
    requires Space(s, root, {}, {})
    ensures !HasLeaf(s.tables, root, Root)
  {
  }

  lemma WithinOthers(s: Mem, t: Mem, root: nat)
    requires Within(s, t, root)
    ensures Others(s.owner, root) == Others(t.owner, root)
  {
  }

  /** What is left when get_user_page_table fails: no page of the new tree is owned, other
      address spaces are as before, and no page becomes free that was not. */
  ghost predicate Abandoned(s: Mem, t: Mem) {
    && t.owner == s.owner && Pages(t.free) <= Pages(s.free)
    && SameFlat(s.tables, t.tables, s.owner)
  }

  lemma NothingAbandoned(s: Mem)
    ensures Abandoned(s, s)
  {
  }

  /** No owner belongs to a tree whose root is still free. */
  lemma NobodyElse(s: Mem, root: nat)
    requires ValidMem(s) && root in s.free
    ensures Others(s.owner, root) == s.owner && root !in s.owner
    ensures forall p | p in s.owner :: s.owner[p].root != root
  {
  }

  lemma AbandonedAfter(s: Mem, t: Mem, u: Mem, root: nat)
    requires ValidMem(s) && ValidMem(t) && Within(s, t, root) && root in s.free && IsRoot(t.owner, root)
    requires u == t.(owner := Others(t.owner, root), free := [root] + t.free)
    ensures Abandoned(s, u)
  {
    hide Forest, Entry, Distinct, Others;
    NobodyElse(s, root);
    forall p | p in t.free ensures p in s.free {
      assert p in Holdings(t);
      if p in s.owner {
        OthersSame(s.owner, t.owner, root);
      }
    }
  }

  lemma PagesCard(s: seq<nat>)
    requires Distinct(s)
    ensures |Pages(s)| == |s|
  {
    DistinctCard(s);
    assert Pages(s) == set p | p in s;
  }

  /** The trampoline, the trap frame and the stack lie below one lowest table. */
  lemma OneTable(m: Tables, root: nat)
    requires 0 !in m && Entry(m, root, V_TRAMPOLINE) != 0
    ensures Missing(m, root, V_TRAP_FRAME) == 0 && Missing(m, root, V_STACK) == 0
  {
  }

  /** Taking pages and giving back one of them conserves exactly when at most one was there. */
  lemma LostUnless(s: Mem, t: Mem)
    requires ValidMem(s) && ValidMem(t) && Pages(t.free) <= Pages(s.free) && |t.free| == if s.free == [] then 0 else 1
    ensures Pages(t.free) == Pages(s.free) <==> |s.free| <= 1
  {
    hide Forest, Pages;
    PagesCard(s.free);
    PagesCard(t.free);
    if |s.free| <= 1 {
      SubsetCard(Pages(t.free), Pages(s.free));
    }
  }

  /** get_user_page_table, with the pages of the trap frame and the trampoline given. When it
      succeeds there is a new address space without pages below the stack. It needs four pages:
      the root, two tables and the stack. When it fails it gives back the root alone, so that no
      page is lost if and only if there was at most one. */
  method GetUserPageTable(mem: Memory, trapFrame: nat, trampoline: nat) returns (root: nat)
    requires mem.Valid()
    modifies mem
    ensures mem.Valid()
    ensures root != 0 ==>
              root in old(mem.free) && User(mem.State(), root, 0) && Within(old(mem.State()), mem.State(), root)
    ensures root != 0 ==> IsUser(Entry(mem.tables, root, V_STACK)) && IsWritable(Entry(mem.tables, root, V_STACK))
    ensures root != 0 ==>
              && Flags(Entry(mem.tables, root, V_STACK)) == 0x17
              && Entry(mem.tables, root, V_TRAP_FRAME) == trapFrame * 1024 + 0x07
              && Entry(mem.tables, root, V_TRAMPOLINE) == trampoline * 1024 + 0x0b
    ensures root != 0 ==> Entry(mem.tables, root, V_TRAP_FRAME) == LeafEntry(trapFrame, READ_WRITE)
    ensures root != 0 ==> Entry(mem.tables, root, V_TRAMPOLINE) == LeafEntry(trampoline, READ_EXECUTE)
    ensures root == 0 ==> Abandoned(old(mem.State()), mem.State())
    ensures root != 0 <==> |old(mem.free)| >= 4
    ensures root != 0 ==> |old(mem.free)| == |mem.free| + 4
    ensures root == 0 ==> |mem.free| == if old(mem.free) == [] then 0 else 1
    ensures root == 0 ==> (Pages(mem.free) == old(Pages(mem.free)) <==> |old(mem.free)| <= 1)
  {
    hide ValidMem, Space, Within, Mapped, SameFlat, LeafEntry, Abandoned, Missing, Pages;
    ghost var s := mem.State();
    root := mem.PmZalloc();
    if root == 0 {
      NothingAbandoned(s);
      return;
    }
    NewSpace(s, mem.State(), root);
    mem.owner := mem.owner[root := Place(root, Root)];
    var ok := FillUserTop(mem, root, trapFrame, trampoline, s);
    if !ok {
      SpaceRoot(mem.State(), root, {}, {});
      AbandonedAfter(s, mem.State(), mem.State().(owner := Others(mem.owner, root), free := [root] + mem.free), root);
      DropRoot(mem, root);
      FewerPages(s, mem.State());
      LostUnless(s, mem.State());
      return 0;
    }
    TopEntries(trapFrame, trampoline);
  }

  lemma TopEntries(trapFrame: nat, trampoline: nat)
    ensures LeafEntry(trapFrame, READ_WRITE) == trapFrame * 1024 + 0x07
    ensures LeafEntry(trampoline, READ_EXECUTE) == trampoline * 1024 + 0x0b
  {
  }

  lemma FewerPages(s: Mem, t: Mem)
    requires Abandoned(s, t)
    ensures Pages(t.free) <= Pages(s.free)
  {
  }

  /** The three mappings of get_user_page_table; when one fails the earlier ones are undone. */
  method FillUserTop(mem: Memory, root: nat, trapFrame: nat, trampoline: nat, ghost s: Mem) returns (ok: bool)
    requires mem.Valid() && ValidMem(s) && Space(mem.State(), root, {}, {}) && Within(s, mem.State(), root)
    requires Missing(mem.tables, root, V_TRAMPOLINE) == 2
    modifies mem
    ensures mem.Valid() && Within(s, mem.State(), root)
    ensures ok <==> |old(mem.free)| >= 3
    ensures if ok then |old(mem.free)| == |mem.free| + 3 else mem.free == []
    ensures !ok ==> Space(mem.State(), root, {}, {})
    ensures ok ==>
              && User(mem.State(), root, 0) && IsUser(Entry(mem.tables, root, V_STACK))
              && IsWritable(Entry(mem.tables, root, V_STACK)) && Flags(Entry(mem.tables, root, V_STACK)) == 0x17
    ensures ok ==> Entry(mem.tables, root, V_TRAP_FRAME) == LeafEntry(trapFrame, READ_WRITE)
    ensures ok ==> Entry(mem.tables, root, V_TRAMPOLINE) == LeafEntry(trampoline, READ_EXECUTE)
  {
    hide ValidMem, Space, Within, Mapped, LeafEntry, Entry, IsUser, IsWritable, Missing;
    ghost var a := mem.State();
    SpaceRoot(a, root, {}, {});
    var r := MapShared(mem, root, V_TRAMPOLINE, trampoline, READ_EXECUTE, {}, {});
    WithinOn(s, a, mem.State(), root);
    if r == Failed {
      return false;
    }
    ghost var b := mem.State();
    MappedEntry(a, b, root, V_TRAMPOLINE, 1, trampoline, READ_EXECUTE, V_TRAMPOLINE);
    LeafIsSet(trampoline, READ_EXECUTE);
    NoPageZero(b);
    OneTable(b.tables, root);
    assert {} + {V_TRAMPOLINE} == {V_TRAMPOLINE};
    r := MapShared(mem, root, V_TRAP_FRAME, trapFrame, READ_WRITE, {V_TRAMPOLINE}, {});
    WithinOn(s, b, mem.State(), root);
    ghost var c := mem.State();
    if r == Failed {
      // the tables are there already: the exit that would unmap the trampoline alone is never taken
      assert false;
    }
    MappedEntry(b, c, root, V_TRAP_FRAME, 1, trapFrame, READ_WRITE, V_TRAMPOLINE);
    MappedEntry(b, c, root, V_TRAP_FRAME, 1, trapFrame, READ_WRITE, V_TRAP_FRAME);
    NoPageZero(c);
    OneTable(c.tables, root);
    assert {V_TRAMPOLINE} + {V_TRAP_FRAME} == {V_TRAMPOLINE, V_TRAP_FRAME};
    r := MapStack(mem, root, {V_TRAMPOLINE, V_TRAP_FRAME}, {});
    WithinOn(s, c, mem.State(), root);
    if r == Failed {
      UndoTop(mem, root, s);
      return false;
    }
    assert Range(0, 0) + {V_STACK, V_TRAP_FRAME, V_TRAMPOLINE} == {V_TRAMPOLINE, V_TRAP_FRAME} + {V_STACK};
    assert Range(0, 0) + {V_STACK} == {} + {V_STACK};
    ok := true;
  }

  lemma LeafIsSet(page: nat, perm: nat)
    requires perm < 1024
    ensures LeafEntry(page, perm) != 0
  {
  }

  method UndoTop(mem: Memory, root: nat, ghost s: Mem)
    requires mem.Valid() && ValidMem(s) && Within(s, mem.State(), root)
    requires Space(mem.State(), root, {V_TRAMPOLINE, V_TRAP_FRAME}, {})
    modifies mem
    ensures old(mem.free) == [] ==> mem.free == []
    ensures mem.Valid() && Within(s, mem.State(), root) && Space(mem.State(), root, {}, {})
  {
    hide ValidMem, Space, Within;
    ghost var a := mem.State();
    UnmapOne(mem, root, V_TRAP_FRAME, false, {V_TRAMPOLINE, V_TRAP_FRAME}, {});
    ghost var b := mem.State();
    WithinOn(s, a, b, root);
    assert {V_TRAMPOLINE, V_TRAP_FRAME} - {V_TRAP_FRAME} == {V_TRAMPOLINE} && {} - {V_TRAP_FRAME} == {};
    UnmapOne(mem, root, V_TRAMPOLINE, false, {V_TRAMPOLINE}, {});
    assert {V_TRAMPOLINE} - {V_TRAMPOLINE} == {} && {} - {V_TRAMPOLINE} == {};
    WithinOn(s, b, mem.State(), root);
  }

  /** free_user_page_table: everything the address space owned is free again, and only that. */
  method FreeUserPageTable(mem: Memory, root: nat, size: nat)
    requires mem.Valid() && User(mem.State(), root, PageCount(size))
    modifies mem
    ensures mem.Valid() && Within(old(mem.State()), mem.State(), root)
    ensures mem.owner == Others(old(mem.owner), root)
  {
    hide ValidMem, Space, Within, Others;
    ghost var s := mem.State();
    ghost var n := PageCount(size);
    ghost var mapped := Range(0, n) + {V_STACK, V_TRAP_FRAME, V_TRAMPOLINE};
    ghost var data := Range(0, n) + {V_STACK};
    UnmapOne(mem, root, V_STACK, true, mapped, data);
    ghost var a := mem.State();
    assert mapped - {V_STACK} == Range(0, n) + {V_TRAP_FRAME, V_TRAMPOLINE} && data - {V_STACK} == Range(0, n);
    UnmapOne(mem, root, V_TRAP_FRAME, false, Range(0, n) + {V_TRAP_FRAME, V_TRAMPOLINE}, Range(0, n));
    ghost var b := mem.State();
    assert Range(0, n) + {V_TRAP_FRAME, V_TRAMPOLINE} - {V_TRAP_FRAME} == Range(0, n) + {V_TRAMPOLINE};
    assert Range(0, n) - {V_TRAP_FRAME} == Range(0, n);
    UnmapOne(mem, root, V_TRAMPOLINE, false, Range(0, n) + {V_TRAMPOLINE}, Range(0, n));
    ghost var c := mem.State();
    assert Range(0, n) + {V_TRAMPOLINE} - {V_TRAMPOLINE} == Range(0, n) && Range(0, n) - {V_TRAMPOLINE} == Range(0, n);
    UvmFree(mem, root, size);
    WithinOn(s, a, b, root);
    WithinOn(s, b, c, root);
    WithinOn(s, c, mem.State(), root);
    WithinOthers(s, c, root);
  }

  /** A request for a new size, as proc_grow passes it on; a failed request keeps the size. */
  method Resize(mem: Memory, root: nat, oldSize: nat, request: nat, extra: nat) returns (ok: bool, size: nat)
    requires mem.Valid() && User(mem.State(), root, PageCount(oldSize)) && extra < 1024
    modifies mem
    ensures !ok ==> PageCount(request) > V_STACK && |old(mem.free)| > V_STACK - PageCount(oldSize)
    ensures ok ==>
              mem.Valid() && Within(old(mem.State()), mem.State(), root) && User(mem.State(), root, PageCount(size))
    ensures ok && request < oldSize ==> size == RoundUp(request)
    ensures ok && request >= oldSize ==> size == oldSize || size == request
    ensures ok && request > oldSize && size != request ==>
              |old(mem.free)| < 3 * (PageCount(request) - PageCount(oldSize))
  {
    hide ValidMem, User, Within, Grown, UserPerm, Unmapped, PageCount;
    if request > oldSize {
      var o, n := UvmAlloc(mem, root, oldSize, request, extra);
      return o != Panicked, if n != 0 then n else oldSize;
    }
    size := UvmDealloc(mem, root, oldSize, request);
    ok := true;
  }

  /** Page conservation over the lifetime of an address space: make it, resize it to any
      sequence of sizes (some requests may fail), and give it back with the size that the
      operations reported last. The free pages are then exactly the ones from before. */
  method Lifetime(mem: Memory, trapFrame: nat, trampoline: nat, requests: seq<nat>, extra: nat) returns (r: Outcome)
    requires mem.Valid() && extra < 1024
    modifies mem
    ensures r == Panicked ==> exists i :: 0 <= i < |requests| && PageCount(requests[i]) > V_STACK
    ensures r == Panicked ==> |old(mem.free)| > V_STACK
    ensures r == Failed ==> mem.Valid() && Abandoned(old(mem.State()), mem.State())
    ensures r == Failed <==> |old(mem.free)| < 4
    ensures r == Done ==> mem.Valid() && mem.owner == old(mem.owner) && Pages(mem.free) == old(Pages(mem.free))
    ensures r == Done ==> SameFlat(old(mem.tables), mem.tables, mem.owner)
    ensures r == Done ==>
              forall p | p in old(mem.bytes) && p !in old(mem.free) ::
                  p in mem.bytes && mem.bytes[p] == old(mem.bytes)[p]
  {
    assert PageCount(0) == 0;
    hide ValidMem, User, Within, Abandoned, PageCount, RoundUp, Others, SameFlat, Pages, LeafEntry, Entry;
    ghost var s := mem.State();
    var root := GetUserPageTable(mem, trapFrame, trampoline);
    if root == 0 {
      return Failed;
    }
    var size, i := 0, 0;
    while i < |requests|
      invariant 0 <= i <= |requests|
      invariant mem.Valid() && Within(s, mem.State(), root) && User(mem.State(), root, PageCount(size))
    {
      ghost var t := mem.State();
      FramesCounted(s, t, root, PageCount(size));
      var ok;
      ok, size := Resize(mem, root, size, requests[i], extra);
      if !ok {
        return Panicked;
      }
      WithinOn(s, t, mem.State(), root);
      i := i + 1;
    }
    ghost var t := mem.State();
    FreeUserPageTable(mem, root, size);
    WithinOn(s, t, mem.State(), root);
    Conserved(s, t, mem.State(), root);
    r := Done;
  }

  /** The pages of a new address space were free before. */
  lemma FramesCounted(s: Mem, t: Mem, root: nat, n: nat)
    requires ValidMem(s) && ValidMem(t) && root in s.free && Within(s, t, root) && User(t, root, n)
    ensures |t.free| + n <= |s.free|
  {
    hide ValidMem, Within, Entry, Pages, Range;
    var frames := FramesBelow(t, root, n);
    WereFree(s, t, root);
    forall w: nat | w < n ensures OwnsFrame(t, root, w) {
      assert w in Range(0, n);
    }
    hide User, OwnsFrame;
    FramesCard(t, root, n);
    FreeCard(s);
    FreeCard(t);
    assert Pages(t.free) !! frames;
    SubsetCard(Pages(t.free) + frames, Pages(s.free));
  }

  /** What a new tree owns was free before. */
  lemma WereFree(s: Mem, t: Mem, root: nat)
    requires ValidMem(s) && ValidMem(t) && root in s.free && Within(s, t, root)
    ensures Pages(t.free) <= Pages(s.free)
    ensures forall p | p in t.owner && t.owner[p].root == root :: p in Pages(s.free) && p !in Pages(t.free)
  {
    hide ValidMem, Entry, Pages;
    FreeIsRest(s);
    FreeIsRest(t);
    NobodyElse(s, root);
    assert forall p | p in s.owner :: p in Others(t.owner, root);
  }

  ghost function FramesBelow(s: Mem, root: nat, n: nat): set<nat> {
    set p | p in s.owner && s.owner[p].root == root && s.owner[p].use.Data? && s.owner[p].use.v < n
  }

  lemma {:induction false} FramesCard(s: Mem, root: nat, n: nat)
    requires n <= N_VPN && forall w: nat | w < n :: OwnsFrame(s, root, w)
    ensures |FramesBelow(s, root, n)| >= n
  {
    if n > 0 {
      FramesCard(s, root, n - 1);
      var p := Ppn(Entry(s.tables, root, n - 1));
      assert OwnsFrame(s, root, n - 1);
      SubsetCard(FramesBelow(s, root, n - 1) + {p}, FramesBelow(s, root, n));
    }
  }

  lemma FreeCard(s: Mem)
    requires ValidMem(s)
    ensures |Pages(s.free)| == |s.free|
  {
    hide Forest;
    PagesCard(s.free);
  }

  lemma FreeIsRest(s: Mem)
    requires ValidMem(s)
    ensures Pages(s.free) == Holdings(s) - s.owner.Keys
  {
  }

  lemma Conserved(s: Mem, t: Mem, u: Mem, root: nat)
    requires ValidMem(s) && ValidMem(u) && root in s.free && Within(s, t, root) && Within(s, u, root)
    requires u.owner == Others(t.owner, root)
    ensures u.owner == s.owner && Pages(u.free) == Pages(s.free)
    ensures SameFlat(s.tables, u.tables, s.owner)
    ensures forall p | p in s.bytes && p !in s.free :: p in u.bytes && u.bytes[p] == s.bytes[p]
  {
    hide ValidMem, Entry, Pages, Holdings, Others;
    FreeIsRest(s);
    FreeIsRest(u);
    NobodyElse(s, root);
    assert forall r | IsRoot(s.owner, r) :: r != root;
  }

  /** The loss does occur: with two free pages get_user_page_table fails and gives back one. */
  method TwoPagesLoseOne() returns (mem: Memory, root: nat, ghost before: set<nat>)
    ensures mem.Valid() && root == 0 && |before| == 2 && Pages(mem.free) < before
  {
    hide ValidMem, Within, User;
    mem := new Memory(1, 3);
    before := Pages(mem.free);
    FreeCard(mem.State());
    root := GetUserPageTable(mem, 8, 9);
  }
}
