/** The page allocator and the code that edits page tables. */
module VirtualMemory {
  import opened Basics
  import opened Blocks
  import opened PageTable

  /** How a page-table operation ends; a panic stops the kernel. */
  datatype Outcome = Done | Failed | Panicked

  const WORD := 0x1_0000_0000_0000_0000

  type Page = s: seq<Byte> | |s| == PAGE_SIZE witness seq(PAGE_SIZE, _ => 0)

  function ZeroPage(): Page { seq(PAGE_SIZE, _ => 0) }

  /** The set of pages on a list. */
  ghost function Pages(s: seq<nat>): set<nat> { set p | p in s }

  lemma Popped(s: seq<nat>, page: nat, t: seq<nat>)
    requires s == [page] + t
    ensures Pages(s) == Pages(t) + {page}
    ensures Distinct(s) <==> Distinct(t) && page !in t
  {
    if Distinct(t) && page !in t {
      assert forall i | 0 < i < |s| :: s[i] == t[i - 1];
    }
    if Distinct(s) {
      assert forall i | 0 <= i < |t| :: t[i] == s[i + 1];
      assert s[0] == page;
    }
  }

  /** The allocator's state as a value. */
  datatype Mem = Mem(free: seq<nat>, tables: Tables, bytes: map<nat, Page>, owner: Owners)

  /** All pages that are free, used as tables or mapped. */
  ghost function Holdings(s: Mem): set<nat> { Pages(s.free) + s.owner.Keys }

  /** A tree only gains tables. */
  ghost predicate Grows(o: Owners, n: Owners, root: nat) {
    && (forall p | p in o :: p in n && n[p] == o[p])
    && forall p | p in n && p !in o :: n[p].root == root && (n[p].use.Mid? || n[p].use.Low?)
  }

  /** One tree gains tables from the free list; the bytes of pages in use stay. */
  ghost predicate Gained(s: Mem, t: Mem, root: nat) {
    && Grows(s.owner, t.owner, root)
    && Holdings(s) == Holdings(t)
    && s.tables.Keys == t.tables.Keys
    && forall p | p in s.bytes && p !in s.free :: p in t.bytes && t.bytes[p] == s.bytes[p]
  }

  /** What a walk may do: take free pages as tables of one tree. No flat map changes. */
  ghost predicate Walked(s: Mem, t: Mem, root: nat) {
    && SameFlat(s.tables, t.tables, s.owner)
    && Gained(s, t, root)
  }

  lemma GainedOn(s: Mem, t: Mem, u: Mem, root: nat)
    requires ValidMem(s) && ValidMem(t) && Gained(s, t, root) && Gained(t, u, root)
    ensures Gained(s, u, root)
    ensures forall r | IsRoot(s.owner, r) :: IsRoot(t.owner, r) && IsRoot(u.owner, r)
  {
    hide Forest, Distinct;
    forall p | p in t.free ensures p in s.free {
      assert p in Holdings(t);
    }
  }

  ghost predicate ValidMem(s: Mem) {
    && 0 !in s.tables && Forest(s.tables, s.owner) && Distinct(s.free) && s.bytes.Keys == s.tables.Keys
    && forall p | p in s.free :: p in s.tables && p !in s.owner
  }

  lemma NoPageZero(s: Mem)
    requires ValidMem(s)
    ensures 0 !in s.tables
  {
  }

  lemma WalkedNowhere(s: Mem, root: nat)
    ensures Walked(s, s, root)
  {
  }

  lemma WalkedOn(s: Mem, t: Mem, w: Mem, root: nat)
    requires ValidMem(s) && ValidMem(t) && Walked(s, t, root) && Walked(t, w, root)
    ensures Walked(s, w, root)
  {
    GainedOn(s, t, w, root);
    hide ValidMem, Entry, Gained;
  }

  /** The lowest-level table for a virtual page. */
  ghost function TableOf(m: Tables, root: nat, v: nat): nat
    requires v < N_VPN
  {
    TableAt(m, root, Low(Top(v), Middle(v)))
  }

  /** The number of tables that a walk to a virtual page has to make. */
  ghost function Missing(m: Tables, root: nat, v: nat): (k: nat)
    requires v < N_VPN
    ensures k <= 2
  {
    if TableAt(m, root, Mid(Top(v))) == 0 then 2 else if TableOf(m, root, v) == 0 then 1 else 0
  }

  /** What mapping a range costs: at most two tables for each page, and for a single page
      exactly the missing ones. */
  ghost predicate Paid(s: Mem, t: Mem, root: nat, lo: nat, n: nat) {
    && |s.free| <= |t.free| + 2 * n
    && (n == 1 && lo < N_VPN ==> |s.free| == |t.free| + Missing(s.tables, root, lo))
  }

  /** The range reaches behind the address limit, or there are too few free pages for it. */
  ghost predicate TooDear(s: Mem, root: nat, lo: nat, n: nat) {
    || lo + n > MAX_VADDR / PAGE_SIZE
    || (|s.free| < 2 * n && (n == 1 ==> |s.free| < Missing(s.tables, root, lo)))
  }

  /** The first level of a walk, by way of entry `a` of the root: either the table below it was
      there, or a free page has become an empty table. */
  ghost predicate HalfWay(s: Mem, t: Mem, root: nat, a: nat, b: nat)
    requires a < N_ENTRIES && b < N_ENTRIES
  {
    if TableAt(s.tables, root, Mid(a)) != 0 then t == s
    else |s.free| == |t.free| + 1 && TableAt(t.tables, root, Low(a, b)) == 0
  }

  /** A free page that was zeroed and linked below a table is a walk's step. */
  lemma LinkIsWalk(s: Mem, t: Mem, table: nat, i: nat, page: nat)
    requires ValidMem(s) && Linkable(s.tables, s.owner, table, i, page) && s.free == [page] + t.free
    requires t.tables == Link(s.tables, table, i, page) && t.bytes == s.bytes[page := ZeroPage()]
    requires t.owner == s.owner[page := Place(s.owner[table].root, Below(s.owner[table].use, i))]
    ensures ValidMem(t) && Walked(s, t, s.owner[table].root)
    ensures TableAt(t.tables, s.owner[table].root, Below(s.owner[table].use, i)) == page
  {
    hide Forest, Entry, TableAt;
    assert t.tables.Keys == s.tables.Keys;
    Popped(s.free, page, t.free);
    hide Link, Distinct;
    LinkKeepsForest(s.tables, s.owner, table, i, page);
    LinkPlacesNew(s.tables, s.owner, table, i, page);
    hide PlacedAt;
    assert SameFlat(s.tables, t.tables, s.owner) by {
      forall r, v: nat | IsRoot(s.owner, r) && v < N_VPN ensures Entry(s.tables, r, v) == Entry(t.tables, r, v) {
        LinkKeepsFlat(s.tables, s.owner, table, i, page, r, v);
      }
    }
    hide SameFlat;
  }

  /** The pages that a tree owns as data in a range of virtual pages. */
  ghost function Frames(o: Owners, root: nat, lo: nat, n: nat): set<nat> {
    set p | p in o && o[p].root == root && o[p].use.Data? && lo <= o[p].use.v < lo + n
  }

  /** The flat map of one tree loses a range; exactly the frames of that range become free. */
  ghost predicate Unmapped(s: Mem, t: Mem, root: nat, lo: nat, n: nat) {
    && (forall r, w: nat | IsRoot(s.owner, r) && w < N_VPN ::
          Entry(t.tables, r, w) == if r == root && lo <= w < lo + n then 0 else Entry(s.tables, r, w))
    && t.owner == s.owner - Frames(s.owner, root, lo, n)
    && Pages(t.free) == Pages(s.free) + Frames(s.owner, root, lo, n)
    && t.bytes == s.bytes && t.tables.Keys == s.tables.Keys
  }

  /** Whether unmapping a page with or without freeing it suits the page's owner. */
  ghost predicate Suits(s: Mem, root: nat, v: nat, free: bool)
    requires v < N_VPN
  {
    if free then
      IsValid(Entry(s.tables, root, v)) ==>
        Ppn(Entry(s.tables, root, v)) in s.owner && s.owner[Ppn(Entry(s.tables, root, v))] == Place(root, Data(v))
    else
      forall p | p in s.owner :: s.owner[p] != Place(root, Data(v))
  }

  /** The number of pages in a range of addresses; the sum that ends it is taken modulo 2^64. */
  function Span(va: nat, size: nat): nat {
    if va + size < WORD then size / PAGE_SIZE else 0
  }

  predicate Aligned(va: nat, size: nat) { va % PAGE_SIZE == 0 && size % PAGE_SIZE == 0 }

  ghost predicate RangeSuits(s: Mem, root: nat, lo: nat, n: nat, free: bool) {
    forall w: nat | lo <= w < lo + n && w < N_VPN :: Suits(s, root, w, free)
  }

  /** Every page of a range lies below the address limit and is mapped. */
  ghost predicate RangeMapped(m: Tables, root: nat, lo: nat, n: nat) {
    forall w: nat | lo <= w < lo + n :: w < MAX_VADDR / PAGE_SIZE && Entry(m, root, w) != 0
  }

  /** A range of addresses as a range of pages. */
  lemma RangeEnds(va: nat, size: nat)
    requires Aligned(va, size) && va < WORD && size < WORD
    ensures va == va / PAGE_SIZE * PAGE_SIZE
    ensures var last, n := (va + size) % WORD, Span(va, size);
            last < WORD && if n == 0 then last <= va else last == (va / PAGE_SIZE + n) * PAGE_SIZE
  {
  }

  lemma RangeMappedParts(m: Tables, root: nat, lo: nat, k: nat, n: nat)
    requires k <= n
    ensures RangeMapped(m, root, lo, 0)
    ensures RangeMapped(m, root, lo, n) ==> RangeMapped(m, root, lo, k)
    ensures RangeMapped(m, root, lo, k + 1) <==>
              RangeMapped(m, root, lo, k) && lo + k < MAX_VADDR / PAGE_SIZE && Entry(m, root, lo + k) != 0
  {
  }

  /** Before each round of unmap_pages: the next page can be unmapped if and only if it was
      mapped at the start. */
  lemma UnmapReady(s: Mem, t: Mem, root: nat, lo: nat, k: nat, n: nat, free: bool)
    requires k < n && IsRoot(s.owner, root) && Unmapped(s, t, root, lo, k)
    requires RangeSuits(s, root, lo, n, free) && RangeMapped(s.tables, root, lo, k)
    ensures var cur, v := (lo + k) * PAGE_SIZE, lo + k;
            && cur / PAGE_SIZE == v
            && (cur < MAX_VADDR ==> Suits(t, root, v, free))
            && (cur < MAX_VADDR && Entry(t.tables, root, v) != 0 <==> RangeMapped(s.tables, root, lo, k + 1))
            && (RangeMapped(s.tables, root, lo, n) ==> RangeMapped(s.tables, root, lo, k + 1))
  {
    hide Unmapped, Suits, Entry, RangeMapped;
    RangeMappedParts(s.tables, root, lo, k, n);
    RangeMappedParts(s.tables, root, lo, k + 1, n);
    if lo + k < MAX_VADDR / PAGE_SIZE {
      UnmappedEntry(s, t, root, lo, k, lo + k);
      UnmappedSuits(s, t, root, lo, k, lo + k, free);
    }
  }

  /** Every entry of the flat map is empty or a leaf. */
  lemma MappedIsLeaf(s: Mem, root: nat, v: nat)
    requires ValidMem(s) && IsRoot(s.owner, root) && v < N_VPN
    ensures Entry(s.tables, root, v) != 0 <==> IsValid(Entry(s.tables, root, v))
    ensures Entry(s.tables, root, v) != 0 ==> Flags(Entry(s.tables, root, v)) != 1
    ensures Entry(s.tables, root, v) != 0 ==> TableOf(s.tables, root, v) in s.tables && IsLeaf(Entry(s.tables, root, v))
  {
    var page := TableOf(s.tables, root, v);
    LeafFlags(Entry(s.tables, root, v));
    hide TableAt, Top, Middle, Bottom, Placed, IsValid, IsLeaf, Flags, Ppn;
    if page != 0 {
      OwnedTable(s.tables, s.owner, page);
    }
  }

  lemma UnmappedNothing(s: Mem, root: nat, lo: nat)
    ensures Unmapped(s, s, root, lo, 0)
  {
  }

  lemma UnmappedNext(s: Mem, t: Mem, u: Mem, root: nat, lo: nat, n: nat)
    requires Unmapped(s, t, root, lo, n) && Unmapped(t, u, root, lo + n, 1) && IsRoot(s.owner, root)
    ensures Unmapped(s, u, root, lo, n + 1) && IsRoot(u.owner, root)
  {
    hide Entry;
    assert Frames(s.owner, root, lo, n + 1) == Frames(s.owner, root, lo, n) + Frames(t.owner, root, lo + n, 1);
    assert u.owner == s.owner - Frames(s.owner, root, lo, n + 1);
  }

  /** The other pages of the range can still be unmapped. */
  lemma UnmappedSuits(s: Mem, t: Mem, root: nat, lo: nat, n: nat, v: nat, free: bool)
    requires Unmapped(s, t, root, lo, n) && IsRoot(s.owner, root) && v < N_VPN && !(lo <= v < lo + n)
    requires Suits(s, root, v, free)
    ensures Suits(t, root, v, free)
  {
  }

  lemma UnmappedEntry(s: Mem, t: Mem, root: nat, lo: nat, n: nat, v: nat)
    requires Unmapped(s, t, root, lo, n) && IsRoot(s.owner, root) && v < N_VPN
    ensures Entry(t.tables, root, v) == if lo <= v < lo + n then 0 else Entry(s.tables, root, v)
    ensures IsRoot(t.owner, root)
  {
  }

  /** Two virtual pages never share a frame. */
  lemma OnlyFrame(s: Mem, root: nat, v: nat, page: nat)
    requires ValidMem(s) && v < N_VPN && page in s.owner && s.owner[page] == Place(root, Data(v))
    ensures Frames(s.owner, root, v, 1) == {page} && page in s.tables && page !in s.free
    ensures forall p | p in s.owner && s.owner[p] == Place(root, Data(v)) :: p == page
  {
  }

  lemma UnmapFreed(s: Mem, t: Mem, root: nat, v: nat, page: nat)
    requires ValidMem(s) && IsRoot(s.owner, root) && v < N_VPN && TableOf(s.tables, root, v) in s.tables
    requires page in s.owner && s.owner[page] == Place(root, Data(v))
    requires var tables := PutEntry(s.tables, TableOf(s.tables, root, v), Bottom(v), 0);
             t == Mem([page] + s.free, tables, s.bytes, s.owner - {page})
    ensures ValidMem(t) && Unmapped(s, t, root, v, 1)
  {
    hide Forest, Entry, Bottom, TableAt, Frames, PutEntry, Distinct;
    OnlyFrame(s, root, v, page);
    DataIsGivenUp(s.tables, s.owner, page);
    WriteLeaf(s.tables, t.tables, t.owner, root, v, 0);
    Popped(t.free, page, s.free);
    assert forall r | IsRoot(s.owner, r) :: IsRoot(t.owner, r);
    hide IsRoot;
  }

  lemma UnmapKept(s: Mem, t: Mem, root: nat, v: nat)
    requires ValidMem(s) && IsRoot(s.owner, root) && v < N_VPN && TableOf(s.tables, root, v) in s.tables
    requires Suits(s, root, v, false)
    requires t == Mem(s.free, PutEntry(s.tables, TableOf(s.tables, root, v), Bottom(v), 0), s.bytes, s.owner)
    ensures ValidMem(t) && Unmapped(s, t, root, v, 1)
  {
    hide Forest, Entry, Bottom, TableAt, Frames, PutEntry, Distinct;
    NoFrames(s, root, v);
    WriteLeaf(s.tables, t.tables, s.owner, root, v, 0);
  }

  lemma NoFrames(s: Mem, root: nat, v: nat)
    requires v < N_VPN && Suits(s, root, v, false)
    ensures Frames(s.owner, root, v, 1) == {} && s.owner - {} == s.owner
  {
    hide Entry;
  }

  /** The step to the table at place `u` of a tree: a missing one is made if asked for, out of
      one free page. */
  ghost predicate Descended(s: Mem, t: Mem, root: nat, u: Use, alloc: bool, next: nat)
    requires IsTable(u)
  {
    && next == TableAt(t.tables, root, u)
    && (next == 0 ==> t == s && (alloc ==> t.free == []))
    && (next != 0 ==> next in t.owner && t.owner[next] == Place(root, u))
    && (!alloc || TableAt(s.tables, root, u) != 0 ==> t == s)
    && (TableAt(s.tables, root, u) == 0 && next != 0 ==>
          |s.free| == |t.free| + 1 && next in t.tables && t.tables[next] == Empty())
  }

  /** The flat map of one tree gains a range of entries for consecutive physical pages; at
      most the tree gained tables. */
  ghost predicate Mapped(s: Mem, t: Mem, root: nat, lo: nat, n: nat, page: nat, perm: nat)
    requires perm < 1024
  {
    && (forall r, w: nat | IsRoot(s.owner, r) && w < N_VPN ::
          Entry(t.tables, r, w)
          == if r == root && lo <= w < lo + n then LeafEntry(page + (w - lo), perm) else Entry(s.tables, r, w))
    && Gained(s, t, root)
  }

  lemma MappedNothing(s: Mem, root: nat, lo: nat, page: nat, perm: nat)
    requires perm < 1024
    ensures Mapped(s, s, root, lo, 0, page, perm) && RangeEmpty(s.tables, root, lo, 0)
  {
  }

  lemma MappedNext(s: Mem, t: Mem, u: Mem, root: nat, lo: nat, n: nat, page: nat, perm: nat)
    requires perm < 1024 && ValidMem(s) && ValidMem(t) && IsRoot(s.owner, root)
    requires Mapped(s, t, root, lo, n, page, perm) && Mapped(t, u, root, lo + n, 1, page + n, perm)
    ensures Mapped(s, u, root, lo, n + 1, page, perm) && IsRoot(u.owner, root)
  {
    GainedOn(s, t, u, root);
    hide Entry, LeafEntry, ValidMem, Gained;
  }

  lemma MappedEntry(s: Mem, t: Mem, root: nat, lo: nat, n: nat, page: nat, perm: nat, v: nat)
    requires perm < 1024 && Mapped(s, t, root, lo, n, page, perm) && IsRoot(s.owner, root) && v < N_VPN
    ensures Entry(t.tables, root, v)
            == if lo <= v < lo + n then LeafEntry(page + (v - lo), perm) else Entry(s.tables, root, v)
    ensures IsRoot(t.owner, root)
  {
  }

  /** No page is owned as data at a virtual page without an entry. */
  lemma NoFrame(s: Mem, root: nat, v: nat)
    requires ValidMem(s) && v < N_VPN && Entry(s.tables, root, v) == 0
    ensures forall p | p in s.owner :: s.owner[p] != Place(root, Data(v))
  {
  }

  lemma EntryIsLeaf(page: nat, perm: nat)
    requires perm < 1024 && IsLeaf(perm)
    ensures var e := LeafEntry(page, perm);
            IsValid(e) && IsLeaf(e) && e != 0 && Ppn(e) == page && (Flags(e) == perm || Flags(e) == perm + 1)
  {
  }

  /** Filling an empty entry maps one page. */
  lemma FillIsMap(s: Mem, t: Mem, root: nat, v: nat, page: nat, perm: nat)
    requires ValidMem(s) && IsRoot(s.owner, root) && v < N_VPN && TableOf(s.tables, root, v) in s.tables
    requires Entry(s.tables, root, v) == 0 && perm < 1024 && IsLeaf(perm)
    requires t == s.(tables := PutEntry(s.tables, TableOf(s.tables, root, v), Bottom(v), LeafEntry(page, perm)))
    ensures ValidMem(t) && Mapped(s, t, root, v, 1, page, perm)
  {
    hide Forest, Entry, Bottom, TableAt, LeafEntry, IsValid, IsLeaf, PutEntry, Distinct, Flags, Ppn;
    NoFrame(s, root, v);
    EntryIsLeaf(page, perm);
    WriteLeaf(s.tables, t.tables, s.owner, root, v, LeafEntry(page, perm));
  }

  /** Every page of a range lies below the address limit and is not mapped. */
  ghost predicate RangeEmpty(m: Tables, root: nat, lo: nat, n: nat) {
    (n == 0 || lo + n <= MAX_VADDR / PAGE_SIZE) && forall w: nat | lo <= w < lo + n :: Entry(m, root, w) == 0
  }

  /** Some page of a range is mapped already. */
  ghost predicate RangeTaken(m: Tables, root: nat, lo: nat, n: nat) {
    exists w: nat :: lo <= w < lo + n && w < MAX_VADDR / PAGE_SIZE && Entry(m, root, w) != 0
  }

  /** Before each round of map_pages: the next page is as it was at the start. */
  lemma MapReady(s: Mem, t: Mem, root: nat, lo: nat, k: nat, n: nat, pa: nat, perm: nat)
    requires k < n && IsRoot(s.owner, root) && perm < 1024 && Mapped(s, t, root, lo, k, pa / PAGE_SIZE, perm)
    requires RangeEmpty(s.tables, root, lo, k)
    ensures var cur, v := (lo + k) * PAGE_SIZE, lo + k;
            && cur / PAGE_SIZE == v && (pa + k * PAGE_SIZE) / PAGE_SIZE == pa / PAGE_SIZE + k
            && (cur < MAX_VADDR <==> v < MAX_VADDR / PAGE_SIZE)
            && (cur < MAX_VADDR && Entry(t.tables, root, v) == 0 ==> RangeEmpty(s.tables, root, lo, k + 1))
            && (cur < MAX_VADDR && Entry(t.tables, root, v) != 0 ==> RangeTaken(s.tables, root, lo, n))
  {
    hide Mapped, Entry;
    if lo + k < MAX_VADDR / PAGE_SIZE {
      MappedEntry(s, t, root, lo, k, pa / PAGE_SIZE, perm, lo + k);
    }
  }

  /** Walking and then mapping one page. */
  lemma WalkedThenMapped(s: Mem, t: Mem, u: Mem, root: nat, v: nat, page: nat, perm: nat)
    requires perm < 1024 && ValidMem(s) && ValidMem(t) && Walked(s, t, root) && Mapped(t, u, root, v, 1, page, perm)
    ensures Mapped(s, u, root, v, 1, page, perm)
  {
    GainedOn(s, t, u, root);
    hide Entry, LeafEntry, ValidMem, Gained;
  }

  /** Mapping part of an empty range and walking on leaves the rest of the map as it was. */
  lemma MappedThenWalked(s: Mem, t: Mem, u: Mem, root: nat, lo: nat, n: nat, page: nat, perm: nat)
    requires perm < 1024 && ValidMem(s) && ValidMem(t)
    requires Mapped(s, t, root, lo, n, page, perm) && Walked(t, u, root)
    ensures Mapped(s, u, root, lo, n, page, perm)
    ensures IsRoot(s.owner, root) ==> IsRoot(u.owner, root)
  {
    GainedOn(s, t, u, root);
    hide Entry, LeafEntry, ValidMem, Gained;
  }

  lemma MappedIsRange(s: Mem, t: Mem, root: nat, lo: nat, n: nat, page: nat, perm: nat)
    requires perm < 1024 && IsLeaf(perm) && ValidMem(s) && IsRoot(s.owner, root)
    requires Mapped(s, t, root, lo, n, page, perm) && RangeEmpty(s.tables, root, lo, n)
    ensures RangeMapped(t.tables, root, lo, n) && RangeSuits(t, root, lo, n, false)
    ensures Frames(t.owner, root, lo, n) == {}
  {
    hide Entry, LeafEntry, Forest;
    forall w: nat | lo <= w < lo + n
      ensures w < MAX_VADDR / PAGE_SIZE && Entry(t.tables, root, w) != 0 && Suits(t, root, w, false)
    {
      NoFrame(s, root, w);
      EntryIsLeaf(page + (w - lo), perm);
    }
    assert Frames(t.owner, root, lo, n) == {} by {
      forall p | p in Frames(t.owner, root, lo, n) ensures false {
        NoFrame(s, root, t.owner[p].use.v);
      }
    }
  }

  /** Undoing a mapping of an empty range restores every flat map. */
  lemma MappedThenUnmapped(s: Mem, t: Mem, u: Mem, root: nat, lo: nat, n: nat, page: nat, perm: nat)
    requires perm < 1024 && ValidMem(s) && RangeEmpty(s.tables, root, lo, n) && Frames(t.owner, root, lo, n) == {}
    requires Mapped(s, t, root, lo, n, page, perm) && Unmapped(t, u, root, lo, n)
    ensures Walked(s, u, root) && (t.free == [] ==> u.free == [])
  {
    hide Entry, LeafEntry, Forest;
    assert u.owner == t.owner;
    assert Holdings(u) == Holdings(t);
    assert u.free != [] ==> u.free[0] in Pages(u.free);
    assert Gained(s, u, root);
    assert forall r | IsRoot(s.owner, r) :: IsRoot(t.owner, r);
    hide Gained;
  }

  class Memory {
    /** The free list, its head first. */
    var free: seq<nat>
    /** The contents of every page, as a table and as bytes; a page is used in one way only. */
    var tables: Tables
    var bytes: map<nat, Page>
    ghost var owner: Owners

    ghost function State(): Mem
      reads this
    {
      Mem(free, tables, bytes, owner)
    }

    /** The tables form trees; free pages are listed once, and nobody owns them. */
    ghost predicate Valid()
      reads this
    {
      ValidMem(State())
    }

    /** pm_init: every page behind the kernel is free, the last one first. What the pages hold
        at the start does not matter. */
    constructor (first: nat, end: nat)
      requires 0 < first <= end
      ensures Valid() && owner == map[]
      ensures |free| == end - first && forall i | 0 <= i < |free| :: free[i] == end - 1 - i
    {
      tables, bytes, free, owner := map[], map[], [], map[];
      new;
      var p := first;
      while p < end
        invariant first <= p <= end && |free| == p - first && owner == map[]
        invariant forall i | 0 <= i < |free| :: free[i] == p - 1 - i
        invariant bytes.Keys == tables.Keys && forall q: nat :: q in tables <==> first <= q < p
      {
        free := [p] + free;
        tables, bytes := tables[p := Empty()], bytes[p := ZeroPage()];
        p := p + 1;
      }
    }

    /** pm_alloc: the page at the head of the free list, or 0. */
    method PmAlloc() returns (page: nat)
      requires Valid()
      modifies `free
      ensures Valid()
      ensures page == 0 <==> old(free) == []
      ensures page == 0 ==> free == []
      ensures page != 0 ==> old(free) == [page] + free && page in tables && page !in free && page !in owner
    {
      page := 0;
      if free != [] {
        page := free[0];
        free := free[1..];
      }
    }

    /** pm_zalloc: the same with the page zeroed. */
    method PmZalloc() returns (page: nat)
      requires Valid()
      modifies `free, `tables, `bytes
      ensures Valid()
      ensures page == 0 <==> old(free) == []
      ensures page == 0 ==> free == [] && tables == old(tables) && bytes == old(bytes)
      ensures page != 0 ==> old(free) == [page] + free && page in old(tables) && page !in free && page !in owner
      ensures page != 0 ==> tables == old(tables)[page := Empty()] && bytes == old(bytes)[page := ZeroPage()]
      ensures SameFlat(old(tables), tables, owner)
    {
      page := PmAlloc();
      if page != 0 {
        OtherPageForest(tables, owner, page, Empty());
        forall r, v: nat | IsRoot(owner, r) && v < N_VPN
          ensures Entry(tables[page := Empty()], r, v) == Entry(tables, r, v)
        {
          OtherPageEntry(tables, owner, page, Empty(), r, v);
        }
        hide Forest, Entry;
        tables := tables[page := Empty()];
        bytes := bytes[page := ZeroPage()];
      }
    }

    /** pm_free, for a page that is neither free nor owned. */
    method PmFree(page: nat)
      requires Valid() && page in tables && page !in owner && page !in free
      modifies `free
      ensures Valid()
      ensures free == [page] + old(free)
    {
      free := [page] + free;
    }

    /** One level of walk: the table below `table`, made if it is missing and `alloc` is set. */
    method Descend(table: nat, i: nat, alloc: bool, ghost root: nat, ghost u: Use) returns (next: nat)
      requires (u.Root? || u.Mid?) && IsTable(u) && i < N_ENTRIES
      requires Valid() && table in owner && owner[table] == Place(root, u)
      modifies this
      ensures Valid() && Walked(old(State()), State(), root)
      ensures Descended(old(State()), State(), root, Below(u, i), alloc, next)
    {
      hide Forest, TableAt, Walked;
      TableBelow(tables, owner, table, i);
      WalkedNowhere(State(), root);
      var e := tables[table][i];
      if IsValid(e) {
        next := Ppn(e);
      } else if alloc {
        next := PmZalloc();
        if next != 0 {
          tables := PutEntry(tables, table, i, Branch(next));
          owner := owner[next := Place(root, Below(u, i))];
          LinkIsWalk(old(State()), State(), table, i, next);
        }
      } else {
        next := 0;
      }
    }
  
    /** walk: the lowest-level table and the index in it for an address; table 0 is the null
        result. Without `alloc` nothing changes. */
    method Walk(root: nat, va: nat, alloc: bool) returns (page: nat, k: nat)
      requires Valid() && IsRoot(owner, root)
      modifies this
      ensures Valid() && Walked(old(State()), State(), root)
      ensures va >= MAX_VADDR ==> page == 0
      ensures va < MAX_VADDR ==> page == TableOf(tables, root, va / PAGE_SIZE) && k == Bottom(va / PAGE_SIZE)
      ensures page == 0 ==> va >= MAX_VADDR || (alloc ==> free == [])
      ensures !alloc ==> State() == old(State())
      ensures page != 0 ==> page in tables && k < N_ENTRIES
      ensures va < MAX_VADDR && alloc ==> (page == 0 <==> |old(free)| < old(Missing(tables, root, va / PAGE_SIZE)))
      ensures page != 0 ==> |old(free)| == |free| + old(Missing(tables, root, va / PAGE_SIZE))
    {
      hide Forest, TableAt, Walked, Top, Middle, Bottom, Px;
      WalkedNowhere(State(), root);
      if va >= MAX_VADDR {
        return 0, 0;
      }
      PxIsIndex(va);
      ghost var u := Root;
      page := root;
      var level := 2;
      while level > 0
        invariant 0 <= level <= 2
        invariant Valid() && Walked(old(State()), State(), root)
        invariant page in owner && owner[page] == Place(root, u)
        invariant u == if level == 2 then Root else if level == 1 then Mid(Px(va, 2)) else Low(Px(va, 2), Px(va, 1))
        invariant !alloc ==> State() == old(State())
        invariant level == 2 ==> State() == old(State())
        invariant level == 1 ==> HalfWay(old(State()), State(), root, Px(va, 2), Px(va, 1))
        invariant level == 0 ==> |old(free)| == |free| + old(Missing(tables, root, va / PAGE_SIZE))
      {
        ghost var before := State();
        page := Descend(page, Px(va, level), alloc, root, u);
        WalkedOn(old(State()), before, State(), root);
        if level == 2 && page != 0 && page in tables && tables[page] == Empty() {
          NothingBelowEmpty(tables, root, Px(va, 2), Px(va, 1));
        }
        u := Below(u, Px(va, level));
        if page == 0 {
          if level == 2 {
            NothingBelow(tables, root, Px(va, 2), Px(va, 1));
          }
          return 0, Px(va, 0);
        }
        level := level - 1;
      }
      OwnedTable(tables, owner, page);
      k := Px(va, 0);
    }
  
    /** One round of unmap_pages; `ok` is false when it panics. */
    method UnmapPage(root: nat, va: nat, freeIt: bool) returns (ok: bool)
      requires Valid() && IsRoot(owner, root)
      requires va < MAX_VADDR ==> Suits(State(), root, va / PAGE_SIZE, freeIt)
      modifies this
      ensures ok <==> va < MAX_VADDR && old(Entry(tables, root, va / PAGE_SIZE)) != 0
      ensures ok ==> Valid() && Unmapped(old(State()), State(), root, va / PAGE_SIZE, 1)
    {
      hide Forest, TableAt, Bottom, Unmapped, Walked;
      var table, k := Walk(root, va, false);
      if va < MAX_VADDR {
        MappedIsLeaf(State(), root, va / PAGE_SIZE);
      }
      if table == 0 {
        return false;
      }
      var e := tables[table][k];
      if !IsValid(e) || Flags(e) == 1 {
        return false;
      }
      if freeIt {
        owner := owner - {Ppn(e)};
        free := [Ppn(e)] + free;
        tables := PutEntry(tables, table, k, 0);
        UnmapFreed(old(State()), State(), root, va / PAGE_SIZE, Ppn(e));
      } else {
        tables := PutEntry(tables, table, k, 0);
        UnmapKept(old(State()), State(), root, va / PAGE_SIZE);
      }
      ok := true;
    }

    /** The loop of unmap_pages, over `n` pages from page `lo` on. */
    method UnmapLoop(root: nat, va: nat, last: nat, freeIt: bool, ghost lo: nat, ghost n: nat) returns (r: Outcome)
      requires Valid() && IsRoot(owner, root) && va == lo * PAGE_SIZE
      requires if n == 0 then last <= va else last == (lo + n) * PAGE_SIZE
      requires RangeSuits(State(), root, lo, n, freeIt)
      modifies this
      ensures r == Done || r == Panicked
      ensures r == Done <==> old(RangeMapped(tables, root, lo, n))
      ensures r == Done ==> Valid() && Unmapped(old(State()), State(), root, lo, n)
    {
      ghost var s := State();
      UnmappedNothing(s, root, lo);
      var cur := va;
      ghost var k := 0;
      hide ValidMem, Entry, Unmapped, Suits, RangeSuits, RangeMapped;
      RangeMappedParts(tables, root, lo, 0, n);
      while cur < last
        invariant cur == (lo + k) * PAGE_SIZE && k <= n
        invariant Valid() && Unmapped(s, State(), root, lo, k) && IsRoot(owner, root)
        invariant RangeMapped(s.tables, root, lo, k)
      {
        ghost var t := State();
        UnmapReady(s, t, root, lo, k, n, freeIt);
        var ok := UnmapPage(root, cur, freeIt);
        if !ok {
          return Panicked;
        }
        UnmappedNext(s, t, State(), root, lo, k);
        cur := cur + PAGE_SIZE;
        k := k + 1;
      }
      r := Done;
    }

    /** unmap_pages: removes a range of pages from the flat map, giving back their frames
        when asked to. It panics exactly when the range is not aligned or not fully mapped. */
    method UnmapPages(root: nat, va: nat, size: nat, freeIt: bool) returns (r: Outcome)
      requires Valid() && IsRoot(owner, root) && va < WORD && size < WORD
      requires RangeSuits(State(), root, va / PAGE_SIZE, Span(va, size), freeIt)
      modifies this
      ensures r == Done || r == Panicked
      ensures r == Done <==> Aligned(va, size) && old(RangeMapped(tables, root, va / PAGE_SIZE, Span(va, size)))
      ensures r == Done ==> Valid() && Unmapped(old(State()), State(), root, va / PAGE_SIZE, Span(va, size))
    {
      if va % PAGE_SIZE != 0 || size % PAGE_SIZE != 0 {
        return Panicked;
      }
      hide ValidMem, Unmapped, RangeSuits, RangeMapped, Span, IsRoot;
      RangeEnds(va, size);
      r := UnmapLoop(root, va, (va + size) % WORD, freeIt, va / PAGE_SIZE, Span(va, size));
    }
  
    /** One round of map_pages. */
    method MapPage(root: nat, va: nat, pa: nat, perm: nat) returns (r: Outcome)
      requires Valid() && IsRoot(owner, root) && perm < 1024 && IsLeaf(perm)
      modifies this
      ensures Valid()
      ensures r == Failed ==> Walked(old(State()), State(), root) && (va >= MAX_VADDR || free == [])
      ensures r == Panicked ==> va < MAX_VADDR && old(Entry(tables, root, va / PAGE_SIZE)) != 0
      ensures r == Done ==> va < MAX_VADDR && old(Entry(tables, root, va / PAGE_SIZE)) == 0
      ensures r == Done ==> Mapped(old(State()), State(), root, va / PAGE_SIZE, 1, pa / PAGE_SIZE, perm)
      ensures r == Done ==> |old(free)| == |free| + old(Missing(tables, root, va / PAGE_SIZE))
      ensures r == Failed && va < MAX_VADDR ==> |old(free)| < old(Missing(tables, root, va / PAGE_SIZE))
    {
      hide Forest, TableAt, Bottom, LeafEntry, Missing;
      var table, k := Walk(root, va, true);
      if table == 0 {
        return Failed;
      }
      ghost var v := va / PAGE_SIZE;
      assert IsRoot(owner, root);
      MappedIsLeaf(State(), root, v);
      assert Entry(tables, root, v) == old(Entry(tables, root, v));
      assert Entry(tables, root, v) == tables[table][k];
      hide Walked, Mapped, Entry;
      if IsValid(tables[table][k]) {
        return Panicked;
      }
      ghost var t := State();
      tables := PutEntry(tables, table, k, LeafEntry(pa / PAGE_SIZE, perm));
      FillIsMap(t, State(), root, v, pa / PAGE_SIZE, perm);
      WalkedThenMapped(old(State()), t, State(), root, v, pa / PAGE_SIZE, perm);
      r := Done;
    }
  
    /** map_pages gives up: the pages mapped so far are unmapped again. */
    method UndoMap(root: nat, va: nat, size: nat, ghost s: Mem, ghost n: nat, ghost page: nat, ghost perm: nat)
        returns (r: Outcome)
      requires Valid() && IsRoot(owner, root) && va % PAGE_SIZE == 0 && size == n * PAGE_SIZE && va + size < WORD
      requires perm < 1024 && IsLeaf(perm) && ValidMem(s) && IsRoot(s.owner, root)
      requires Mapped(s, State(), root, va / PAGE_SIZE, n, page, perm) && RangeEmpty(s.tables, root, va / PAGE_SIZE, n)
      modifies this
      ensures r == Done && Valid() && Walked(s, State(), root)
      ensures old(free) == [] ==> free == []
    {
      ghost var lo := va / PAGE_SIZE;
      assert Span(va, size) == n;
      hide ValidMem, Mapped, RangeEmpty, RangeMapped, RangeSuits, Walked, Frames, Span, Unmapped, IsLeaf, IsRoot;
      MappedIsRange(s, State(), root, lo, n, page, perm);
      r := UnmapPages(root, va, size, false);
      MappedThenUnmapped(s, old(State()), State(), root, lo, n, page, perm);
    }

    /** One round of map_pages with its way out: the range [lo, lo + k) is mapped already. */
    method MapStep(root: nat, va: nat, cur: nat, at: nat, perm: nat,
                   ghost s: Mem, ghost lo: nat, ghost k: nat, ghost n: nat, ghost pa: nat) returns (r: Outcome)
      requires Valid() && IsRoot(owner, root) && perm < 1024 && IsLeaf(perm) && ValidMem(s) && IsRoot(s.owner, root)
      requires va == lo * PAGE_SIZE && cur == (lo + k) * PAGE_SIZE < WORD && at == pa + k * PAGE_SIZE && k < n
      requires Mapped(s, State(), root, lo, k, pa / PAGE_SIZE, perm) && RangeEmpty(s.tables, root, lo, k)
      modifies this
      ensures r == Done ==> Valid() && IsRoot(owner, root)
      ensures r == Done ==>
                Mapped(s, State(), root, lo, k + 1, pa / PAGE_SIZE, perm) && RangeEmpty(s.tables, root, lo, k + 1)
      ensures r == Failed ==> Valid() && Walked(s, State(), root) && (free == [] || cur >= MAX_VADDR)
      ensures r == Panicked ==> RangeTaken(s.tables, root, lo, n)
      ensures r == Done ==> lo + k < N_VPN && |old(free)| == |free| + old(Missing(tables, root, lo + k))
      ensures r == Failed && lo + k < MAX_VADDR / PAGE_SIZE ==> |old(free)| < old(Missing(tables, root, lo + k))
    {
      hide ValidMem, Entry, Mapped, Walked, RangeEmpty, RangeTaken, IsLeaf, Missing;
      ghost var t := State();
      ghost var page := pa / PAGE_SIZE;
      MapReady(s, t, root, lo, k, n, pa, perm);
      r := MapPage(root, cur, at, perm);
      if r == Failed {
        MappedThenWalked(s, t, State(), root, lo, k, page, perm);
        var _ := UndoMap(root, va, cur - va, s, k, page, perm);
      } else if r == Done {
        MappedNext(s, t, State(), root, lo, k, page, perm);
      }
    }

    /** The loop of map_pages, over `n` pages from page `lo` on. */
    method MapLoop(root: nat, va: nat, last: nat, pa: nat, perm: nat, ghost lo: nat, ghost n: nat) returns (r: Outcome)
      requires Valid() && IsRoot(owner, root) && va == lo * PAGE_SIZE && perm < 1024 && IsLeaf(perm)
      requires if n == 0 then last <= va else last == (lo + n) * PAGE_SIZE
      requires last < WORD
      modifies this
      ensures r == Done ==> Valid() && Mapped(old(State()), State(), root, lo, n, pa / PAGE_SIZE, perm)
      ensures r == Done ==> old(RangeEmpty(tables, root, lo, n))
      ensures r == Failed ==> Valid() && Walked(old(State()), State(), root)
      ensures r == Failed ==> free == [] || lo + n > MAX_VADDR / PAGE_SIZE
      ensures r == Panicked ==> old(RangeTaken(tables, root, lo, n))
      ensures r == Done ==> Paid(old(State()), State(), root, lo, n)
      ensures r == Failed ==> TooDear(old(State()), root, lo, n)
    {
      hide ValidMem, Mapped, Walked, RangeEmpty, RangeTaken, IsLeaf, IsRoot, Missing;
      ghost var s := State();
      MappedNothing(s, root, lo, pa / PAGE_SIZE, perm);
      var cur, at := va, pa;
      ghost var k := 0;
      while cur < last
        invariant cur == (lo + k) * PAGE_SIZE && at == pa + k * PAGE_SIZE && k <= n
        invariant Valid() && Mapped(s, State(), root, lo, k, pa / PAGE_SIZE, perm) && IsRoot(owner, root)
        invariant RangeEmpty(s.tables, root, lo, k)
        invariant Paid(s, State(), root, lo, k) && (k == 0 ==> State() == s)
      {
        r := MapStep(root, va, cur, at, perm, s, lo, k, n, pa);
        if r != Done {
          return;
        }
        cur, at := cur + PAGE_SIZE, at + PAGE_SIZE;
        k := k + 1;
      }
      r := Done;
    }

    /** map_pages. It panics when the range is not aligned or empty, or when a page of it is
        mapped already; when it fails, every flat map is as it was. */
    method MapPages(root: nat, va: nat, pa: nat, size: nat, perm: nat) returns (r: Outcome)
      requires Valid() && IsRoot(owner, root) && va < WORD && size < WORD && perm < 1024 && IsLeaf(perm)
      modifies this
      ensures !Aligned(va, size) || size == 0 ==> r == Panicked
      ensures r == Panicked ==>
                !Aligned(va, size) || size == 0 || old(RangeTaken(tables, root, va / PAGE_SIZE, Span(va, size)))
      ensures r == Done ==> Valid() && old(RangeEmpty(tables, root, va / PAGE_SIZE, Span(va, size)))
      ensures r == Done ==> Mapped(old(State()), State(), root, va / PAGE_SIZE, Span(va, size), pa / PAGE_SIZE, perm)
      ensures r == Failed ==> Valid() && Walked(old(State()), State(), root)
      ensures r == Failed ==> free == [] || va / PAGE_SIZE + Span(va, size) > MAX_VADDR / PAGE_SIZE
      ensures r == Done ==> Paid(old(State()), State(), root, va / PAGE_SIZE, Span(va, size))
      ensures r == Failed ==> TooDear(old(State()), root, va / PAGE_SIZE, Span(va, size))
    {
      if va % PAGE_SIZE != 0 || size % PAGE_SIZE != 0 || size == 0 {
        return Panicked;
      }
      hide ValidMem, Mapped, Walked, RangeEmpty, RangeTaken, IsLeaf, IsRoot, Span, Paid, TooDear;
      RangeEnds(va, size);
      r := MapLoop(root, va, (va + size) % WORD, pa, perm, va / PAGE_SIZE, Span(va, size));
    }
  }
}
