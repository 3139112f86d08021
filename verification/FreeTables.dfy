/** Giving back all tables of a tree: the facts behind free_page_table. */
module FreeTables {
  import opened Basics
  import opened PageTable
  import opened VirtualMemory

  /** Whether one table lies in the subtree of another one. */
  predicate AtOrBelow(u: Use, w: Use) {
    match u
    case Root => true
    case Mid(i) => w == Mid(i) || (w.Low? && w.i == i)
    case Low(_, _) => w == u
    case Data(_) => false
  }

  /** The tables of a subtree. */
  ghost function Subtree(o: Owners, root: nat, u: Use): set<nat> {
    set p | p in o && o[p].root == root && IsTable(o[p].use) && AtOrBelow(u, o[p].use)
  }

  /** The tables below the first `n` entries of a table. */
  ghost function Cut(o: Owners, root: nat, u: Use, n: nat): set<nat> {
    set p | p in o && o[p].root == root && IsTable(o[p].use) && AtOrBelow(u, o[p].use) && o[p].use != u
            && EntryAbove(u, o[p].use) < n
  }

  /** The entry of table `u` under which table `w` lies. */
  function EntryAbove(u: Use, w: Use): nat {
    if u.Root? && (w.Mid? || w.Low?) then w.i else if u.Mid? && w.Low? then w.j else 0
  }

  /** The entry of table `u` that leads to a virtual page. */
  function Index(u: Use, v: nat): nat {
    if u.Root? then Top(v) else if u.Mid? then Middle(v) else Bottom(v)
  }

  predicate Covers(u: Use, v: nat) {
    match u
    case Root => true
    case Mid(i) => Top(v) == i
    case Low(i, j) => Top(v) == i && Middle(v) == j
    case Data(_) => false
  }

  /** Some virtual page reached through the first `n` entries of a table is mapped. */
  ghost predicate LeafIn(m: Tables, root: nat, u: Use, n: nat) {
    exists v: nat :: v < N_VPN && Covers(u, v) && Index(u, v) < n && Entry(m, root, v) != 0
  }

  /** Some virtual page below a table is mapped. */
  ghost predicate HasLeaf(m: Tables, root: nat, u: Use) {
    exists v: nat :: v < N_VPN && Covers(u, v) && Entry(m, root, v) != 0
  }

  lemma LeafInAll(m: Tables, root: nat, u: Use)
    requires IsTable(u)
    ensures !LeafIn(m, root, u, 0)
    ensures LeafIn(m, root, u, N_ENTRIES) <==> HasLeaf(m, root, u)
  {
  }

  lemma LeafInNext(m: Tables, root: nat, u: Use, i: nat)
    requires u.Root? || u.Mid?
    ensures LeafIn(m, root, u, i + 1) <==> LeafIn(m, root, u, i) || HasLeaf(m, root, Below(u, i))
  {
  }

  /** A lowest-level entry is the entry of one virtual page. */
  lemma LeafInLow(m: Tables, root: nat, i: nat, j: nat, k: nat)
    requires i < N_ENTRIES && j < N_ENTRIES && k < N_ENTRIES
    ensures LeafIn(m, root, Low(i, j), k + 1) <==>
              LeafIn(m, root, Low(i, j), k) || At(m, TableAt(m, root, Low(i, j)))[k] != 0
  {
    var u, v := Low(i, j), (i * 512 + j) * 512 + k;
    assert v < N_VPN && Top(v) == i && Middle(v) == j && Bottom(v) == k;
    hide TableAt, Top, Middle, Bottom;
    assert Entry(m, root, v) == At(m, TableAt(m, root, u))[k];
    if LeafIn(m, root, u, k + 1) && !LeafIn(m, root, u, k) {
      var w: nat :| w < N_VPN && Covers(u, w) && Index(u, w) < k + 1 && Entry(m, root, w) != 0;
      IndicesAreInjective(v, w);
    }
    hide Entry;
  }

  /** The first `n` entries of table `page` are gone, with all tables below them. */
  ghost predicate Pruned(s: Mem, t: Mem, root: nat, u: Use, page: nat, n: nat) {
    && t.owner == s.owner - Cut(s.owner, root, u, n)
    && Pages(t.free) == Pages(s.free) + Cut(s.owner, root, u, n)
    && t.bytes == s.bytes && t.tables.Keys == s.tables.Keys && page in s.tables
    && (forall p | p in s.tables && p !in Cut(s.owner, root, u, n) && p != page :: t.tables[p] == s.tables[p])
    && (forall k | 0 <= k < n && k < N_ENTRIES :: t.tables[page][k] == 0)
    && (forall k | n <= k < N_ENTRIES :: t.tables[page][k] == s.tables[page][k])
  }

  /** All tables of a subtree are free, and nothing else changed. */
  ghost predicate Freed(s: Mem, t: Mem, root: nat, u: Use) {
    && t.owner == s.owner - Subtree(s.owner, root, u)
    && Pages(t.free) == Pages(s.free) + Subtree(s.owner, root, u)
    && t.bytes == s.bytes && t.tables.Keys == s.tables.Keys
    && forall p | p in s.tables && p !in Subtree(s.owner, root, u) :: t.tables[p] == s.tables[p]
  }

  /** The state once the entry above a freed subtree is cleared. */
  ghost function Cleared(t: Mem, parent: nat, i: nat): Mem
    requires parent in t.tables && i < N_ENTRIES
  {
    t.(tables := PutEntry(t.tables, parent, i, 0))
  }

  /** A freed subtree leaves a consistent memory behind once the entry above it is cleared;
      no flat map changes. */
  ghost predicate FreedBelow(s: Mem, t: Mem, root: nat, u: Use, parent: nat, i: nat) {
    && Freed(s, t, root, u)
    && parent in t.tables && i < N_ENTRIES
    && ValidMem(Cleared(t, parent, i)) && SameFlat(s.tables, Cleared(t, parent, i).tables, s.owner)
  }

  lemma PrunedNothing(s: Mem, root: nat, u: Use, page: nat)
    requires ValidMem(s) && page in s.owner
    ensures Pruned(s, s, root, u, page, 0) && SameFlat(s.tables, s.tables, s.owner)
  {
  }

  lemma CutNext(o: Owners, root: nat, u: Use, i: nat)
    requires u.Root? || u.Mid?
    ensures Cut(o, root, u, i + 1) == Cut(o, root, u, i) + Subtree(o, root, Below(u, i))
    ensures Subtree(o - Cut(o, root, u, i), root, Below(u, i)) == Subtree(o, root, Below(u, i))
  {
  }

  /** A lowest-level table has no tables below it. */
  lemma CutLow(o: Owners, root: nat, u: Use, i: nat)
    requires u.Low?
    ensures Cut(o, root, u, i) == {}
  {
  }

  /** No table is owned below an empty entry. */
  lemma EmptyEntry(s: Mem, root: nat, u: Use, i: nat)
    requires ValidMem(s) && (u.Root? || u.Mid?) && IsTable(Below(u, i)) && TableAt(s.tables, root, Below(u, i)) == 0
    ensures Subtree(s.owner, root, Below(u, i)) == {}
  {
  }

  lemma PrunedSkip(s: Mem, t: Mem, root: nat, u: Use, page: nat, i: nat)
    requires Pruned(s, t, root, u, page, i) && i < N_ENTRIES && t.tables[page][i] == 0
    requires u.Low? || ((u.Root? || u.Mid?) && Subtree(t.owner, root, Below(u, i)) == {})
    ensures Pruned(s, t, root, u, page, i + 1)
  {
    if u.Low? {
      CutLow(s.owner, root, u, i);
      CutLow(s.owner, root, u, i + 1);
    } else {
      CutNext(s.owner, root, u, i);
    }
    hide Cut, Subtree;
  }

  lemma PrunedChild(s: Mem, t: Mem, v: Mem, root: nat, u: Use, page: nat, i: nat)
    requires Pruned(s, t, root, u, page, i) && (u.Root? || u.Mid?) && i < N_ENTRIES
    requires Freed(t, v, root, Below(u, i)) && page !in Subtree(t.owner, root, Below(u, i)) && page in v.tables
    ensures Pruned(s, Cleared(v, page, i), root, u, page, i + 1)
  {
    hide Cut, Subtree, Pages;
    CutNext(s.owner, root, u, i);
    assert v.owner == s.owner - Cut(s.owner, root, u, i + 1);
  }

  /** Table `page` hangs below entry `i` of table `parent`. */
  ghost predicate Hangs(o: Owners, page: nat, parent: nat, i: nat) {
    && page in o && parent in o && (o[parent].use.Root? || o[parent].use.Mid?) && i < N_ENTRIES
    && o[page] == Place(o[parent].root, Below(o[parent].use, i))
  }

  /** A subtree is its topmost table and the tables below the entries of that table. */
  lemma CutAll(s: Mem, root: nat, u: Use, page: nat)
    requires ValidMem(s) && page in s.owner && s.owner[page] == Place(root, u) && IsTable(u)
    ensures Subtree(s.owner, root, u) == Cut(s.owner, root, u, N_ENTRIES) + {page}
    ensures page !in Cut(s.owner, root, u, N_ENTRIES)
  {
    assert PlacedAt(s.tables, s.owner, page);
    hide TableAt, Entry, Reached;
    forall p | p in Subtree(s.owner, root, u) ensures p == page || p in Cut(s.owner, root, u, N_ENTRIES) {
      assert PlacedAt(s.tables, s.owner, p);
      hide PlacedAt;
    }
    hide PlacedAt;
  }

  /** Freeing the table itself completes the subtree. */
  lemma PrunedEnd(s: Mem, t: Mem, root: nat, u: Use, page: nat)
    requires ValidMem(s) && page in s.owner && s.owner[page] == Place(root, u) && IsTable(u)
    requires Pruned(s, t, root, u, page, N_ENTRIES)
    ensures Freed(s, Mem([page] + t.free, t.tables, t.bytes, t.owner - {page}), root, u)
  {
    hide Subtree, Cut, ValidMem, Pages, Distinct, IsTable;
    CutAll(s, root, u, page);
    Popped([page] + t.free, page, t.free);
    var n := Mem([page] + t.free, t.tables, t.bytes, t.owner - {page});
    assert n.owner == s.owner - Subtree(s.owner, root, u);
  }

  lemma PrunedPage(s: Mem, t: Mem, root: nat, u: Use, page: nat)
    requires ValidMem(s) && page in s.owner && s.owner[page] == Place(root, u) && IsTable(u)
    requires Pruned(s, t, root, u, page, N_ENTRIES)
    ensures page in t.owner && t.owner[page] == Place(root, u) && AllZero(t.tables[page])
  {
    hide Subtree, Cut, ValidMem, IsTable;
    CutAll(s, root, u, page);
  }

  lemma PrunedRoot(s: Mem, t: Mem, root: nat)
    requires ValidMem(s) && ValidMem(t) && IsRoot(s.owner, root) && SameFlat(s.tables, t.tables, s.owner)
    requires Pruned(s, t, root, Root, root, N_ENTRIES)
    ensures var n := Mem([root] + t.free, t.tables, t.bytes, t.owner - {root});
            ValidMem(n) && Freed(s, n, root, Root) && forall p | p in t.owner && t.owner[p].root == root :: p == root
  {
    hide Forest, Pruned, Freed, AllZero, Distinct;
    PrunedEnd(s, t, root, Root, root);
    PrunedPage(s, t, root, Root, root);
    OwnedTable(t.tables, t.owner, root);
    RootIsGivenUp(t.tables, t.owner, root);
    Popped([root] + t.free, root, t.free);
  }

  lemma PrunedTable(s: Mem, t: Mem, root: nat, u: Use, page: nat, parent: nat, i: nat)
    requires ValidMem(s) && ValidMem(t) && SameFlat(s.tables, t.tables, s.owner)
    requires Hangs(s.owner, page, parent, i) && s.owner[page] == Place(root, u) && IsTable(u)
    requires Pruned(s, t, root, u, page, N_ENTRIES)
    ensures FreedBelow(s, Mem([page] + t.free, t.tables, t.bytes, t.owner - {page}), root, u, parent, i)
  {
    hide ValidMem, Freed, TableAt, Entry, Subtree;
    PrunedEnd(s, t, root, u, page);
    PrunedPage(s, t, root, u, page);
    assert parent in t.owner && forall r | IsRoot(s.owner, r) :: IsRoot(t.owner, r);
    hide Pruned, Cut;
    ClearedIsValid(t, page, parent, i);
    forall r, v: nat | IsRoot(s.owner, r) && v < N_VPN
      ensures Entry(s.tables, r, v) == Entry(PutEntry(t.tables, parent, i, 0), r, v)
    {
      assert Entry(s.tables, r, v) == Entry(t.tables, r, v);
    }
  }

  /** Freeing an empty table and clearing the entry above it. */
  lemma ClearedIsValid(t: Mem, page: nat, parent: nat, i: nat)
    requires ValidMem(t) && Hangs(t.owner, page, parent, i) && page in t.tables && AllZero(t.tables[page])
    ensures parent in t.tables
    ensures ValidMem(Mem([page] + t.free, PutEntry(t.tables, parent, i, 0), t.bytes, t.owner - {page}))
    ensures SameFlat(t.tables, PutEntry(t.tables, parent, i, 0), t.owner)
  {
    hide TableAt, Entry, Forest, AllZero, Distinct;
    UseIsTable(t.tables, t.owner, parent);
    OwnedTable(t.tables, t.owner, parent);
    UnlinkKeepsForest(t.tables, t.owner, parent, i, page);
    Popped([page] + t.free, page, t.free);
    forall r, v: nat | IsRoot(t.owner, r) && v < N_VPN
      ensures Entry(t.tables, r, v) == Entry(PutEntry(t.tables, parent, i, 0), r, v)
    {
      UnlinkKeepsFlat(t.tables, t.owner, parent, i, page, r, v);
    }
  }

  lemma SameLeaves(s: Mem, t: Mem, root: nat, u: Use)
    requires SameFlat(s.tables, t.tables, s.owner) && IsRoot(s.owner, root)
    ensures HasLeaf(s.tables, root, u) <==> HasLeaf(t.tables, root, u)
  {
  }

  /** At the lowest level an entry is empty or maps a page. */
  lemma LowEntry(s: Mem, t: Mem, root: nat, u: Use, page: nat, i: nat)
    requires ValidMem(s) && ValidMem(t) && u.Low? && IsTable(u) && i < N_ENTRIES
    requires page in s.owner && s.owner[page] == Place(root, u) && page in t.tables
    requires Pruned(s, t, root, u, page, i) && !LeafIn(s.tables, root, u, i)
    ensures LeafIn(s.tables, root, u, i + 1) <==> t.tables[page][i] != 0
    ensures t.tables[page][i] == 0 ==> Pruned(s, t, root, u, page, i + 1)
    ensures t.tables[page][i] != 0 ==> HasLeaf(s.tables, root, u)
    ensures t.tables[page][i] == 0 || (IsValid(t.tables[page][i]) && IsLeaf(t.tables[page][i]))
  {
    hide TableAt, Forest, LeafIn, HasLeaf, Entry, Subtree, Cut, IsLeaf, IsValid;
    OwnedTable(s.tables, s.owner, page);
    LeafInLow(s.tables, root, u.i, u.j, i);
    if t.tables[page][i] == 0 {
      PrunedSkip(s, t, root, u, page, i);
    } else {
      LeafInMore(s.tables, root, u, i + 1);
    }
  }

  lemma LeafInMore(m: Tables, root: nat, u: Use, n: nat)
    ensures LeafIn(m, root, u, n) ==> HasLeaf(m, root, u)
  {
  }

  /** An empty entry of an upper table is passed over: nothing hangs below it. */
  lemma ZeroEntry(s: Mem, t: Mem, root: nat, u: Use, page: nat, i: nat)
    requires ValidMem(t) && IsRoot(s.owner, root) && (u.Root? || u.Mid?) && IsTable(u) && i < N_ENTRIES
    requires page in t.tables
    requires Pruned(s, t, root, u, page, i) && SameFlat(s.tables, t.tables, s.owner) && !LeafIn(s.tables, root, u, i)
    requires t.tables[page][i] == 0 && TableAt(t.tables, root, Below(u, i)) == 0
    ensures Pruned(s, t, root, u, page, i + 1) && !LeafIn(s.tables, root, u, i + 1)
  {
    hide Pruned, SameFlat, LeafIn, HasLeaf, Forest;
    EmptyEntry(t, root, u, i);
    PrunedSkip(s, t, root, u, page, i);
    NoTableNoLeaf(t.tables, root, u, i);
    SameLeaves(s, t, root, Below(u, i));
    LeafInNext(s.tables, root, u, i);
  }

  lemma NoTableNoLeaf(m: Tables, root: nat, u: Use, i: nat)
    requires 0 !in m && (u.Root? || u.Mid?) && IsTable(u) && i < N_ENTRIES && TableAt(m, root, Below(u, i)) == 0
    ensures !HasLeaf(m, root, Below(u, i))
  {
  }

  /** A freed child and its cleared entry are one more step. */
  lemma PrunedStep(s: Mem, t: Mem, v: Mem, root: nat, u: Use, page: nat, i: nat)
    requires (u.Root? || u.Mid?) && i < N_ENTRIES && page in t.owner && t.owner[page] == Place(root, u)
    requires Pruned(s, t, root, u, page, i) && SameFlat(s.tables, t.tables, s.owner)
    requires FreedBelow(t, v, root, Below(u, i), page, i)
    ensures page in v.tables && ValidMem(Cleared(v, page, i))
    ensures Pruned(s, Cleared(v, page, i), root, u, page, i + 1)
    ensures SameFlat(s.tables, Cleared(v, page, i).tables, s.owner)
    ensures page in v.owner && v.owner[page] == Place(root, u)
  {
    hide ValidMem, Entry;
    assert page !in Subtree(t.owner, root, Below(u, i));
    assert forall r | IsRoot(s.owner, r) :: IsRoot(t.owner, r);
    PrunedChild(s, t, v, root, u, page, i);
    hide Pruned, Subtree, Pages;
  }

  /** One round of free_page_table's loop over the entries of a table. */
  method FreeEntry(mem: Memory, page: nat, i: nat, ghost s: Mem, ghost root: nat, ghost u: Use) returns (r: Outcome)
    requires mem.Valid() && ValidMem(s) && i < N_ENTRIES && IsTable(u)
    requires page in s.owner && s.owner[page] == Place(root, u) && page in mem.owner
    requires mem.owner[page] == Place(root, u)
    requires Pruned(s, mem.State(), root, u, page, i) && SameFlat(s.tables, mem.tables, s.owner)
    requires !LeafIn(s.tables, root, u, i)
    modifies mem
    ensures r == Done || r == Panicked
    ensures r == Done ==>
              mem.Valid() && Pruned(s, mem.State(), root, u, page, i + 1) && SameFlat(s.tables, mem.tables, s.owner)
    ensures r == Done ==> page in mem.owner && mem.owner[page] == Place(root, u) && !LeafIn(s.tables, root, u, i + 1)
    ensures r == Panicked ==> HasLeaf(s.tables, root, u)
    decreases Height(u), 0
  {
    hide TableAt, Forest, Freed, LeafIn, HasLeaf, SameFlat, IsLeaf, IsValid, Pruned, FreedBelow;
    ghost var t := mem.State();
    OwnedTable(s.tables, s.owner, page);
    OwnedTable(mem.tables, mem.owner, page);
    var e := mem.tables[page][i];
    LeafFlags(e);
    if u.Low? {
      LowEntry(s, t, root, u, page, i);
    } else {
      TableBelow(mem.tables, mem.owner, page, i);
      LeafInNext(s.tables, root, u, i);
      LeafInMore(s.tables, root, u, i + 1);
      SameLeaves(s, t, root, Below(u, i));
    }
    hide ValidMem;
    if IsValid(e) && !IsLeaf(e) {
      r := FreePageTable(mem, Ppn(e), root, Below(u, i), page, i);
      if r == Panicked {
        return;
      }
      PrunedStep(s, t, mem.State(), root, u, page, i);
      mem.tables := PutEntry(mem.tables, page, i, 0);
    } else if IsValid(e) {
      return Panicked;
    } else if !u.Low? {
      ZeroEntry(s, t, root, u, page, i);
    }
    r := Done;
  }

  function Height(u: Use): nat {
    if u.Root? then 2 else if u.Mid? then 1 else 0
  }

  /** free_page_table: gives back every table of a subtree; it panics exactly when some page
      below it is still mapped. */
  method FreePageTable(mem: Memory, page: nat, ghost root: nat, ghost u: Use, ghost parent: nat, ghost at: nat)
      returns (r: Outcome)
    requires mem.Valid() && page in mem.owner && mem.owner[page] == Place(root, u) && IsTable(u)
    requires if u.Root? then page == root else Hangs(mem.owner, page, parent, at)
    modifies mem
    ensures r == Done || r == Panicked
    ensures r == Panicked <==> old(HasLeaf(mem.tables, root, u))
    ensures r == Done && u.Root? ==> mem.Valid() && Freed(old(mem.State()), mem.State(), root, Root)
    ensures r == Done && u.Root? ==> SameFlat(old(mem.tables), mem.tables, old(mem.owner))
    ensures r == Done && !u.Root? ==> FreedBelow(old(mem.State()), mem.State(), root, u, parent, at)
    decreases Height(u), 1
  {
    hide ValidMem, Pruned, Freed, FreedBelow, LeafIn, HasLeaf, SameFlat, Hangs, IsTable;
    ghost var s := mem.State();
    PrunedNothing(s, root, u, page);
    LeafInAll(s.tables, root, u);
    var i := 0;
    while i < N_ENTRIES
      invariant 0 <= i <= N_ENTRIES
      invariant mem.Valid() && Pruned(s, mem.State(), root, u, page, i) && SameFlat(s.tables, mem.tables, s.owner)
      invariant page in mem.owner && mem.owner[page] == Place(root, u) && !LeafIn(s.tables, root, u, i)
    {
      r := FreeEntry(mem, page, i, s, root, u);
      if r == Panicked {
        return;
      }
      i := i + 1;
    }
    if u.Root? {
      PrunedRoot(s, mem.State(), root);
    } else {
      PrunedTable(s, mem.State(), root, u, page, parent, at);
    }
    mem.owner := mem.owner - {page};
    mem.free := [page] + mem.free;
    r := Done;
  }
}
