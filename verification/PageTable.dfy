/** Sv39 page tables (section 4.4 of the RISC-V Privileged Architecture) as a forest of table
    pages, and the flat map from virtual page numbers to entries that each tree stands for. */
module PageTable {
  import opened Basics

  const PAGE_SIZE := 4096
  const N_ENTRIES := 512
  /** Virtual addresses stop at 2^38; the tables could hold 2^27 pages. */
  const MAX_VADDR := 0x40_0000_0000
  const N_VPN := 0x800_0000

  /** An entry: a page number times 1024 plus ten flag bits. */
  type Pte = nat
  type Table = s: seq<Pte> | |s| == N_ENTRIES witness seq(N_ENTRIES, _ => 0)
  /** The table pages of physical memory, by page number. */
  type Tables = map<nat, Table>

  function Empty(): Table { seq(N_ENTRIES, _ => 0) }

  predicate IsValid(e: Pte) { e % 2 == 1 }

  predicate IsLeaf(e: Pte) { e / 2 % 8 != 0 }

  predicate IsWritable(e: Pte) { e / 4 % 2 == 1 }

  predicate IsUser(e: Pte) { e / 16 % 2 == 1 }

  function Ppn(e: Pte): nat { e / 1024 }

  function Flags(e: Pte): nat { e % 1024 }

  function Branch(page: nat): Pte { page * 1024 + 1 }

  lemma BranchIs(page: nat)
    ensures IsValid(Branch(page)) && Flags(Branch(page)) == 1 && Ppn(Branch(page)) == page
  {
  }

  lemma LeafFlags(e: Pte)
    ensures IsLeaf(e) ==> Flags(e) != 1
    ensures !IsValid(0)
  {
  }

  /** An entry for a page with some permissions; the valid bit is always added. */
  function LeafEntry(page: nat, perm: nat): Pte
    requires perm < 1024
  {
    page * 1024 + if perm % 2 == 1 then perm else perm + 1
  }

  /** The index that a virtual page number selects at each level. */
  function Top(v: nat): nat { v / 0x4_0000 }

  function Middle(v: nat): nat { v / 512 % 512 }

  function Bottom(v: nat): nat { v % 512 }

  function ShiftRight(x: nat, n: nat): nat { if n == 0 then x else ShiftRight(x / 2, n - 1) }

  /** Bitwise and. */
  function BitAnd(x: nat, m: nat): nat {
    if m == 0 then 0 else 2 * BitAnd(x / 2, m / 2) + if x % 2 == 1 && m % 2 == 1 then 1 else 0
  }

  lemma NextBit(x: nat, p: nat, d: nat)
    requires 0 < p && d == 2 * p
    ensures BitAnd(x, d - 1) == 2 * BitAnd(x / 2, p - 1) + x % 2
  {
    assert (d - 1) / 2 == p - 1 && (d - 1) % 2 == 1;
  }

  /** Shifting to the right divides by a power of two, and a mask of low ones leaves the
      remainder. */
  lemma {:induction false} ShiftDivides(x: nat, n: nat)
    ensures ShiftRight(x, n) == x / Pow2(n)
  {
    if n > 0 {
      ShiftDivides(x / 2, n - 1);
      HalvedFirst(x, Pow2(n - 1), Pow2(n));
    }
  }

  lemma {:induction false} MaskLeavesRemainder(x: nat, n: nat)
    ensures BitAnd(x, Pow2(n) - 1) == x % Pow2(n)
  {
    if n == 0 {
      assert Pow2(n) == 1 && BitAnd(x, 0) == 0;
    } else {
      PowNext(n);
      MaskLeavesRemainder(x / 2, n - 1);
      MaskNext(x, Pow2(n - 1), Pow2(n));
    }
  }

  lemma MaskNext(x: nat, p: nat, d: nat)
    requires 0 < p && d == 2 * p && BitAnd(x / 2, p - 1) == x / 2 % p
    ensures BitAnd(x, d - 1) == x % d
  {
    hide BitAnd;
    HalvedFirst(x, p, d);
    NextBit(x, p, d);
  }

  lemma PowNext(n: nat)
    requires n > 0
    ensures Pow2(n) == 2 * Pow2(n - 1)
  {
  }

  /** Bitwise or. */
  function BitOr(x: nat, y: nat): nat {
    if x == 0 then y else if y == 0 then x
    else 2 * BitOr(x / 2, y / 2) + if x % 2 == 1 || y % 2 == 1 then 1 else 0
  }

  /** The tests of entry bits are those of the masks PTE_V, PTE_R, PTE_W, PTE_X and PTE_U, and an
      entry is a page number above ten flags. */
  lemma PteBits(e: Pte)
    ensures IsValid(e) <==> BitAnd(e, 0x01) != 0
    ensures IsLeaf(e) <==> BitAnd(e, 0x0e) != 0
    ensures IsWritable(e) <==> BitAnd(e, 0x04) != 0
    ensures IsUser(e) <==> BitAnd(e, 0x10) != 0
    ensures Ppn(e) == ShiftRight(e, 10) && Flags(e) == BitAnd(e, 0x3ff)
  {
    hide ShiftRight;
    PowersOfTwo();
    assert Pow2(10) == 2 * Pow2(9);
    hide Pow2;
    ShiftDivides(e, 10);
    MaskLeavesRemainder(e, 10);
    BitIs(e, 0x01);
    BitIs(e, 0x04);
    BitIs(e, 0x10);
    ReadWriteExecute(e);
  }

  lemma BitIs(e: nat, m: nat)
    requires m == 1 || m == 2 || m == 4 || m == 8 || m == 16
    ensures BitAnd(e, m) == if e / m % 2 == 1 then m else 0
  {
    if m > 1 {
      assert BitAnd(e, m) == 2 * BitAnd(e / 2, m / 2);
      BitIs(e / 2, m / 2);
      HalvedFirst(e, m / 2, m);
    } else {
      assert BitAnd(e / 2, 0) == 0;
    }
  }

  lemma ReadWriteExecute(e: nat)
    ensures BitAnd(e, 0x0e) == 2 * (e / 2 % 8)
  {
    hide BitAnd, Pow2;
    PowersOfTwo();
    assert Pow2(3) == 8 by {
      SmallPower();
    }
    MaskLeavesRemainder(e / 2, 3);
    EvenMask(e);
  }

  lemma SmallPower()
    ensures Pow2(3) == 8
  {
  }

  lemma EvenMask(e: nat)
    ensures BitAnd(e, 0x0e) == 2 * BitAnd(e / 2, 7)
  {
  }

  /** Ors of low bits leave the bits above them alone. */
  lemma {:induction false} OrBelow(p: nat, n: nat, a: nat, b: nat)
    requires a < Pow2(n) && b < Pow2(n)
    ensures BitOr(p * Pow2(n) + a, b) == p * Pow2(n) + BitOr(a, b) && BitOr(a, b) < Pow2(n)
  {
    if n == 0 {
      assert Pow2(n) == 1 && a == b == 0;
    } else {
      PowNext(n);
      hide BitOr, Pow2;
      OrBelow(p, n - 1, a / 2, b / 2);
      OrNext(a, b);
      assert p * Pow2(n) == 2 * (p * Pow2(n - 1)) by {
        Doubled(p, Pow2(n - 1), Pow2(n));
      }
      OrNext(2 * (p * Pow2(n - 1)) + a, b);
    }
  }

  lemma Doubled(p: nat, q: nat, d: nat)
    requires d == 2 * q
    ensures p * d == 2 * (p * q)
  {
  }

  lemma OrNext(x: nat, y: nat)
    ensures BitOr(x, y) == 2 * BitOr(x / 2, y / 2) + if x % 2 == 1 || y % 2 == 1 then 1 else 0
  {
  }

  /** The entry that map_pages stores is the page number with PTE_V and the permissions or'ed in. */
  lemma LeafEntryBits(page: nat, perm: nat)
    requires perm < 1024
    ensures LeafEntry(page, perm) == BitOr(BitOr(page * 1024, 0x01), perm) && Branch(page) == BitOr(page * 1024, 0x01)
    ensures Ppn(LeafEntry(page, perm)) == page && Flags(LeafEntry(page, perm)) == BitOr(0x01, perm)
  {
    PowersOfTwo();
    PowNext(10);
    assert BitOr(0, 1) == 1;
    assert BitOr(1, perm) == if perm % 2 == 1 then perm else perm + 1;
    hide BitOr, Pow2;
    OrBelow(page, 10, 0, 1);
    OrBelow(page, 10, 1, perm);
  }

  /** PX takes the nine address bits of a level. */
  function Px(va: nat, level: nat): nat
    requires level < 3
  {
    BitAnd(ShiftRight(va, 12 + 9 * level), 0x1ff)
  }

  lemma PowersOfTwo()
    ensures Pow2(9) == 512 && Pow2(12) == 0x1000 && Pow2(21) == 0x20_0000 && Pow2(30) == 0x4000_0000
  {
    assert Pow2(12) == 8 * Pow2(9);
    assert Pow2(15) == 8 * Pow2(12) && Pow2(18) == 8 * Pow2(15) && Pow2(21) == 8 * Pow2(18);
    assert Pow2(24) == 8 * Pow2(21) && Pow2(27) == 8 * Pow2(24) && Pow2(30) == 8 * Pow2(27);
  }

  lemma PxDivides(va: nat, level: nat)
    requires level < 3
    ensures Px(va, level) ==
              (if level == 2 then va / 0x4000_0000 else if level == 1 then va / 0x20_0000 else va / 0x1000) % 512
  {
    hide BitAnd, ShiftRight, Pow2;
    PowersOfTwo();
    ShiftDivides(va, 12 + 9 * level);
    MaskLeavesRemainder(ShiftRight(va, 12 + 9 * level), 9);
  }

  lemma PxIsIndex(va: nat)
    requires va < MAX_VADDR
    ensures va / PAGE_SIZE < N_VPN
    ensures Px(va, 2) == Top(va / PAGE_SIZE) && Px(va, 1) == Middle(va / PAGE_SIZE)
    ensures Px(va, 0) == Bottom(va / PAGE_SIZE)
    ensures forall level: nat | level < 3 :: Px(va, level) < N_ENTRIES
  {
    hide Px;
    PxDivides(va, 0);
    PxDivides(va, 1);
    PxDivides(va, 2);
  }

  /** Splitting a page number into three indices loses nothing. */
  lemma IndicesAreInjective(v: nat, w: nat)
    requires Top(v) == Top(w) && Middle(v) == Middle(w) && Bottom(v) == Bottom(w)
    ensures v == w
  {
  }

  /** What a physical page is used for: a table of some tree, or a page mapped at a virtual
      page number. A tree is named by the page of its root table. */
  datatype Use = Root | Mid(i: nat) | Low(i: nat, j: nat) | Data(v: nat)
  datatype Place = Place(root: nat, use: Use)
  type Owners = map<nat, Place>

  function At(m: Tables, page: nat): Table {
    if page in m then m[page] else Empty()
  }

  /** The table that an entry leads to; 0 if it leads nowhere. */
  function Child(m: Tables, page: nat, i: nat): nat
    requires i < N_ENTRIES
  {
    var e := At(m, page)[i];
    if IsValid(e) then Ppn(e) else 0
  }

  predicate IsTable(u: Use) {
    match u
    case Root => true
    case Mid(i) => i < N_ENTRIES
    case Low(i, j) => i < N_ENTRIES && j < N_ENTRIES
    case Data(_) => false
  }

  function TableAt(m: Tables, root: nat, u: Use): nat
    requires IsTable(u)
  {
    match u
    case Root => root
    case Mid(i) => Child(m, root, i)
    case Low(i, j) => Child(m, Child(m, root, i), j)
  }

  /** The flat map: the entry of a virtual page, 0 if it has none. */
  function Entry(m: Tables, root: nat, v: nat): Pte
    requires v < N_VPN
  {
    At(m, TableAt(m, root, Low(Top(v), Middle(v))))[Bottom(v)]
  }

  /** The flat map is what the three steps of a walk find, each with nine bits of the address. */
  lemma EntryIsWalk(m: Tables, root: nat, va: nat)
    requires va < MAX_VADDR
    ensures va / PAGE_SIZE < N_VPN && forall level: nat | level < 3 :: Px(va, level) < N_ENTRIES
    ensures var e2 := At(m, root)[Px(va, 2)];
            var e1 := At(m, if IsValid(e2) then Ppn(e2) else 0)[Px(va, 1)];
            Entry(m, root, va / PAGE_SIZE) == At(m, if IsValid(e1) then Ppn(e1) else 0)[Px(va, 0)]
  {
    hide Px;
    PxIsIndex(va);
  }

  predicate IsRoot(o: Owners, root: nat) {
    root in o && o[root] == Place(root, Root)
  }

  /** Every entry is either empty or an entry of the right kind for its level. */
  predicate GoodEntries(t: Table, u: Use) {
    forall i | 0 <= i < N_ENTRIES ::
      t[i] == 0 || (IsValid(t[i]) && if u.Low? then IsLeaf(t[i]) else Flags(t[i]) == 1 && Ppn(t[i]) != 0)
  }

  /** An owned page is found at its place. */
  ghost predicate PlacedAt(m: Tables, o: Owners, p: nat)
    requires p in o
  {
    && p in m && IsRoot(o, o[p].root)
    && if o[p].use.Data? then
         && o[p].use.v < N_VPN
         && Ppn(Entry(m, o[p].root, o[p].use.v)) == p && IsValid(Entry(m, o[p].root, o[p].use.v))
       else
         && IsTable(o[p].use)
         && TableAt(m, o[p].root, o[p].use) == p && GoodEntries(m[p], o[p].use)
  }

  ghost predicate Placed(m: Tables, o: Owners) {
    forall p | p in o :: PlacedAt(m, o, p)
  }

  /** Every table that can be reached is owned at the place where it is reached: no two
      entries anywhere lead to the same table. */
  ghost predicate Reached(m: Tables, o: Owners) {
    forall r, u | IsRoot(o, r) && IsTable(u) && TableAt(m, r, u) != 0 ::
      TableAt(m, r, u) in o && o[TableAt(m, r, u)] == Place(r, u)
  }

  ghost predicate Forest(m: Tables, o: Owners) {
    0 !in m && Placed(m, o) && Reached(m, o)
  }

  /** Two memories in which every tree stands for the same flat map. */
  ghost predicate SameFlat(m: Tables, n: Tables, o: Owners) {
    forall r, v: nat | IsRoot(o, r) && v < N_VPN :: Entry(m, r, v) == Entry(n, r, v)
  }

  // ------------------------------------------------------------------ writing a leaf entry

  function PutEntry(m: Tables, page: nat, i: nat, e: Pte): Tables
    requires page in m && i < N_ENTRIES
  {
    m[page := m[page][i := e]]
  }

  /** Changing an entry of a lowest-level table moves no table. */
  lemma LeafKeepsTables(m: Tables, o: Owners, page: nat, i: nat, e: Pte, r: nat, u: Use)
    requires Forest(m, o) && page in o && o[page].use.Low? && i < N_ENTRIES
    requires IsRoot(o, r) && IsTable(u)
    ensures TableAt(PutEntry(m, page, i, e), r, u) == TableAt(m, r, u)
  {
    hide GoodEntries;
    if u.Low? {
      assert TableAt(m, r, Mid(u.i)) == Child(m, r, u.i);
    }
  }

  /** Writing a leaf entry is an update of the flat map of one tree, and of nothing else. */
  lemma LeafIsUpdate(m: Tables, o: Owners, root: nat, v: nat, e: Pte, r: nat, w: nat)
    requires Forest(m, o) && IsRoot(o, root) && v < N_VPN && IsRoot(o, r) && w < N_VPN
    requires TableAt(m, root, Low(Top(v), Middle(v))) != 0
    ensures Entry(PutEntry(m, TableAt(m, root, Low(Top(v), Middle(v))), Bottom(v), e), r, w)
         == if r == root && w == v then e else Entry(m, r, w)
  {
    var u := Low(Top(v), Middle(v));
    var page := TableAt(m, root, u);
    LeafKeepsTables(m, o, page, Bottom(v), e, r, Low(Top(w), Middle(w)));
    hide TableAt, Placed, GoodEntries, Top, Middle, Bottom;
    if TableAt(m, r, Low(Top(w), Middle(w))) == page && Bottom(v) == Bottom(w) {
      IndicesAreInjective(v, w);
    }
  }

  lemma LeafKeepsPlace(m: Tables, o: Owners, root: nat, v: nat, e: Pte, p: nat)
    requires Forest(m, o) && IsRoot(o, root) && v < N_VPN
    requires TableAt(m, root, Low(Top(v), Middle(v))) != 0
    requires e == 0 || (IsValid(e) && IsLeaf(e))
    requires p in o && o[p] != Place(root, Data(v))
    ensures PlacedAt(PutEntry(m, TableAt(m, root, Low(Top(v), Middle(v))), Bottom(v), e), o, p)
  {
    var page := TableAt(m, root, Low(Top(v), Middle(v)));
    assert PlacedAt(m, o, p);
    if o[p].use.Data? {
      LeafIsUpdate(m, o, root, v, e, o[p].root, o[p].use.v);
      hide TableAt, Top, Middle, Bottom, GoodEntries, Entry, IsValid, Ppn, IsLeaf, Placed, Reached;
    } else {
      LeafKeepsTables(m, o, page, Bottom(v), e, o[p].root, o[p].use);
      hide TableAt, Top, Middle, Bottom, Entry, Placed, IsValid, IsLeaf;
    }
  }

  /** A leaf entry that no page owned as data relies on can be replaced by any leaf entry. */
  lemma LeafKeepsForest(m: Tables, o: Owners, root: nat, v: nat, e: Pte)
    requires Forest(m, o) && IsRoot(o, root) && v < N_VPN
    requires TableAt(m, root, Low(Top(v), Middle(v))) != 0
    requires e == 0 || (IsValid(e) && IsLeaf(e))
    requires forall p | p in o :: o[p] != Place(root, Data(v))
    ensures Forest(PutEntry(m, TableAt(m, root, Low(Top(v), Middle(v))), Bottom(v), e), o)
  {
    var page := TableAt(m, root, Low(Top(v), Middle(v)));
    var n := PutEntry(m, page, Bottom(v), e);
    forall p | p in o ensures PlacedAt(n, o, p) {
      LeafKeepsPlace(m, o, root, v, e, p);
    }
    hide TableAt, PlacedAt;
    forall r, u | IsRoot(o, r) && IsTable(u) ensures TableAt(n, r, u) == TableAt(m, r, u) {
      LeafKeepsTables(m, o, page, Bottom(v), e, r, u);
    }
  }

  /** Both facts about writing a leaf entry, for every tree and page. */
  lemma WriteLeaf(m: Tables, n: Tables, o: Owners, root: nat, v: nat, e: Pte)
    requires Forest(m, o) && IsRoot(o, root) && v < N_VPN
    requires e == 0 || (IsValid(e) && IsLeaf(e))
    requires forall p | p in o :: o[p] != Place(root, Data(v))
    requires TableAt(m, root, Low(Top(v), Middle(v))) in m
    requires n == PutEntry(m, TableAt(m, root, Low(Top(v), Middle(v))), Bottom(v), e)
    ensures 0 !in n && Forest(n, o) && n.Keys == m.Keys
    ensures forall r, w: nat | IsRoot(o, r) && w < N_VPN ::
              Entry(n, r, w) == if r == root && w == v then e else Entry(m, r, w)
  {
    assert 0 !in m;
    hide Forest, Entry, Bottom, TableAt, IsValid, IsLeaf;
    LeafKeepsForest(m, o, root, v, e);
    forall r, w: nat | IsRoot(o, r) && w < N_VPN
      ensures Entry(n, r, w) == if r == root && w == v then e else Entry(m, r, w)
    {
      LeafIsUpdate(m, o, root, v, e, r, w);
    }
  }

  /** Following one entry of a table leads to the table below it, if there is one. */
  lemma TableBelow(m: Tables, o: Owners, table: nat, i: nat)
    requires Forest(m, o) && table in o && (o[table].use.Root? || o[table].use.Mid?) && i < N_ENTRIES
    ensures table in m
    ensures var e, n := m[table][i], TableAt(m, o[table].root, Below(o[table].use, i));
            if n == 0 then e == 0
            else
              && IsValid(e) && !IsLeaf(e) && Ppn(e) == n
              && n in o && o[n] == Place(o[table].root, Below(o[table].use, i))
  {
    assert PlacedAt(m, o, table);
    assert TableAt(m, o[table].root, Below(o[table].use, i)) == Child(m, table, i);
    LeafFlags(m[table][i]);
    hide Placed, Entry, IsValid, IsLeaf, Flags, Ppn;
  }

  lemma NothingBelow(m: Tables, root: nat, i: nat, j: nat)
    requires 0 !in m && i < N_ENTRIES && j < N_ENTRIES && TableAt(m, root, Mid(i)) == 0
    ensures TableAt(m, root, Low(i, j)) == 0
  {
  }

  lemma NothingBelowEmpty(m: Tables, root: nat, i: nat, j: nat)
    requires i < N_ENTRIES && j < N_ENTRIES && TableAt(m, root, Mid(i)) in m && m[TableAt(m, root, Mid(i))] == Empty()
    ensures TableAt(m, root, Low(i, j)) == 0
  {
  }

  lemma UseIsTable(m: Tables, o: Owners, page: nat)
    requires Forest(m, o) && page in o && !o[page].use.Data?
    ensures IsTable(o[page].use)
  {
  }

  lemma OwnedTable(m: Tables, o: Owners, page: nat)
    requires Forest(m, o) && page in o && IsTable(o[page].use)
    ensures page in m && page != 0 && TableAt(m, o[page].root, o[page].use) == page
    ensures GoodEntries(m[page], o[page].use) && IsRoot(o, o[page].root)
  {
  }

  // ------------------------------------------------------------------ linking a new table

  /** A zeroed page becomes a table below `parent`. */
  function Link(m: Tables, parent: nat, i: nat, page: nat): Tables
    requires parent in m && i < N_ENTRIES
  {
    var n := m[page := Empty()];
    PutEntry(n, parent, i, Branch(page))
  }

  /** The use of the table below another one. */
  function Below(u: Use, i: nat): Use
    requires u.Root? || u.Mid?
  {
    if u.Root? then Mid(i) else Low(u.i, i)
  }

  predicate Linkable(m: Tables, o: Owners, parent: nat, i: nat, page: nat) {
    && parent in o && (o[parent].use.Root? || o[parent].use.Mid?) && i < N_ENTRIES
    && parent in m && m[parent][i] == 0 && page in m && page != 0 && page !in o
  }

  lemma LinkChild(m: Tables, o: Owners, parent: nat, i: nat, page: nat, q: nat, k: nat)
    requires Linkable(m, o, parent, i, page) && k < N_ENTRIES
    ensures Child(Link(m, parent, i, page), q, k)
         == if q == parent && k == i then page else if q == page then 0 else Child(m, q, k)
    ensures Child(m, parent, i) == 0
  {
    BranchIs(page);
    assert !IsValid(0);
    hide IsValid, Ppn, Branch, Flags, IsLeaf;
  }

  /** Linking adds the new table at its place and moves no other table. */
  lemma LinkTables(m: Tables, o: Owners, parent: nat, i: nat, page: nat, r: nat, u: Use)
    requires Forest(m, o) && Linkable(m, o, parent, i, page)
    requires IsRoot(o, r) && IsTable(u)
    ensures TableAt(Link(m, parent, i, page), r, u)
         == if Place(r, u) == Place(o[parent].root, Below(o[parent].use, i)) then page else TableAt(m, r, u)
  {
    var n := Link(m, parent, i, page);
    assert TableAt(m, o[parent].root, o[parent].use) == parent;
    match u
    case Root =>
    case Mid(x) => {
      hide Child, Placed, Reached, GoodEntries;
      LinkChild(m, o, parent, i, page, r, x);
    }
    case Low(x, y) => {
      assert TableAt(m, r, Mid(x)) == Child(m, r, x);
      assert Child(m, 0, y) == 0;
      hide Child, Placed, GoodEntries;
      LinkChild(m, o, parent, i, page, r, x);
      LinkChild(m, o, parent, i, page, Child(m, r, x), y);
      LinkChild(m, o, parent, i, page, page, y);
    }
  }

  /** A new table is empty, so no flat map changes. */
  lemma LinkKeepsFlat(m: Tables, o: Owners, parent: nat, i: nat, page: nat, r: nat, v: nat)
    requires Forest(m, o) && Linkable(m, o, parent, i, page) && IsRoot(o, r) && v < N_VPN
    ensures Entry(Link(m, parent, i, page), r, v) == Entry(m, r, v)
  {
    var u := Low(Top(v), Middle(v));
    LinkTables(m, o, parent, i, page, r, u);
    if Place(r, u) == Place(o[parent].root, Below(o[parent].use, i)) {
      LinkPlacesNew(m, o, parent, i, page);
      hide TableAt, Top, Middle, Bottom, Placed, Reached, PlacedAt;
    } else {
      hide TableAt, Top, Middle, Bottom, Placed, PlacedAt;
    }
  }

  lemma LinkKeepsEntries(m: Tables, o: Owners, parent: nat, i: nat, page: nat, p: nat)
    requires p in o && p in m && GoodEntries(m[p], o[p].use) && Linkable(m, o, parent, i, page)
    ensures p in Link(m, parent, i, page) && GoodEntries(Link(m, parent, i, page)[p], o[p].use)
  {
    BranchIs(page);
    hide Ppn, Branch, IsValid, Flags, IsLeaf;
  }

  lemma LinkKeepsPlace(m: Tables, o: Owners, parent: nat, i: nat, page: nat, p: nat)
    requires Forest(m, o) && Linkable(m, o, parent, i, page) && p in o
    ensures PlacedAt(Link(m, parent, i, page), o[page := Place(o[parent].root, Below(o[parent].use, i))], p)
  {
    hide TableAt, GoodEntries, Entry, IsValid, Ppn, Reached, Link;
    assert PlacedAt(m, o, p);
    if o[p].use.Data? {
      LinkKeepsFlat(m, o, parent, i, page, o[p].root, o[p].use.v);
      LinkKeepsPages(m, parent, i, page);
    } else {
      LinkPlacesNew(m, o, parent, i, page);
      LinkTables(m, o, parent, i, page, o[p].root, o[p].use);
      LinkKeepsEntries(m, o, parent, i, page, p);
    }
  }

  lemma LinkKeepsPages(m: Tables, parent: nat, i: nat, page: nat)
    requires parent in m && i < N_ENTRIES
    ensures forall p | p in m :: p in Link(m, parent, i, page)
  {
  }

  lemma LinkPlacesNew(m: Tables, o: Owners, parent: nat, i: nat, page: nat)
    requires Forest(m, o) && Linkable(m, o, parent, i, page)
    ensures PlacedAt(Link(m, parent, i, page), o[page := Place(o[parent].root, Below(o[parent].use, i))], page)
    ensures TableAt(m, o[parent].root, Below(o[parent].use, i)) == 0
    ensures TableAt(Link(m, parent, i, page), o[parent].root, Below(o[parent].use, i)) == page
  {
    assert PlacedAt(m, o, parent);
    LinkTables(m, o, parent, i, page, o[parent].root, Below(o[parent].use, i));
    assert Child(m, parent, i) == 0;
  }

  lemma LinkKeepsForest(m: Tables, o: Owners, parent: nat, i: nat, page: nat)
    requires Forest(m, o) && Linkable(m, o, parent, i, page)
    ensures Forest(Link(m, parent, i, page), o[page := Place(o[parent].root, Below(o[parent].use, i))])
  {
    var n := Link(m, parent, i, page);
    var at := Place(o[parent].root, Below(o[parent].use, i));
    var o' := o[page := at];
    LinkPlacesNew(m, o, parent, i, page);
    forall p | p in o' ensures PlacedAt(n, o', p) {
      if p != page {
        LinkKeepsPlace(m, o, parent, i, page, p);
      }
    }
    hide TableAt, PlacedAt;
    forall r, u | IsRoot(o, r) && IsTable(u)
      ensures TableAt(n, r, u) == if Place(r, u) == at then page else TableAt(m, r, u)
    {
      LinkTables(m, o, parent, i, page, r, u);
    }
  }

  // ------------------------------------------------------------------ adding and removing owners

  lemma DataIsOwned(m: Tables, o: Owners, root: nat, v: nat, page: nat)
    requires Forest(m, o) && IsRoot(o, root) && v < N_VPN && page in m && page !in o
    requires IsValid(Entry(m, root, v)) && Ppn(Entry(m, root, v)) == page
    ensures Forest(m, o[page := Place(root, Data(v))])
  {
  }

  lemma DataIsGivenUp(m: Tables, o: Owners, page: nat)
    requires Forest(m, o) && page in o && o[page].use.Data?
    ensures Forest(m, o - {page})
  {
    hide TableAt, Entry, GoodEntries;
    var n := o - {page};
    forall p | p in n ensures PlacedAt(m, n, p) {
      assert PlacedAt(m, o, p);
    }
    hide PlacedAt;
    assert forall r :: IsRoot(n, r) <==> IsRoot(o, r);
  }

  lemma EmptyRoot(m: Tables, page: nat)
    requires page in m && m[page] == Empty() && 0 !in m
    ensures forall u | IsTable(u) && !u.Root? :: TableAt(m, page, u) == 0
    ensures forall v: nat | v < N_VPN :: Entry(m, page, v) == 0
  {
  }

  /** The tables and entries of other trees do not depend on a page that is not owned. */
  lemma OtherPage(m: Tables, o: Owners, page: nat, t: Table, r: nat, u: Use)
    requires Forest(m, o) && page !in o && page in m && IsRoot(o, r) && IsTable(u)
    ensures TableAt(m[page := t], r, u) == TableAt(m, r, u)
  {
    hide GoodEntries;
    if u.Low? {
      assert TableAt(m, r, Mid(u.i)) == Child(m, r, u.i);
    }
  }

  lemma OtherPageEntry(m: Tables, o: Owners, page: nat, t: Table, r: nat, v: nat)
    requires Forest(m, o) && page !in o && page in m && IsRoot(o, r) && v < N_VPN
    ensures Entry(m[page := t], r, v) == Entry(m, r, v)
  {
    OtherPage(m, o, page, t, r, Low(Top(v), Middle(v)));
    hide TableAt, Top, Middle, Bottom, Placed;
  }

  lemma OtherPageForest(m: Tables, o: Owners, page: nat, t: Table)
    requires Forest(m, o) && page !in o && page in m
    ensures Forest(m[page := t], o)
  {
    var n := m[page := t];
    forall p | p in o ensures PlacedAt(n, o, p) {
      assert PlacedAt(m, o, p);
      if o[p].use.Data? {
        OtherPageEntry(m, o, page, t, o[p].root, o[p].use.v);
        hide Entry, TableAt, Placed, Reached;
      } else {
        OtherPage(m, o, page, t, o[p].root, o[p].use);
        hide TableAt, Entry, GoodEntries, Placed, Reached;
      }
    }
    hide TableAt, PlacedAt;
    forall r, u | IsRoot(o, r) && IsTable(u) ensures TableAt(n, r, u) == TableAt(m, r, u) {
      OtherPage(m, o, page, t, r, u);
    }
  }

  lemma RootAt(m: Tables, root: nat)
    ensures TableAt(m, root, Root) == root
  {
  }

  /** A zeroed page that nobody owns can become the root of a new, empty tree. */
  lemma RootIsNew(m: Tables, o: Owners, page: nat)
    requires Forest(m, o) && page !in o && page in m
    ensures Forest(m[page := Empty()], o[page := Place(page, Root)])
  {
    hide TableAt, Entry;
    var n := m[page := Empty()];
    var o' := o[page := Place(page, Root)];
    OtherPageForest(m, o, page, Empty());
    EmptyRoot(n, page);
    RootAt(n, page);
    assert PlacedAt(n, o', page);
    forall p | p in o ensures PlacedAt(n, o', p) {
      assert PlacedAt(n, o, p);
    }
    hide PlacedAt;
    assert forall r :: IsRoot(o', r) <==> IsRoot(o, r) || r == page;
  }

  // ------------------------------------------------------------------ removing tables

  predicate AllZero(t: Table) {
    forall i | 0 <= i < N_ENTRIES :: t[i] == 0
  }

  /** An owned table without entries hangs below `parent`. */
  ghost predicate Unlinkable(m: Tables, o: Owners, parent: nat, i: nat, page: nat) {
    && parent in o && (o[parent].use.Root? || o[parent].use.Mid?) && i < N_ENTRIES
    && page in o && o[page] == Place(o[parent].root, Below(o[parent].use, i))
    && page in m && AllZero(m[page])
    && parent in m
  }

  lemma UnlinkChild(m: Tables, o: Owners, parent: nat, i: nat, page: nat, q: nat, k: nat)
    requires Forest(m, o) && Unlinkable(m, o, parent, i, page) && k < N_ENTRIES
    ensures Child(PutEntry(m, parent, i, 0), q, k) == if q == parent && k == i then 0 else Child(m, q, k)
    ensures Child(m, page, k) == 0 && Child(m, 0, k) == 0 && Child(PutEntry(m, parent, i, 0), 0, k) == 0
    ensures Child(m, parent, i) == page
  {
  }

  lemma UnlinkTables(m: Tables, o: Owners, parent: nat, i: nat, page: nat, r: nat, u: Use)
    requires Forest(m, o) && Unlinkable(m, o, parent, i, page) && IsRoot(o, r) && IsTable(u)
    ensures TableAt(PutEntry(m, parent, i, 0), r, u) == if Place(r, u) == o[page] then 0 else TableAt(m, r, u)
  {
    assert PlacedAt(m, o, parent);
    assert TableAt(m, o[parent].root, o[parent].use) == parent;
    match u
    case Root =>
    case Mid(x) => {
      hide Child, Placed, PlacedAt, Reached;
      UnlinkChild(m, o, parent, i, page, r, x);
    }
    case Low(x, y) => {
      assert TableAt(m, r, Mid(x)) == Child(m, r, x);
      hide Child, Placed, PlacedAt;
      UnlinkChild(m, o, parent, i, page, r, x);
      UnlinkChild(m, o, parent, i, page, Child(m, r, x), y);
      UnlinkChild(m, o, parent, i, page, page, y);
    }
  }

  /** Removing an empty table changes no flat map. */
  lemma UnlinkKeepsFlat(m: Tables, o: Owners, parent: nat, i: nat, page: nat, r: nat, v: nat)
    requires Forest(m, o) && Unlinkable(m, o, parent, i, page) && IsRoot(o, r) && v < N_VPN
    ensures Entry(PutEntry(m, parent, i, 0), r, v) == Entry(m, r, v)
  {
    var u := Low(Top(v), Middle(v));
    UnlinkTables(m, o, parent, i, page, r, u);
    assert PlacedAt(m, o, page);
    if Place(r, u) == o[page] {
      hide TableAt, Top, Middle, Bottom, Placed, Reached;
    } else {
      hide TableAt, Top, Middle, Bottom, Placed, PlacedAt;
    }
  }

  lemma UnlinkKeepsPlace(m: Tables, o: Owners, parent: nat, i: nat, page: nat, p: nat)
    requires Forest(m, o) && Unlinkable(m, o, parent, i, page) && p in o && p != page
    ensures PlacedAt(PutEntry(m, parent, i, 0), o - {page}, p)
  {
    hide TableAt, GoodEntries, Entry, IsValid, Ppn, Reached, AllZero;
    assert PlacedAt(m, o, p) && PlacedAt(m, o, page);
    UnlinkKeepsRoot(m, o, parent, i, page, p);
    if o[p].use.Data? {
      UnlinkKeepsFlat(m, o, parent, i, page, o[p].root, o[p].use.v);
    } else {
      UnlinkTables(m, o, parent, i, page, o[p].root, o[p].use);
      UnlinkKeepsEntries(m, parent, i, p, o[p].use);
    }
  }

  /** A table below another one is no root. */
  lemma UnlinkKeepsRoot(m: Tables, o: Owners, parent: nat, i: nat, page: nat, p: nat)
    requires Unlinkable(m, o, parent, i, page) && p in o && IsRoot(o, o[p].root)
    ensures IsRoot(o - {page}, o[p].root)
  {
    hide AllZero;
  }

  lemma UnlinkKeepsEntries(m: Tables, parent: nat, i: nat, p: nat, u: Use)
    requires parent in m && i < N_ENTRIES && p in m && GoodEntries(m[p], u)
    ensures GoodEntries(PutEntry(m, parent, i, 0)[p], u)
  {
    hide IsValid, Flags, IsLeaf, Ppn;
  }

  lemma UnlinkKeepsForest(m: Tables, o: Owners, parent: nat, i: nat, page: nat)
    requires Forest(m, o) && Unlinkable(m, o, parent, i, page)
    ensures Forest(PutEntry(m, parent, i, 0), o - {page})
  {
    hide TableAt, AllZero;
    var n := PutEntry(m, parent, i, 0);
    forall p | p in o - {page} ensures PlacedAt(n, o - {page}, p) {
      UnlinkKeepsPlace(m, o, parent, i, page, p);
    }
    forall r, u | IsRoot(o, r) && IsTable(u)
      ensures TableAt(n, r, u) == if Place(r, u) == o[page] then 0 else TableAt(m, r, u)
    {
      UnlinkTables(m, o, parent, i, page, r, u);
    }
    assert PlacedAt(m, o, page);
    hide PlacedAt;
  }

  lemma OnlyTheRoot(m: Tables, o: Owners, root: nat, p: nat)
    requires 0 !in m && root in m && AllZero(m[root]) && p in o && o[p].root == root && PlacedAt(m, o, p)
    ensures p == root
  {
    assert m[root] == Empty();
    EmptyRoot(m, root);
    assert !IsValid(0);
    hide TableAt, Entry, IsValid, GoodEntries;
    assert p in m && p != 0;
    assert o[p].use.Root? ==> TableAt(m, root, Root) == root;
  }

  /** A tree whose root has no entries owns nothing but its root. */
  lemma RootIsGivenUp(m: Tables, o: Owners, root: nat)
    requires Forest(m, o) && IsRoot(o, root) && AllZero(m[root])
    ensures Forest(m, o - {root})
    ensures forall p | p in o && o[p].root == root :: p == root
  {
    hide TableAt, Entry, IsValid, GoodEntries;
    forall p | p in o && o[p].root == root ensures p == root {
      assert PlacedAt(m, o, p);
      OnlyTheRoot(m, o, root, p);
    }
    forall p | p in o - {root} ensures PlacedAt(m, o - {root}, p) {
      assert PlacedAt(m, o, p);
    }
    hide PlacedAt;
  }
}
