/** The argument stack of a new program: strings and pointer arrays that exec copies into the
    stack page of the new address space. */
module ExecStack {
  import opened Basics
  import opened Blocks
  import opened PageTable
  import opened VirtualMemory
  import opened UserMemory
  import opened UserCopy
  import Strings

  /** The addresses of the stack page. */
  const STACK_BASE := 0x3F_FFFF_C000
  const STACK_TOP := 0x3F_FFFF_D000
  const MAX_ARGS := 32
  const MAX_ENVS := 16

  // ------------------------------------------------------------------ pointers as bytes

  /** The eight bytes of a pointer, the least significant first. */
  function Long(x: nat): (b: seq<Byte>)
    ensures |b| == 8
  {
    Half(x % 0x1_0000_0000) + Half(x / 0x1_0000_0000 % 0x1_0000_0000)
  }

  function Half(w: Word): (b: seq<Byte>)
    ensures |b| == 4
  {
    WordSplits(w);
    [w % 0x100, w / 0x100 % 0x100, w / 0x1_0000 % 0x100, w / 0x100_0000]
  }

  function ReadHalf(b: seq<Byte>): int
    requires |b| == 4
  {
    b[0] as int + 0x100 * b[1] as int + 0x1_0000 * b[2] as int + 0x100_0000 * b[3] as int
  }

  function ReadLong(b: seq<Byte>): int
    requires |b| == 8
  {
    ReadHalf(b[..4]) + 0x1_0000_0000 * ReadHalf(b[4..])
  }

  lemma HalfRoundTrip(w: Word)
    ensures ReadHalf(Half(w)) == w
  {
    WordSplits(w);
  }

  lemma LongRoundTrip(x: nat)
    requires x < WORD
    ensures ReadLong(Long(x)) == x
  {
    hide Half, ReadHalf;
    var lo, hi := x % 0x1_0000_0000, x / 0x1_0000_0000;
    HalfRoundTrip(lo);
    HalfRoundTrip(hi);
    assert Long(x) == Half(lo) + Half(hi);
  }

  /** Byte k of a pointer is worth 256 to the power of k. */
  lemma LongBytes(x: nat)
    requires x < WORD
    ensures Long(x) == [x % 0x100, x / 0x100 % 0x100, x / 0x1_0000 % 0x100, x / 0x100_0000 % 0x100,
                        x / 0x1_0000_0000 % 0x100, x / 0x100_0000_0000 % 0x100, x / 0x1_0000_0000_0000 % 0x100,
                        x / 0x100_0000_0000_0000 % 0x100]
  {
    hide Half;
    HalfBytes(x % 0x1_0000_0000);
    HalfBytes(x / 0x1_0000_0000);
    LowerBytes(x);
    UpperBytes(x);
  }

  lemma UpperBytes(x: nat)
    requires x < WORD
    ensures var h := x / 0x1_0000_0000;
            && h < 0x1_0000_0000 && x / 0x100_0000_0000 == h / 0x100 && x / 0x1_0000_0000_0000 == h / 0x1_0000
            && x / 0x100_0000_0000_0000 == h / 0x100_0000
  {
  }

  lemma HalfBytes(w: Word)
    ensures Half(w) == [w % 0x100, w / 0x100 % 0x100, w / 0x1_0000 % 0x100, w / 0x100_0000 % 0x100]
  {
  }

  lemma LowerBytes(x: nat)
    ensures var w := x % 0x1_0000_0000;
            && w % 0x100 == x % 0x100 && w / 0x100 % 0x100 == x / 0x100 % 0x100
            && w / 0x1_0000 % 0x100 == x / 0x1_0000 % 0x100 && w / 0x100_0000 % 0x100 == x / 0x100_0000 % 0x100
  {
    var w, h := x % 0x1_0000_0000, x / 0x1_0000_0000;
    assert x == 0x1_0000_0000 * h + w;
    assert x / 0x100 == 0x100_0000 * h + w / 0x100 && x / 0x1_0000 == 0x1_0000 * h + w / 0x1_0000;
    assert x / 0x100_0000 == 0x100 * h + w / 0x100_0000;
  }

  /** An array of pointers as bytes. */
  function Longs(xs: seq<nat>): (b: seq<Byte>)
    ensures |b| == 8 * |xs|
  {
    if xs == [] then [] else Longs(xs[..|xs| - 1]) + Long(xs[|xs| - 1])
  }

  lemma {:induction false} LongsAt(xs: seq<nat>, k: nat)
    requires k < |xs|
    ensures Longs(xs)[8 * k..8 * k + 8] == Long(xs[k])
  {
    var rest := xs[..|xs| - 1];
    if k < |rest| {
      LongsAt(rest, k);
      assert Longs(xs)[8 * k..8 * k + 8] == Longs(rest)[8 * k..8 * k + 8];
    }
  }

  // ------------------------------------------------------------------ the stack page

  /** The stack page holds some bytes at a user address. */
  predicate Holds(page: Page, at: nat, data: seq<Byte>) {
    && STACK_BASE <= at && at + |data| <= STACK_TOP
    && page[at - STACK_BASE..at - STACK_BASE + |data|] == data
  }

  lemma PutHolds(page: Page, at: nat, data: seq<Byte>)
    requires STACK_BASE <= at && at + |data| <= STACK_TOP
    ensures Holds(PutBytes(page, at - STACK_BASE, data), at, data)
  {
  }

  /** Bytes above a write stay. */
  lemma PutKeeps(page: Page, at: nat, data: seq<Byte>, above: nat, more: seq<Byte>)
    requires STACK_BASE <= at && at + |data| <= above && Holds(page, above, more)
    ensures Holds(PutBytes(page, at - STACK_BASE, data), above, more)
  {
  }

  /** Copies of strings with their terminating zeros lie at aligned addresses, each as close below
      the one before as alignment to 16 allows; the last one is at `sp`. */
  predicate Copies(page: Page, ptrs: seq<nat>, strs: seq<seq<Byte>>, top: nat, sp: nat) {
    && |ptrs| <= |strs|
    && (forall i | 0 <= i < |ptrs| ::
          && Holds(page, ptrs[i], strs[i] + [0]) && ptrs[i] % 16 == 0
          && ptrs[i] + |strs[i]| + 1 <= (if i == 0 then top else ptrs[i - 1]) < ptrs[i] + |strs[i]| + 1 + 16)
    && sp == if ptrs == [] then top else ptrs[|ptrs| - 1]
  }

  lemma CopiesAbove(page: Page, ptrs: seq<nat>, strs: seq<seq<Byte>>, top: nat, sp: nat, i: nat)
    requires Copies(page, ptrs, strs, top, sp) && i < |ptrs|
    ensures sp <= ptrs[i]
    decreases |ptrs| - i
  {
    if i + 1 < |ptrs| {
      CopiesAbove(page, ptrs, strs, top, sp, i + 1);
    }
  }

  lemma CopiesAre(page: Page, ptrs: seq<nat>, strs: seq<seq<Byte>>, top: nat, sp: nat)
    requires |ptrs| <= |strs|
    requires forall i | 0 <= i < |ptrs| :: Holds(page, ptrs[i], strs[i] + [0])
    requires forall i | 0 <= i < |ptrs| ::
              && ptrs[i] % 16 == 0
              && ptrs[i] + |strs[i]| + 1 <= (if i == 0 then top else ptrs[i - 1]) < ptrs[i] + |strs[i]| + 1 + 16
    requires sp == if ptrs == [] then top else ptrs[|ptrs| - 1]
    ensures Copies(page, ptrs, strs, top, sp)
  {
  }

  /** One more copy below the others. */
  lemma CopiesMore(page: Page, ptrs: seq<nat>, strs: seq<seq<Byte>>, top: nat, sp: nat, at: nat)
    requires Copies(page, ptrs, strs, top, sp) && |ptrs| < |strs| && at % 16 == 0
    requires STACK_BASE <= at && at + |strs[|ptrs|]| + 1 <= sp < at + |strs[|ptrs|]| + 1 + 16 && sp <= STACK_TOP
    ensures Copies(PutBytes(page, at - STACK_BASE, strs[|ptrs|] + [0]), ptrs + [at], strs, top, at)
  {
    hide PutBytes;
    var k, data := |ptrs|, strs[|ptrs|] + [0];
    var n := PutBytes(page, at - STACK_BASE, data);
    var all := ptrs + [at];
    PutHolds(page, at, data);
    forall i | 0 <= i <= k
      ensures Holds(n, all[i], strs[i] + [0]) && all[i] % 16 == 0
      ensures all[i] + |strs[i]| + 1 <= if i == 0 then top else all[i - 1]
    {
      assert i > 0 ==> all[i - 1] == ptrs[i - 1];
      if i < k {
        CopiesAbove(page, ptrs, strs, top, sp, i);
        PutKeeps(page, at, data, ptrs[i], strs[i] + [0]);
      }
    }
    CopiesAre(n, all, strs, top, at);
  }

  // ------------------------------------------------------------------ reading the stack back

  lemma PointerIn(ptrs: seq<nat>, k: nat, off: nat)
    requires k < |ptrs| && ptrs[k] < WORD && off == 8 * k
    ensures off + 8 <= |Longs(ptrs)| && ReadLong(Longs(ptrs)[off..off + 8]) == ptrs[k]
  {
    hide Longs, Long, ReadLong;
    LongsAt(ptrs, k);
    LongRoundTrip(ptrs[k]);
  }

  /** The pointer that a program reads at an address of the stack page. */
  function Peek(page: Page, at: nat): int
    requires STACK_BASE <= at && at + 8 <= STACK_TOP
  {
    ReadLong(page[at - STACK_BASE..at - STACK_BASE + 8])
  }

  lemma HoldsPeek(page: Page, at: nat, data: seq<Byte>, a: nat)
    requires Holds(page, at, data) && a + 8 <= |data|
    ensures STACK_BASE <= at + a && at + a + 8 <= STACK_TOP && Peek(page, at + a) == ReadLong(data[a..a + 8])
  {
    var lo, base := at + a - STACK_BASE, at - STACK_BASE;
    var x, y, all := page[lo..lo + 8], data[a..a + 8], page[base..base + |data|];
    forall i | 0 <= i < 8 ensures x[i] == y[i] {
      assert x[i] == page[lo + i] && y[i] == all[a + i];
    }
    assert x == y;
    hide ReadLong;
  }

  /** What the program reads in a pointer array. */
  lemma PointerAt(page: Page, at: nat, ptrs: seq<nat>, k: nat, off: nat)
    requires Holds(page, at, Longs(ptrs)) && k < |ptrs| && ptrs[k] < WORD && off == 8 * k
    ensures STACK_BASE <= at + off && at + off + 8 <= STACK_TOP && Peek(page, at + off) == ptrs[k]
  {
    hide Longs, ReadLong, Peek, Holds;
    PointerIn(ptrs, k, off);
    HoldsPeek(page, at, Longs(ptrs), off);
  }

  /** What the program reads as a string: the argument, up to its terminating zero. */
  lemma StringAt(page: Page, at: nat, str: seq<Byte>, limit: nat)
    requires Holds(page, at, str + [0]) && |str| < limit && forall i | 0 <= i < |str| :: str[i] != 0
    ensures Strings.Text(page[at - STACK_BASE..], limit) == str
  {
    var lo := at - STACK_BASE;
    var rest := page[lo..];
    assert forall i | 0 <= i < |str| + 1 :: rest[i] == page[lo..lo + |str| + 1][i];
    Strings.TextIs(rest, limit, |str|);
  }

  // ------------------------------------------------------------------ writing the stack

  /** The stack page of an address space belongs to it and may be written. */
  ghost predicate StackReady(s: Mem, root: nat) {
    Private(s, root) && WritablePage(s, root, V_STACK)
  }

  ghost function StackPage(s: Mem, root: nat): Page
    requires FrameOf(s, root, V_STACK) in s.bytes
  {
    s.bytes[FrameOf(s, root, V_STACK)]
  }

  /** Outside the stack page an address space has the same bytes. */
  ghost predicate RestKept(s: Mem, t: Mem, root: nat) {
    forall a: nat |
      a / PAGE_SIZE != V_STACK && OwnsFrame(s, root, a / PAGE_SIZE) && FrameOf(s, root, a / PAGE_SIZE) in s.bytes ::
      && OwnsFrame(t, root, a / PAGE_SIZE) && FrameOf(t, root, a / PAGE_SIZE) in t.bytes
      && ByteOf(t, root, a) == ByteOf(s, root, a)
  }

  lemma RestKeptOn(s: Mem, t: Mem, u: Mem, root: nat)
    requires RestKept(s, t, root) && RestKept(t, u, root)
    ensures RestKept(s, u, root) && RestKept(s, s, root)
  {
    hide OwnsFrame, FrameOf;
  }

  /** Bytes written to the stack page. */
  lemma RestIsKept(s: Mem, t: Mem, root: nat, at: nat, data: seq<Byte>)
    requires WroteUser(s, t, root, at, data) && STACK_BASE <= at && at + |data| <= STACK_TOP
    ensures RestKept(s, t, root)
  {
    hide Within, Entry, Ppn;
    forall a: nat | a / PAGE_SIZE != V_STACK ensures !(at <= a < at + |data|) {
    }
  }

  lemma StackIsThere(s: Mem, root: nat)
    requires ValidMem(s) && StackReady(s, root)
    ensures OwnsFrame(s, root, V_STACK) && FrameOf(s, root, V_STACK) in s.bytes
  {
    hide Forest, Entry, IsUser, IsValid, IsWritable, Ppn, Distinct;
    assert UserPage(s, root, V_STACK);
    OwnedExists(s, FrameOf(s, root, V_STACK));
  }

  lemma StackByte(s: Mem, t: Mem, root: nat, at: nat, data: seq<Byte>, i: nat)
    requires OwnsFrame(s, root, V_STACK) && FrameOf(s, root, V_STACK) in s.bytes && WroteUser(s, t, root, at, data)
    requires STACK_BASE <= at && at + |data| <= STACK_TOP && i < PAGE_SIZE
    ensures FrameOf(t, root, V_STACK) in t.bytes
    ensures StackPage(t, root)[i] == PutBytes(StackPage(s, root), at - STACK_BASE, data)[i]
  {
    hide Entry, Within, Ppn;
    var a := STACK_BASE + i;
    assert a / PAGE_SIZE == V_STACK && a % PAGE_SIZE == i;
    assert ByteOf(s, root, a) == StackPage(s, root)[i];
  }

  /** Writing into the stack page, seen as a page. */
  lemma StackWritten(s: Mem, t: Mem, root: nat, at: nat, data: seq<Byte>)
    requires ValidMem(s) && StackReady(s, root) && WroteUser(s, t, root, at, data)
    requires STACK_BASE <= at && at + |data| <= STACK_TOP
    ensures StackReady(t, root) && FrameOf(s, root, V_STACK) in s.bytes && FrameOf(t, root, V_STACK) in t.bytes
    ensures StackPage(t, root) == PutBytes(StackPage(s, root), at - STACK_BASE, data) && RestKept(s, t, root)
  {
    hide ValidMem, Private, WroteUser, Entry, Ppn, PutBytes, IsUser, IsValid, IsWritable, RestKept;
    RestIsKept(s, t, root, at, data);
    StackIsThere(s, root);
    SameTables(s, t, root, at, data);
    forall i | 0 <= i < PAGE_SIZE
      ensures FrameOf(t, root, V_STACK) in t.bytes
      ensures StackPage(t, root)[i] == PutBytes(StackPage(s, root), at - STACK_BASE, data)[i]
    {
      StackByte(s, t, root, at, data, i);
    }
    StackByte(s, t, root, at, data, 0);
  }

  /** A copy into the stack page succeeds. */
  method PushBytes(mem: Memory, root: nat, at: nat, data: seq<Byte>) returns (ok: bool)
    requires mem.Valid() && StackReady(mem.State(), root) && STACK_BASE <= at && at + |data| <= STACK_TOP
    modifies mem
    ensures ok && mem.Valid() && StackReady(mem.State(), root) && mem.State() == old(mem.State()).(bytes := mem.bytes)
    ensures Within(old(mem.State()), mem.State(), root)
    ensures FrameOf(mem.State(), root, V_STACK) in mem.bytes && old(FrameOf(mem.State(), root, V_STACK) in mem.bytes)
    ensures StackPage(mem.State(), root) == PutBytes(old(StackPage(mem.State(), root)), at - STACK_BASE, data)
    ensures RestKept(old(mem.State()), mem.State(), root)
  {
    hide ValidMem, Private, WritablePage, Within, PutBytes, RestKept;
    ghost var s := mem.State();
    var done;
    ok, done := CopyOut(mem, root, at, data);
    forall a: nat | at <= a < at + |data| ensures WritablePage(s, root, a / PAGE_SIZE) {
      assert a / PAGE_SIZE == V_STACK;
    }
    assert data[..done] == data;
    StackWritten(s, mem.State(), root, at, data);
    hide StackPage;
  }

  // ------------------------------------------------------------------ exec's copying

  /** The next aligned address with room for some bytes below `sp`. */
  function Lower(sp: int, len: nat): int { sp - len - (sp - len) % 16 }

  /** Where the stack pointer is after copying some strings. */
  function Pushed(top: int, strs: seq<seq<Byte>>): int {
    if strs == [] then top else Lower(Pushed(top, strs[..|strs| - 1]), |strs[|strs| - 1]| + 1)
  }

  lemma {:induction false} PushedFalls(top: int, strs: seq<seq<Byte>>, k: nat)
    requires k <= |strs|
    ensures Pushed(top, strs) <= Pushed(top, strs[..k])
    decreases |strs|
  {
    if k < |strs| {
      PushedFalls(top, strs[..|strs| - 1], k);
      assert strs[..|strs| - 1][..k] == strs[..k];
    } else {
      assert strs[..k] == strs;
    }
  }

  /** Nothing of the page at or above an address has changed. */
  predicate SameAbove(p: Page, q: Page, at: nat) {
    STACK_BASE <= at <= STACK_TOP && forall i | at - STACK_BASE <= i < PAGE_SIZE :: p[i] == q[i]
  }

  /** The invariant of exec's copying: the page in which `sp` is the lowest address in use. */
  ghost predicate Stacked(s: Mem, t: Mem, root: nat, top: nat) {
    && ValidMem(t) && StackReady(t, root) && t == s.(bytes := t.bytes) && Within(s, t, root)
    && FrameOf(s, root, V_STACK) in s.bytes && FrameOf(t, root, V_STACK) in t.bytes
    && SameAbove(StackPage(s, root), StackPage(t, root), top) && RestKept(s, t, root)
  }

  lemma StackedOn(s: Mem, t: Mem, u: Mem, root: nat, top: nat, at: nat, data: seq<Byte>)
    requires ValidMem(s) && Stacked(s, t, root, top) && STACK_BASE <= at && at + |data| <= top
    requires ValidMem(u) && StackReady(u, root) && u == t.(bytes := u.bytes) && Within(t, u, root)
    requires FrameOf(u, root, V_STACK) in u.bytes
    requires StackPage(u, root) == PutBytes(StackPage(t, root), at - STACK_BASE, data) && RestKept(t, u, root)
    ensures Stacked(s, u, root, top)
  {
    hide ValidMem, StackReady, Within, StackPage, FrameOf, RestKept;
    WithinOn(s, t, u, root);
    RestKeptOn(s, t, u, root);
  }

  /** Copies one string below the others. */
  method PushString(mem: Memory, root: nat, top: nat, strs: seq<seq<Byte>>, at: nat, ptrs: seq<nat>, ghost s: Mem,
                    ghost sp: nat)
    requires ValidMem(s) && Stacked(s, mem.State(), root, top) && |ptrs| < |strs|
    requires Copies(StackPage(mem.State(), root), ptrs, strs, top, sp) && sp <= top <= STACK_TOP
    requires STACK_BASE <= at && at % 16 == 0 && at + |strs[|ptrs|]| + 1 <= sp < at + |strs[|ptrs|]| + 1 + 16
    modifies mem
    ensures Stacked(s, mem.State(), root, top) && Copies(StackPage(mem.State(), root), ptrs + [at], strs, top, at)
  {
    hide ValidMem, StackReady, Within, FrameOf, Copies, PutBytes, SameAbove, RestKept;
    ghost var t := mem.State();
    var k := |ptrs|;
    CopiesMore(StackPage(t, root), ptrs, strs, top, sp, at);
    var done := PushBytes(mem, root, at, strs[k] + [0]);
    StackedOn(s, t, mem.State(), root, top, at, strs[k] + [0]);
  }

  /** The loops of exec over argv and over env: succeeds exactly when there are not too many
      strings and they fit into the stack page. */
  method PushStrings(mem: Memory, root: nat, top: nat, strs: seq<seq<Byte>>, limit: nat)
      returns (ok: bool, sp: nat, ptrs: seq<nat>)
    requires mem.Valid() && StackReady(mem.State(), root) && STACK_BASE <= top <= STACK_TOP
    modifies mem
    ensures Stacked(old(mem.State()), mem.State(), root, top)
    ensures ok <==> |strs| <= limit && Pushed(top, strs) >= STACK_BASE
    ensures ok ==>
              sp == Pushed(top, strs) && |ptrs| == |strs| && Copies(StackPage(mem.State(), root), ptrs, strs, top, sp)
  {
    ghost var s := mem.State();
    StackedNothing(s, root, top);
    sp, ptrs := top, [];
    assert Pushed(top, strs[..0]) == top;
    hide ValidMem, StackReady, Within, StackPage, FrameOf, SameAbove, Lower, Pushed, Holds, RestKept;
    while |ptrs| < |strs|
      invariant |ptrs| <= |strs| && |ptrs| <= limit && Stacked(s, mem.State(), root, top)
      invariant STACK_BASE <= sp <= top && sp == Pushed(top, strs[..|ptrs|])
      invariant Copies(StackPage(mem.State(), root), ptrs, strs, top, sp)
    {
      var k := |ptrs|;
      PushedNext(top, strs, k);
      if k >= limit {
        return false, sp, ptrs;
      }
      var at := Lower(sp, |strs[k]| + 1);
      if at < STACK_BASE {
        return false, sp, ptrs;
      }
      LowerIs(sp, |strs[k]| + 1);
      PushString(mem, root, top, strs, at, ptrs, s, sp);
      sp, ptrs := at, ptrs + [at];
    }
    assert strs[..|ptrs|] == strs;
    ok := true;
  }

  lemma LowerIs(sp: int, len: nat)
    ensures Lower(sp, len) % 16 == 0 && Lower(sp, len) + len <= sp < Lower(sp, len) + len + 16
  {
  }

  lemma PushedNext(top: int, strs: seq<seq<Byte>>, k: nat)
    requires k < |strs|
    ensures Pushed(top, strs[..k + 1]) == Lower(Pushed(top, strs[..k]), |strs[k]| + 1)
    ensures Pushed(top, strs) <= Pushed(top, strs[..k + 1])
  {
    PushedFalls(top, strs, k + 1);
    assert strs[..k + 1][..k] == strs[..k];
  }

  lemma StackedNothing(s: Mem, root: nat, top: nat)
    requires ValidMem(s) && StackReady(s, root) && STACK_BASE <= top <= STACK_TOP
    ensures Stacked(s, s, root, top)
  {
  }

  /** The pointer array behind the strings: the addresses and a null pointer. */
  method PushPointers(mem: Memory, root: nat, sp: nat, ptrs: seq<nat>) returns (ok: bool, at: nat)
    requires mem.Valid() && StackReady(mem.State(), root) && STACK_BASE <= sp <= STACK_TOP
    modifies mem
    ensures Stacked(old(mem.State()), mem.State(), root, sp)
    ensures ok <==> Lower(sp, 8 * (|ptrs| + 1)) >= STACK_BASE
    ensures ok ==> at == Lower(sp, 8 * (|ptrs| + 1)) && Holds(StackPage(mem.State(), root), at, Longs(ptrs + [0]))
  {
    hide ValidMem, StackReady, Within, FrameOf, PutBytes, SameAbove, Longs, Holds, RestKept;
    ghost var s := mem.State();
    StackedNothing(s, root, sp);
    var data := Longs(ptrs + [0]);
    var low := Lower(sp, |data|);
    if low < STACK_BASE {
      return false, 0;
    }
    LowerIs(sp, |data|);
    at := low;
    PutHolds(StackPage(s, root), at, data);
    ok := PushBytes(mem, root, at, data);
    StackedOn(s, s, mem.State(), root, sp, at, data);
  }

  /** What the new program finds: an array of pointers to copies of the strings, ended by a
      null pointer, as close below the copies as alignment to 16 allows, all of it below `top`. */
  ghost predicate Arguments(page: Page, strs: seq<seq<Byte>>, ptrs: seq<nat>, top: nat, at: nat) {
    exists sp: nat ::
      && |ptrs| == |strs| && Copies(page, ptrs, strs, top, sp) && sp <= top
      && at % 16 == 0 && at + 8 * (|ptrs| + 1) <= sp < at + 8 * (|ptrs| + 1) + 16
      && Holds(page, at, Longs(ptrs + [0]))
  }

  /** Whether strings and their pointer array fit below `top`; then where they end. */
  function StackEnd(top: int, strs: seq<seq<Byte>>): int {
    Lower(Pushed(top, strs), 8 * (|strs| + 1))
  }

  lemma SameAboveHolds(p: Page, q: Page, top: nat, at: nat, data: seq<Byte>)
    requires SameAbove(p, q, top) && top <= at && Holds(p, at, data)
    ensures Holds(q, at, data)
  {
  }

  lemma ArgumentsKept(p: Page, q: Page, strs: seq<seq<Byte>>, ptrs: seq<nat>, top: nat, at: nat)
    requires Arguments(p, strs, ptrs, top, at) && SameAbove(p, q, at)
    ensures Arguments(q, strs, ptrs, top, at)
  {
    hide Holds, SameAbove, Longs;
    var sp: nat :| |ptrs| == |strs| && Copies(p, ptrs, strs, top, sp) && sp <= top
                   && at % 16 == 0 && at + 8 * (|ptrs| + 1) <= sp < at + 8 * (|ptrs| + 1) + 16
                   && Holds(p, at, Longs(ptrs + [0]));
    SameAboveHolds(p, q, at, at, Longs(ptrs + [0]));
    forall i | 0 <= i < |ptrs| ensures Holds(q, ptrs[i], strs[i] + [0]) {
      CopiesAbove(p, ptrs, strs, top, sp, i);
      SameAboveHolds(p, q, at, ptrs[i], strs[i] + [0]);
    }
    CopiesAre(q, ptrs, strs, top, sp);
  }

  /** Copies one list of strings and its pointer array. */
  method PushArguments(mem: Memory, root: nat, top: nat, strs: seq<seq<Byte>>, limit: nat)
      returns (ok: bool, at: nat, ghost ptrs: seq<nat>)
    requires mem.Valid() && StackReady(mem.State(), root) && STACK_BASE <= top <= STACK_TOP
    modifies mem
    ensures Stacked(old(mem.State()), mem.State(), root, top)
    ensures ok <==> |strs| <= limit && StackEnd(top, strs) >= STACK_BASE
    ensures ok ==>
              && STACK_BASE <= at == StackEnd(top, strs) <= top
              && Arguments(StackPage(mem.State(), root), strs, ptrs, top, at)
  {
    hide ValidMem, StackReady, Within, FrameOf, SameAbove, Longs, Holds, StackPage, Pushed, Lower, Copies, RestKept;
    ghost var s := mem.State();
    LowerIs(Pushed(top, strs), 8 * (|strs| + 1));
    var fits, sp, where := PushStrings(mem, root, top, strs, limit);
    if !fits {
      return false, 0, [];
    }
    ghost var t := mem.State();
    PushedBelow(top, strs);
    ok, at := PushPointers(mem, root, sp, where);
    ptrs := where;
    StackedTwice(s, t, mem.State(), root, top, sp);
    if ok {
      CopiesKeptAbove(StackPage(t, root), StackPage(mem.State(), root), where, strs, top, sp);
    }
  }

  lemma {:induction false} PushedBelow(top: int, strs: seq<seq<Byte>>)
    ensures Pushed(top, strs) <= top
  {
    PushedFalls(top, strs, 0);
    assert strs[..0] == [];
  }

  lemma CopiesKeptAbove(p: Page, q: Page, ptrs: seq<nat>, strs: seq<seq<Byte>>, top: nat, sp: nat)
    requires Copies(p, ptrs, strs, top, sp) && SameAbove(p, q, sp)
    ensures Copies(q, ptrs, strs, top, sp)
  {
    hide Holds, SameAbove;
    forall i | 0 <= i < |ptrs| ensures Holds(q, ptrs[i], strs[i] + [0]) {
      CopiesAbove(p, ptrs, strs, top, sp, i);
      SameAboveHolds(p, q, sp, ptrs[i], strs[i] + [0]);
    }
    CopiesAre(q, ptrs, strs, top, sp);
  }

  lemma StackedTwice(s: Mem, t: Mem, u: Mem, root: nat, top: nat, sp: nat)
    requires ValidMem(s) && Stacked(s, t, root, top) && Stacked(t, u, root, sp) && sp <= top
    ensures Stacked(s, u, root, top)
  {
    hide ValidMem, StackReady, Within, FrameOf, RestKept;
    WithinOn(s, t, u, root);
    RestKeptOn(s, t, u, root);
  }

  /** The argument strings are not too many and fit into the stack page with their pointers. */
  predicate ArgvFits(argv: seq<seq<Byte>>) {
    |argv| <= MAX_ARGS && StackEnd(STACK_TOP, argv) >= STACK_BASE
  }

  /** So do the strings of the environment below them. */
  predicate EnvFits(argv: seq<seq<Byte>>, env: seq<seq<Byte>>) {
    |env| <= MAX_ENVS && StackEnd(StackEnd(STACK_TOP, argv), env) >= STACK_BASE
  }

  /** The argument stack of exec: succeeds exactly when both lists are short enough and fit. */
  method BuildStack(mem: Memory, root: nat, argv: seq<seq<Byte>>, env: seq<seq<Byte>>)
    returns (ok: bool, a1: nat, a2: nat, ghost args: seq<nat>, ghost envs: seq<nat>)
    requires mem.Valid() && StackReady(mem.State(), root)
    modifies mem
    ensures Stacked(old(mem.State()), mem.State(), root, STACK_TOP)
    ensures ok <==> ArgvFits(argv) && EnvFits(argv, env)
    ensures ArgvFits(argv) ==> a1 == StackEnd(STACK_TOP, argv)
    ensures ok ==> STACK_BASE <= a2 <= a1 && Arguments(StackPage(mem.State(), root), argv, args, STACK_TOP, a1)
                   && Arguments(StackPage(mem.State(), root), env, envs, a1, a2)
  {
    hide ValidMem, StackReady, Within, FrameOf, SameAbove, StackPage, StackEnd, Arguments, RestKept;
    ghost var s := mem.State();
    a2, envs := 0, [];
    ok, a1, args := PushArguments(mem, root, STACK_TOP, argv, MAX_ARGS);
    if ok {
      ghost var t := mem.State();
      ok, a2, envs := PushArguments(mem, root, a1, env, MAX_ENVS);
      StackedTwice(s, t, mem.State(), root, STACK_TOP, a1);
      ArgumentsKept(StackPage(t, root), StackPage(mem.State(), root), argv, args, STACK_TOP, a1);
    }
  }
}
