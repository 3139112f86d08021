/** The user-level heap: a list of blocks in address order that grows at the program break. */
module Heap {
  /** The size of a block header. */
  const HEADER := 24
  const WORD := 0x1_0000_0000_0000_0000
  const SIGN := 0x8000_0000_0000_0000

  /** A block: its header lies at `addr`, its data behind the header. */
  class Block {
    const addr: nat
    var size: nat
    var free: bool
    var next: Block?

    constructor (addr: nat, size: nat)
      ensures this.addr == addr && this.size == size && !free && next == null
    {
      this.addr, this.size, this.free, this.next := addr, size, false, null;
    }
  }

  /** The blocks are linked in order. */
  ghost predicate Chained(head: Block?, list: seq<Block>)
    reads list`next
  {
    && (if list == [] then head == null else head == list[0])
    && (forall i | 0 <= i < |list| - 1 :: list[i].next == list[i + 1])
    && (list != [] ==> list[|list| - 1].next == null)
  }

  lemma Neighbours(head: Block?, list: seq<Block>, i: nat)
    requires Chained(head, list)
    ensures head == if list == [] then null else list[0]
    ensures i < |list| ==> list[i].next == if i + 1 < |list| then list[i + 1] else null
  {
  }

  /** Where a block lies: the address of its header and the size of its data. */
  datatype Span = Span(addr: nat, size: nat)

  function End(s: Span): nat { s.addr + HEADER + s.size }

  ghost function Spans(list: seq<Block>): (r: seq<Span>)
    reads list`size
    ensures |r| == |list| && forall i | 0 <= i < |list| :: r[i] == Span(list[i].addr, list[i].size)
  {
    if list == [] then []
    else
      var last := list[|list| - 1];
      Spans(list[..|list| - 1]) + [Span(last.addr, last.size)]
  }

  /** Every block ends before the next header begins, and the last one before the break. */
  predicate Ordered(s: seq<Span>, brk: nat) {
    && (forall i | 0 <= i < |s| - 1 :: End(s[i]) <= s[i + 1].addr)
    && (s != [] ==> End(s[|s| - 1]) <= brk)
  }

  lemma {:induction false} OrderedFar(s: seq<Span>, brk: nat, i: nat, j: nat)
    requires Ordered(s, brk) && i < j <= |s|
    ensures End(s[i]) <= if j < |s| then s[j].addr else brk
    decreases j
  {
    if i + 1 < j {
      OrderedFar(s, brk, i, j - 1);
    }
  }

  lemma OrderedMore(s: seq<Span>, brk: nat, x: Span)
    requires Ordered(s, x.addr)
    ensures Ordered(s + [x], brk) <==> End(x) <= brk
  {
  }

  /** Joining a block with the next one, as far as its header: the result still ends before the
      block after that. */
  lemma OrderedJoin(s: seq<Span>, t: seq<Span>, brk: nat, i: nat)
    requires Ordered(s, brk) && i + 1 < |s|
    requires t == s[..i] + [Span(s[i].addr, s[i].size + HEADER)] + s[i + 2..]
    ensures Ordered(t, brk)
  {
    forall k | 0 <= k < |t| - 1 ensures End(t[k]) <= t[k + 1].addr {
      if k < i {
        assert t[k] == s[k] && t[k + 1].addr == s[k + 1].addr;
      } else if k == i {
        assert t[k + 1] == s[i + 2];
      } else {
        assert t[k] == s[k + 1] && t[k + 1] == s[k + 2];
      }
    }
    if i + 2 == |s| {
      assert End(s[i]) <= s[i + 1].addr;
    } else {
      assert t[|t| - 1] == s[|s| - 1];
    }
  }

  /** Blocks in order are distinct objects. */
  lemma OrderedDistinct(list: seq<Block>, brk: nat)
    requires Ordered(Spans(list), brk)
    ensures forall i, j | 0 <= i < j < |list| :: list[i] != list[j]
  {
    hide Spans;
    forall i, j | 0 <= i < j < |list| ensures list[i] != list[j] {
      OrderedFar(Spans(list), brk, i, j);
    }
  }

  lemma OrderedApart(list: seq<Block>, brk: nat, i: nat)
    requires Ordered(Spans(list), brk) && i < |list|
    ensures forall k | 0 <= k < |list| && k != i :: list[k] != list[i]
  {
    hide Spans, Ordered;
    OrderedDistinct(list, brk);
  }

  ghost function LiveIn(list: seq<Block>): set<Block>
    reads list`free
  {
    set b | b in list && !b.free
  }

  lemma JoinedLive(c: seq<Block>, d: seq<Block>, i: nat)
    requires i + 1 < |c| && d == c[..i + 1] + c[i + 2..] && c[i + 1].free
    ensures LiveIn(d) == LiveIn(c)
  {
    forall b | b in c && !b.free ensures b in d {
      var k :| 0 <= k < |c| && c[k] == b;
      assert d[if k <= i then k else k - 1] == b;
    }
  }

  /** What the list says about a block. */
  datatype Cell = Cell(addr: nat, size: nat, free: bool)

  ghost function Cells(list: seq<Block>): (r: seq<Cell>)
    reads list`size, list`free
    ensures |r| == |list| && forall i | 0 <= i < |list| :: r[i] == Cell(list[i].addr, list[i].size, list[i].free)
  {
    if list == [] then []
    else
      var last := list[|list| - 1];
      Cells(list[..|list| - 1]) + [Cell(last.addr, last.size, last.free)]
  }

  lemma AllNeighbours(head: Block?, list: seq<Block>)
    requires Chained(head, list)
    ensures list == [] || (head == list[0] && list[|list| - 1].next == null)
    ensures forall k | 0 <= k < |list| - 1 :: list[k].next == list[k + 1]
  {
  }

  lemma JoinedLinks(head: Block?, c: seq<Block>, d: seq<Block>, i: nat)
    requires i + 1 < |c| && d == c[..i + 1] + c[i + 2..] && head == c[0]
    requires forall k | 0 <= k < |c| - 1 && k != i :: c[k].next == c[k + 1]
    requires i + 2 < |c| ==> c[|c| - 1].next == null
    requires c[i].next == if i + 2 < |c| then c[i + 2] else null
    ensures Chained(head, d)
  {
    forall k | 0 <= k < |d| - 1 ensures d[k].next == d[k + 1] {
      assert d[k] == c[if k <= i then k else k + 1] && d[k + 1] == c[if k < i then k + 1 else k + 2];
    }
    if i + 2 < |c| {
      assert d[|d| - 1] == c[|c| - 1];
    } else {
      assert d[|d| - 1] == c[i];
    }
  }

  /** The second of two neighbours goes, and the first grows by a header. */
  lemma JoinedSpans(c: seq<Block>, d: seq<Block>, was: seq<Span>, i: nat)
    requires i + 1 < |c| == |was| && d == c[..i + 1] + c[i + 2..]
    requires forall k | 0 <= k < |c| ::
               Span(c[k].addr, c[k].size) == if k == i then Span(was[i].addr, was[i].size + HEADER) else was[k]
    ensures Spans(d) == was[..i] + [Span(was[i].addr, was[i].size + HEADER)] + was[i + 2..]
  {
    hide Spans;
  }

  lemma JoinedCells(c: seq<Block>, d: seq<Block>, was: seq<Cell>, i: nat)
    requires i + 1 < |c| == |was| && d == c[..i + 1] + c[i + 2..]
    requires forall k | 0 <= k < |c| ::
               Cell(c[k].addr, c[k].size, c[k].free) == if k == i then was[i].(size := was[i].size + HEADER) else was[k]
    ensures Cells(d) == was[..i] + [was[i].(size := was[i].size + HEADER)] + was[i + 2..]
  {
    hide Cells;
  }

  /** What free makes of the list: a free block swallows the header of a free block behind it,
      but neither its data nor a third block. */
  function Joined(c: seq<Cell>): seq<Cell> {
    if |c| < 2 then c
    else if c[0].free && c[1].free then [c[0].(size := c[0].size + HEADER)] + Joined(c[2..])
    else [c[0]] + Joined(c[1..])
  }

  /** Free blocks are joined two by two, from the left. */
  lemma {:induction false} JoinedFree(c: seq<Cell>)
    requires forall i | 0 <= i < |c| :: c[i].free
    ensures |Joined(c)| == (|c| + 1) / 2
    ensures forall i | 0 <= i < |c| / 2 :: Joined(c)[i] == Cell(c[2 * i].addr, c[2 * i].size + HEADER, true)
    ensures |c| % 2 == 1 ==> Joined(c)[|c| / 2] == c[|c| - 1]
    decreases |c|
  {
    if |c| >= 2 {
      JoinedFree(c[2..]);
      var r, rest := Joined(c), Joined(c[2..]);
      assert r == [c[0].(size := c[0].size + HEADER)] + rest;
      hide Joined;
      forall i | 0 <= i < |c| / 2 ensures r[i] == Cell(c[2 * i].addr, c[2 * i].size + HEADER, true) {
        if i > 0 {
          assert r[i] == rest[i - 1] && c[2..][2 * (i - 1)] == c[2 * i];
        }
      }
    }
  }

  /** A block in use stays and keeps its neighbours apart. */
  lemma {:induction false} JoinedCut(a: seq<Cell>, x: Cell, b: seq<Cell>)
    requires !x.free
    ensures Joined(a + [x] + b) == Joined(a) + [x] + Joined(b)
    decreases |a|
  {
    var c := a + [x] + b;
    if a == [] {
      assert c == [x] + b && c[1..] == b;
    } else if |a| >= 2 && a[0].free && a[1].free {
      assert c[2..] == a[2..] + [x] + b;
      JoinedCut(a[2..], x, b);
    } else {
      assert c[1..] == a[1..] + [x] + b;
      JoinedCut(a[1..], x, b);
    }
  }

  /** One round of the loop of free. */
  lemma JoinedStep(c: seq<Cell>, i: nat, d: seq<Cell>)
    requires i + 1 < |c|
    requires d == if c[i].free && c[i + 1].free then c[..i] + [c[i].(size := c[i].size + HEADER)] + c[i + 2..] else c
    ensures i < |d| && c[..i] + Joined(c[i..]) == d[..i + 1] + Joined(d[i + 1..])
  {
    hide Joined;
    if c[i].free && c[i + 1].free {
      assert c[i..][2..] == c[i + 2..] && d[i + 1..] == c[i + 2..];
      assert d[..i + 1] == c[..i] + [d[i]];
    } else {
      assert c[i..][1..] == c[i + 1..];
      assert d[..i + 1] == c[..i] + [c[i]];
    }
    JoinedOnce(c[i..]);
  }

  lemma JoinedOnce(c: seq<Cell>)
    requires |c| >= 2
    ensures Joined(c)
         == if c[0].free && c[1].free then [c[0].(size := c[0].size + HEADER)] + Joined(c[2..])
            else [c[0]] + Joined(c[1..])
  {
  }

  lemma JoinedEnd(c: seq<Cell>, i: nat)
    requires i <= |c| <= i + 1
    ensures c[..i] + Joined(c[i..]) == c
  {
  }

  /** A 64-bit word as a signed number. */
  function Signed(x: nat): (r: int)
    requires x < WORD
    ensures -SIGN <= r < SIGN && (r - x) % WORD == 0
  {
    if x < SIGN then x else x - WORD
  }

  /** The break moves far enough for the new block exactly when nothing wraps around. */
  lemma TotalFits(size: nat)
    requires size < WORD
    ensures Signed((HEADER + size) % WORD) >= HEADER + size <==> HEADER + size < SIGN
    ensures HEADER + size < SIGN ==> Signed((HEADER + size) % WORD) == HEADER + size
  {
  }

  /** sbrk agrees to move the break for a block: it never refuses to move it by nothing. */
  predicate Grants(brk: nat, size: nat, granted: bool) {
    var increment := Signed((HEADER + size) % WORD);
    increment == 0 || (granted && brk + increment >= 0)
  }

  lemma BelowBreak(list: seq<Block>, brk: nat, i: nat)
    requires Ordered(Spans(list), brk) && i < |list|
    ensures list[i].addr < brk
  {
    hide Spans;
    OrderedFar(Spans(list), brk, i, |list|);
  }

  class Heap {
    var head: Block?
    /** The program break that sbrk moves. */
    var brk: nat
    ghost var list: seq<Block>

    ghost predicate Valid()
      reads this, list`next, list`size
    {
      Chained(head, list) && Ordered(Spans(list), brk)
    }

    /** The blocks that the program holds. */
    ghost function Live(): set<Block>
      reads `list, list`free
    {
      LiveIn(list)
    }

    constructor (start: nat)
      ensures Valid() && Live() == {} && list == [] && brk == start
    {
      head, brk, list := null, start, [];
    }

    /** sbrk with a 64-bit signed argument; `granted` tells whether the kernel agrees. */
    method Sbrk(increment: int, granted: bool) returns (ok: bool, old_: nat)
      modifies `brk
      ensures old_ == old(brk) && brk == old(brk) + if ok then increment else 0
      ensures ok <==> increment == 0 || (granted && old(brk) + increment >= 0)
    {
      old_ := brk;
      if increment == 0 {
        return true, old_;
      }
      ok := granted && brk + increment >= 0;
      if ok {
        brk := brk + increment;
      }
    }
  
    /** The scan of malloc: the first free block that is large enough, or none. */
    method FirstFit(size: nat) returns (b: Block?, last: Block?, ghost i: nat)
      requires Valid()
      ensures i <= |list| && (b == null <==> i == |list|)
      ensures b != null ==> b == list[i] && b.free && b.size >= size
      ensures forall j | 0 <= j < i :: !(list[j].free && list[j].size >= size)
      ensures b == null ==> last == if list == [] then null else list[|list| - 1]
    {
      b, last, i := head, null, 0;
      while b != null
        invariant i <= |list| && b == (if i < |list| then list[i] else null)
        invariant last == if i == 0 then null else list[i - 1]
        invariant forall j | 0 <= j < i :: !(list[j].free && list[j].size >= size)
        decreases |list| - i
      {
        if b.free && b.size >= size {
          return;
        }
        last := b;
        b := b.next;
        i := i + 1;
      }
    }

    /** Links a new block at address `at` behind the last one. */
    method Append(size: nat, at: nat, last: Block?) returns (b: Block)
      requires Chained(head, list) && Ordered(Spans(list), at)
      requires last == if list == [] then null else list[|list| - 1]
      modifies `head, `list, list`next
      ensures fresh(b) && b.addr == at && b.size == size && !b.free && list == old(list) + [b]
      ensures Chained(head, list)
      ensures Ordered(Spans(list), brk) <==> at + HEADER + size <= brk
    {
      hide Spans, Ordered;
      OrderedDistinct(list, at);
      OrderedMore(Spans(list), brk, Span(at, size));
      b := new Block(at, size);
      if last == null {
        head := b;
      } else {
        last.next := b;
      }
      list := list + [b];
      assert Spans(list) == old(Spans(list)) + [Span(at, size)];
    }

    /** A free block is large enough. */
    ghost predicate HasFit(size: nat)
      reads `list, list`size, list`free
    {
      exists m :: m in list && m.free && m.size >= size
    }

    /** malloc. It fails exactly for size 0, or when no free block is large enough and sbrk
        refuses. The heap stays well formed exactly when it fails, when an old block is used
        again, or when the size of the request plus a header is a positive 64-bit signed
        number. */
    method Malloc(size: nat, granted: bool) returns (b: Block?)
      requires Valid() && size < WORD
      modifies this, list
      ensures size == 0 ==> b == null
      ensures b != null ==> b !in old(Live()) && b in list && !b.free && b.size >= size
      ensures Live() == old(Live()) + if b != null then {b} else {}
      ensures forall m | m in old(list) :: m in list && m.size == old(m.size)
      ensures b != null && b !in old(list) ==> fresh(b) && b.addr == old(brk) && b.size == size
      ensures forall m | m in list :: m in old(list) || m == b
      ensures b == null <==> size == 0 || (!old(HasFit(size)) && !Grants(old(brk), size, granted))
      ensures b == null || b in old(list) ==> brk == old(brk) && list == old(list)
      ensures b != null && b !in old(list) ==>
                list == old(list) + [b] && (HEADER + size < SIGN ==> brk == old(brk) + HEADER + size)
      ensures b != null ==> (b in old(list) <==> old(HasFit(size))) && (b in old(list) <==> b.addr < old(brk))
      ensures Valid() <==> size == 0 || old(HasFit(size)) || !Grants(old(brk), size, granted) || HEADER + size < SIGN
    {
      hide Spans, Chained, Ordered, Grants;
      if size == 0 {
        return null;
      }
      var curr, prev, i := FirstFit(size);
      if curr != null {
        BelowBreak(list, brk, i);
        curr.free := false;
        return curr;
      }
      b := Extend(size, granted, prev);
    }

    /** The part of malloc that moves the break for a new block. */
    method Extend(size: nat, granted: bool, last: Block?) returns (b: Block?)
      requires Valid() && size < WORD && last == if list == [] then null else list[|list| - 1]
      modifies `head, `brk, `list, list`next
      ensures b == null <==> !Grants(old(brk), size, granted)
      ensures b == null ==> Valid() && brk == old(brk) && list == old(list)
      ensures b != null ==> fresh(b) && b.addr == old(brk) && b.size == size && !b.free && list == old(list) + [b]
      ensures b != null && HEADER + size < SIGN ==> brk == old(brk) + HEADER + size
      ensures b != null ==> (Valid() <==> HEADER + size < SIGN)
    {
      hide Spans, Chained, Ordered, Signed;
      var total := (HEADER + size) % WORD;
      TotalFits(size);
      var ok, at := Sbrk(Signed(total), granted);
      if !ok {
        return null;
      }
      b := Append(size, at, last);
    }
  
    /** Joins a free block with the free block behind it. */
    method Join(b: Block, ghost i: nat)
      requires Valid() && i + 1 < |list| && b == list[i] && b.free && list[i + 1].free
      modifies `list, b`size, b`next
      ensures Valid() && list == old(list)[..i + 1] + old(list)[i + 2..] && b.size == old(b.size) + HEADER
      ensures Live() == old(Live())
      ensures Cells(list) == old(Cells(list))[..i] + [Cell(b.addr, b.size, true)] + old(Cells(list))[i + 2..]
    {
      hide Spans, Ordered, Cells, Chained, LiveIn;
      ghost var c, spans, cells := list, Spans(list), Cells(list);
      OrderedApart(c, brk, i);
      AllNeighbours(head, c);
      b.size := b.size + HEADER;
      b.next := b.next.next;
      list := c[..i + 1] + c[i + 2..];
      JoinedLinks(head, c, list, i);
      JoinedLive(c, list, i);
      JoinedSpans(c, list, spans, i);
      JoinedCells(c, list, cells, i);
      OrderedJoin(spans, Spans(list), brk, i);
    }

    /** One round of the loop of free: a block is joined with the next one if both are free. */
    method JoinNext(curr: Block, ghost i: nat) returns (next: Block?)
      requires Valid() && i + 1 < |list| && curr == list[i]
      modifies `list, curr`size, curr`next
      ensures Valid() && Live() == old(Live()) && (!curr.free ==> curr.size == old(curr.size))
      ensures i < |list| <= |old(list)|
      ensures next == (if i + 1 < |list| then list[i + 1] else null) && forall m | m in list :: m in old(list)
      ensures old(Cells(list))[..i] + Joined(old(Cells(list))[i..])
              == Cells(list)[..i + 1] + Joined(Cells(list)[i + 1..])
    {
      hide Spans, Ordered, Cells, Joined, Chained, LiveIn;
      Neighbours(head, list, i);
      if curr.free && curr.next.free {
        Join(curr, i);
      }
      JoinedStep(old(Cells(list)), i, Cells(list));
      Neighbours(head, list, i);
      next := curr.next;
    }

    /** The loop of free: joins neighbouring free blocks, each with at most one other. */
    method Coalesce()
      requires Valid()
      modifies `list, list`size, list`next
      ensures Valid() && Live() == old(Live())
      ensures forall m | m in Live() :: m.size == old(m.size)
      ensures forall m | m in list :: m in old(list)
      ensures Cells(list) == Joined(old(Cells(list)))
    {
      hide Valid, Cells, Joined;
      var curr := head;
      ghost var i := 0;
      ListStart();
      assert Cells(list)[0..] == Cells(list);
      while curr != null && curr.next != null
        invariant i <= |list| && Joined(old(Cells(list))) == Cells(list)[..i] + Joined(Cells(list)[i..])
        invariant Valid() && curr == (if i < |list| then list[i] else null)
        invariant Live() == old(Live()) && forall m | m in list :: m in old(list)
        invariant forall m | m in old(list) && !m.free :: m.size == old(m.size)
        decreases |list| - i
      {
        ListNext(i);
        assert curr in list;
        curr := JoinNext(curr, i);
        i := i + 1;
      }
      if i < |list| {
        ListNext(i);
      }
      JoinedEnd(Cells(list), i);
    }

    lemma ListStart()
      requires Valid()
      ensures head == if list == [] then null else list[0]
    {
    }

    lemma ListNext(i: nat)
      requires Valid() && i < |list|
      ensures list[i].next == if i + 1 < |list| then list[i + 1] else null
    {
    }

    /** free of a block that the program holds. The other blocks it holds do not change. */
    method Free(b: Block?)
      requires Valid() && (b == null || b in Live())
      modifies this, list
      ensures Valid() && brk == old(brk)
      ensures Live() == old(Live()) - {b}
      ensures forall m | m in Live() :: m.size == old(m.size)
      ensures forall m | m in list :: m in old(list)
      ensures b == null ==> list == old(list)
      ensures forall k | 0 <= k < |old(list)| && old(list)[k] == b ::
                Cells(list) == Joined(old(Cells(list))[k := Cell(old(list)[k].addr, old(list[k].size), true)])
    {
      hide Joined, Cells, Ordered, Spans;
      if b == null {
        return;
      }
      OrderedDistinct(list, brk);
      b.free := true;
      forall k | 0 <= k < |list| && list[k] == b
        ensures Cells(list) == old(Cells(list))[k := Cell(b.addr, b.size, true)]
      {
      }
      Coalesce();
    }
  }

  /** Two blocks that the program holds overlap neither each other nor any header. */
  lemma LiveApart(h: Heap, a: Block, b: Block)
    requires h.Valid() && a in h.Live() && b in h.list && a != b
    ensures a.addr + HEADER + a.size <= b.addr || b.addr + HEADER + b.size <= a.addr
  {
    hide Spans, Ordered;
    var i :| 0 <= i < |h.list| && h.list[i] == a;
    var j :| 0 <= j < |h.list| && h.list[j] == b;
    if i < j {
      OrderedFar(Spans(h.list), h.brk, i, j);
    } else {
      OrderedFar(Spans(h.list), h.brk, j, i);
    }
  }

  /** The failure does occur: a request whose size plus a header is 2^64 moves the break by
      nothing, and the block reaches behind it. */
  method WrappedRequest() returns (h: Heap, b: Block?)
    ensures b != null && b.size == WORD - HEADER && !h.Valid()
  {
    h := new Heap(4096);
    assert Signed((HEADER + (WORD - HEADER)) % WORD) == 0;
    b := h.Malloc(WORD - HEADER, false);
  }

  /** Two neighbours that are freed become one block, which is larger by a header alone: the data
      of the second are lost to the program. */
  method FreeNeighbours(start: nat, x: nat, y: nat) returns (h: Heap, a: Block?, b: Block?)
    requires 0 < x && 0 < y && HEADER + x < SIGN && HEADER + y < SIGN
    ensures a != null && b != null && h.Valid() && h.list == [a] && a.free && a.size == x + HEADER
    ensures h.brk == start + 2 * HEADER + x + y
  {
    hide Chained, Ordered, Spans, Cells, Joined, Heap.Valid;
    h, a, b := TwoBlocks(start, x, y);
    TwoCells(Cell(start, x, true), Cell(start + HEADER + x, y, false));
    TwoCells(Cell(start, x, true), Cell(start + HEADER + x, y, true));
    ghost var c, d := Cell(start, x, true), Cell(start + HEADER + x, y, false);
    assert h.list[0] == a && h.list[1] == b;
    assert Cells(h.list)[0 := c] == [c, d];
    h.Free(a);
    assert Cells(h.list) == [c, d] && Cells(h.list)[1 := d.(free := true)] == [c, d.(free := true)];
    SameBlocks(h.list, a, b);
    h.Free(b);
    assert Cells(h.list) == [c.(size := x + HEADER)];
    assert h.list[0] in h.list;
  }

  /** A block is known by its address. */
  lemma SameBlocks(list: seq<Block>, a: Block, b: Block)
    requires |list| == 2 && (forall m | m in list :: m == a || m == b)
    requires list[0].addr == a.addr && list[1].addr == b.addr && a.addr < b.addr
    ensures list == [a, b]
  {
    assert list[0] in list && list[1] in list;
  }

  /** Two requests on a new heap. */
  method TwoBlocks(start: nat, x: nat, y: nat) returns (h: Heap, a: Block, b: Block)
    requires 0 < x && 0 < y && HEADER + x < SIGN && HEADER + y < SIGN
    ensures fresh(h) && fresh(a) && fresh(b) && h.Valid() && h.list == [a, b] && !a.free && !b.free
    ensures a.addr == start && a.size == x && b.addr == start + HEADER + x && b.size == y
    ensures h.brk == start + 2 * HEADER + x + y
  {
    hide Chained, Ordered, Spans, Grants;
    h := new Heap(start);
    SmallIsGranted(h.brk, x);
    a := h.Malloc(x, true);
    SmallIsGranted(h.brk, y);
    b := h.Malloc(y, true);
  }

  lemma TwoCells(c: Cell, d: Cell)
    ensures Joined([c, d]) == if c.free && d.free then [c.(size := c.size + HEADER)] else [c, d]
  {
    assert [c, d][1..] == [d] && [c, d][2..] == [];
  }

  type Size = n: nat | n < WORD

  /** A call of the program: malloc with the kernel's answer to sbrk, or free of the k-th block
      that it holds. */
  datatype Call = Allocate(size: Size, granted: bool) | Release(k: nat)

  predicate Apart(a: nat, asize: nat, b: nat, bsize: nat) {
    a + HEADER + asize <= b || b + HEADER + bsize <= a
  }

  /** The number of blocks that a program holds, from which of its calls succeeded. */
  function Balance(calls: seq<Call>, answers: seq<bool>): int
    requires |answers| <= |calls|
  {
    if answers == [] then 0
    else
      var n := |answers| - 1;
      Balance(calls, answers[..n]) + if !answers[n] then 0 else if calls[n].Allocate? then 1 else -1
  }

  /** Any sequence of calls on a new heap: as long as no request of 2^63 bytes or more has got a
      new block, the blocks that the program holds are pairwise apart, headers included, and a
      malloc that the kernel grants succeeds. With such a request the run ends. */
  method Run(start: nat, calls: seq<Call>) returns (h: Heap, held: seq<Block>, answers: seq<bool>, intact: bool)
    ensures !intact ==> answers != [] && |answers| <= |calls| && Huge(calls[|answers| - 1])
    ensures intact ==> h.Valid() && h.Live() == (set b | b in held)
    ensures intact ==>
              forall i, j | 0 <= i < j < |held| :: Apart(held[i].addr, held[i].size, held[j].addr, held[j].size)
    ensures intact ==> |answers| == |calls| && |held| == Balance(calls, answers)
    ensures intact ==> forall i | 0 <= i < |calls| && ToGrant(calls[i]) :: answers[i]
  {
    hide Chained, Ordered, Spans, Cells, Joined;
    h := new Heap(start);
    held, answers, intact := [], [], true;
    for n := 0 to |calls|
      invariant fresh(h) && (forall b | b in h.list :: fresh(b))
      invariant forall i | 0 <= i < |h.list| :: fresh(h.list[i])
      invariant intact && h.Valid() && h.Live() == (set b | b in held)
      invariant forall i, j | 0 <= i < j < |held| :: held[i] != held[j]
      invariant |answers| == n && |held| == Balance(calls, answers)
      invariant forall i | 0 <= i < n && ToGrant(calls[i]) :: answers[i]
    {
      var ok;
      held, ok, intact := Perform(h, calls[n], held);
      ghost var was := answers;
      answers := answers + [ok];
      if !intact {
        return;
      }
      assert answers[..n] == was;
      forall i | 0 <= i < |h.list| ensures fresh(h.list[i]) {
        assert h.list[i] in h.list;
      }
    }
    forall i, j | 0 <= i < j < |held| ensures Apart(held[i].addr, held[i].size, held[j].addr, held[j].size) {
      assert held[i] in h.Live() && held[j] in h.Live();
      LiveApart(h, held[i], held[j]);
    }
  }

  predicate Huge(c: Call) { c.Allocate? && HEADER + c.size >= SIGN }

  /** A request that is granted: sbrk agrees, and nothing wraps around. */
  predicate ToGrant(c: Call) { c.Allocate? && c.size > 0 && c.granted && !Huge(c) }

  lemma SmallIsGranted(brk: nat, size: nat)
    requires HEADER + size < SIGN
    ensures Grants(brk, size, true)
  {
  }

  /** One call; a program only frees what it holds. The heap is broken exactly when a huge
      request got a block at the break. */
  method Perform(h: Heap, c: Call, was: seq<Block>) returns (held: seq<Block>, ok: bool, intact: bool)
    requires h.Valid() && h.Live() == (set b | b in was)
    requires forall i, j | 0 <= i < j < |was| :: was[i] != was[j]
    modifies h, h.list
    ensures intact <==> h.Valid()
    ensures !intact ==> ok && Huge(c)
    ensures h.Live() == (set b | b in held) && (forall b | b in h.list :: b in old(h.list) || fresh(b))
    ensures forall i, j | 0 <= i < j < |held| :: held[i] != held[j]
    ensures |held| == |was| + if !ok then 0 else if c.Allocate? then 1 else -1
    ensures c.Allocate? && c.size > 0 && c.granted && !Huge(c) ==> ok
    ensures c.Release? ==> (ok <==> c.k < |was|)
  {
    hide Chained, Ordered, Spans, Cells, Joined, Grants;
    held, ok, intact := was, false, true;
    if c.Allocate? {
      var before := h.brk;
      if HEADER + c.size < SIGN {
        SmallIsGranted(before, c.size);
      }
      var b := h.Malloc(c.size, c.granted);
      if b != null {
        held, ok, intact := was + [b], true, b.addr < before || HEADER + c.size < SIGN;
      }
    } else if c.k < |was| {
      h.Free(was[c.k]);
      held, ok := was[..c.k] + was[c.k + 1..], true;
    }
  }
}
