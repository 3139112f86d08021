/** The virtio block protocol (sections 2.6 and 5.2 of OASIS Virtio 1.1) as this driver uses
    it: chains of three descriptors and two rings with 16-bit indices. */
module VirtioSpec {
  import opened Basics

  const NUM := 8
  const WRAP := 0x1_0000
  const NO_STATUS := 0xff
  const BLOCK_BYTES := 1024
  const HEADER_BYTES := 16

  /** What a descriptor points to: a request header, the data of a buffer, a status byte. */
  datatype Target = Nowhere | Header(i: nat) | DataOf(buf: nat) | Status(i: nat)
  datatype Desc = Desc(target: Target, len: nat, write: bool, hasNext: bool, next: nat)
  datatype Op = Op(write: bool, sector: nat)
  datatype Info = Info(buf: Option<nat>, status: nat)

  const EMPTY_DESC := Desc(Nowhere, 0, false, false, 0)

  /** The memory shared by the driver and the device. A request is for one buffer. */
  datatype Queue = Queue(free: seq<bool>, desc: seq<Desc>, ops: seq<Op>, info: seq<Info>,
                         avail: seq<nat>, availIdx: nat, used: seq<nat>, usedIdx: nat,
                         seenIdx: nat, takenIdx: nat, onDisk: set<nat>)

  datatype Request = Request(buf: nat, sector: nat, write: bool)

  /** Where a request is: published, taken by the device, completed by it, seen by the
      interrupt handler. */
  datatype Phase = Queued | Active | Completed | Seen

  /** A request in flight. Its chain starts at the descriptor under which it is listed. */
  datatype Chain = Chain(mid: nat, last: nat, req: Request, phase: Phase)

  /** The history that the rings stand for: which chains are in flight, the chain that each
      descriptor belongs to, what the device has not taken and the driver not seen yet, and
      the number of entries ever put into each ring. */
  datatype Flight = Flight(chains: map<nat, Chain>, slot: map<nat, nat>, queue: seq<nat>, done: seq<nat>,
                           pushed: nat, completed: nat)

  predicate Shape(q: Queue) {
    |q.free| == NUM && |q.desc| == NUM && |q.ops| == NUM && |q.info| == NUM && |q.avail| == NUM && |q.used| == NUM
  }

  // ------------------------------------------------------------------ the invariant

  /** The three descriptors of a chain, as the driver fills them. */
  predicate Filled(q: Queue, h: nat, c: Chain)
    requires Shape(q)
  {
    && h < NUM && c.mid < NUM && c.last < NUM && h != c.mid && h != c.last && c.mid != c.last
    && q.ops[h] == Op(c.req.write, c.req.sector)
    && q.desc[h] == Desc(Header(h), HEADER_BYTES, false, true, c.mid)
    && q.desc[c.mid] == Desc(DataOf(c.req.buf), BLOCK_BYTES, !c.req.write, true, c.last)
    && q.desc[c.last] == Desc(Status(h), 1, true, false, 0)
    && q.info[h].buf == Some(c.req.buf)
    && (q.info[h].status == if c.phase.Completed? || c.phase.Seen? then 0 else NO_STATUS)
    && (c.req.buf in q.onDisk <==> !c.phase.Seen?)
  }

  ghost predicate Chains(q: Queue, f: Flight)
    requires Shape(q)
  {
    && (forall h | h in f.chains :: Filled(q, h, f.chains[h]))
    && (forall h, k | h in f.chains && k in f.chains && h != k :: f.chains[h].req.buf != f.chains[k].req.buf)
  }

  /** Every used descriptor is the head, the middle or the end of one chain. */
  ghost predicate Slots(f: Flight) {
    forall i | i in f.slot :: i < NUM && f.slot[i] in f.chains
      && (i == f.slot[i] || i == f.chains[f.slot[i]].mid || i == f.chains[f.slot[i]].last)
  }

  /** The descriptors of a chain belong to it. */
  ghost predicate Heads(f: Flight) {
    forall h | h in f.chains :: h in f.slot && f.chains[h].mid in f.slot && f.chains[h].last in f.slot
      && f.slot[h] == h && f.slot[f.chains[h].mid] == h && f.slot[f.chains[h].last] == h
  }

  /** Free descriptors and chains partition the descriptors. */
  ghost predicate Partition(q: Queue, f: Flight)
    requires Shape(q)
  {
    (forall i | 0 <= i < NUM :: q.free[i] <==> i !in f.slot) && Slots(f) && Heads(f)
  }

  /** A ring holds the pending entries of a queue, and its 16-bit indices count them. */
  predicate Ring(ring: seq<nat>, pending: seq<nat>, total: nat, head: nat, tail: nat)
    requires |ring| == NUM
  {
    && |pending| <= total && |pending| <= NUM
    && head == total % WRAP && tail == (total - |pending|) % WRAP
    && forall k | total - |pending| <= k < total :: ring[k % NUM] == pending[k - (total - |pending|)]
  }

  ghost predicate Rings(q: Queue, f: Flight)
    requires Shape(q)
  {
    && Ring(q.avail, f.queue, f.pushed, q.availIdx, q.takenIdx)
    && Ring(q.used, f.done, f.completed, q.usedIdx, q.seenIdx)
    && Distinct(f.queue) && Distinct(f.done)
    && (forall h :: h in f.queue <==> h in f.chains && f.chains[h].phase.Queued?)
    && (forall h :: h in f.done <==> h in f.chains && f.chains[h].phase.Completed?)
  }

  /** Free descriptors are blank. */
  predicate Blank(q: Queue)
    requires Shape(q)
  {
    forall i | 0 <= i < NUM && q.free[i] :: q.desc[i] == EMPTY_DESC
  }

  ghost predicate Inv(q: Queue, f: Flight) {
    Shape(q) && Blank(q) && Chains(q, f) && Partition(q, f) && Rings(q, f)
  }

  // ------------------------------------------------------------------ rings

  lemma IndexInRing(k: nat)
    ensures k % WRAP % NUM == k % NUM
  {
  }

  lemma DistinctSlots(a: nat, b: nat)
    requires a < b < a + NUM
    ensures a % NUM != b % NUM
  {
  }

  /** Adding an entry overwrites none that is pending. */
  lemma RingPush(ring: seq<nat>, pending: seq<nat>, total: nat, head: nat, tail: nat, x: nat)
    requires |ring| == NUM && Ring(ring, pending, total, head, tail) && |pending| < NUM
    ensures Ring(ring[head % NUM := x], pending + [x], total + 1, (head + 1) % WRAP, tail)
  {
    IndexInRing(total);
    var lo, next := total - |pending|, ring[head % NUM := x];
    forall k | lo <= k < total + 1 ensures next[k % NUM] == (pending + [x])[k - lo] {
      if k < total {
        DistinctSlots(k, total);
      }
    }
  }

  /** The oldest entry is at the tail; the ring is empty exactly when the indices agree. */
  lemma RingPop(ring: seq<nat>, pending: seq<nat>, total: nat, head: nat, tail: nat)
    requires |ring| == NUM && Ring(ring, pending, total, head, tail)
    ensures head == tail <==> pending == []
    ensures pending != [] ==> ring[tail % NUM] == pending[0] && Ring(ring, pending[1..], total, head, (tail + 1) % WRAP)
  {
    var lo := total - |pending|;
    IndexInRing(lo);
    Wrapped(lo, |pending|);
  }

  lemma Wrapped(lo: nat, n: nat)
    requires n <= NUM
    ensures lo % WRAP == (lo + n) % WRAP <==> n == 0
    ensures (lo % WRAP + 1) % WRAP == (lo + 1) % WRAP
  {
  }

  /** At most NUM distinct numbers lie below NUM. */
  lemma {:induction false} Pigeonhole(s: seq<nat>, n: nat)
    requires Distinct(s) && forall x | x in s :: x < n
    ensures |s| <= n
    decreases n
  {
    if s == [] {
      return;
    }
    assert s[0] in s;
    if i :| 0 <= i < |s| && s[i] == n - 1 {
      var t := s[..i] + s[i + 1..];
      forall k | 0 <= k < |t| ensures t[k] < n - 1 {
        var j := if k < i then k else k + 1;
        assert t[k] == s[j] && s[j] in s;
      }
      Pigeonhole(t, n - 1);
    } else {
      Pigeonhole(s, n - 1);
    }
  }

  // ------------------------------------------------------------------ submitting a request

  /** Three descriptors can carry a new request. */
  ghost predicate CanSubmit(q: Queue, f: Flight, a: nat, b: nat, c: nat, req: Request) {
    Inv(q, f) && ThreeFree(q.free, a, b, c) && NotInFlight(f, req.buf)
  }

  predicate ThreeFree(free: seq<bool>, a: nat, b: nat, c: nat) {
    && a < |free| && b < |free| && c < |free| && a != b && a != c && b != c
    && free[a] && free[b] && free[c]
  }

  /** The requester holds the lock of its buffer, so nobody else has a request for it. */
  ghost predicate NotInFlight(f: Flight, buf: nat) {
    forall h | h in f.chains :: f.chains[h].req.buf != buf
  }

  function Submitted(q: Queue, a: nat, b: nat, c: nat, req: Request): Queue
    requires Shape(q) && a < NUM && b < NUM && c < NUM
  {
    q.(free := q.free[a := false][b := false][c := false],
       ops := q.ops[a := Op(req.write, req.sector)],
       desc := q.desc[a := Desc(Header(a), HEADER_BYTES, false, true, b)]
                     [b := Desc(DataOf(req.buf), BLOCK_BYTES, !req.write, true, c)]
                     [c := Desc(Status(a), 1, true, false, 0)],
       info := q.info[a := Info(Some(req.buf), NO_STATUS)],
       avail := q.avail[q.availIdx % NUM := a],
       availIdx := (q.availIdx + 1) % WRAP,
       onDisk := q.onDisk + {req.buf})
  }

  function AfterSubmit(f: Flight, a: nat, b: nat, c: nat, req: Request): Flight {
    f.(chains := f.chains[a := Chain(b, c, req, Queued)], slot := f.slot[a := a][b := a][c := a],
       queue := f.queue + [a], pushed := f.pushed + 1)
  }

  /** The chains in flight do not use the new descriptors. */
  lemma SubmitApart(q: Queue, f: Flight, a: nat, b: nat, c: nat, req: Request, h: nat)
    requires CanSubmit(q, f, a, b, c, req) && h in f.chains
    ensures h != a && h != b && h != c && h < NUM
    ensures f.chains[h].mid !in {a, b, c} && f.chains[h].last !in {a, b, c}
  {
    hide Rings;
    assert Filled(q, h, f.chains[h]);
  }

  lemma SubmitFilled(q: Queue, f: Flight, a: nat, b: nat, c: nat, req: Request, h: nat)
    requires CanSubmit(q, f, a, b, c, req) && h in f.chains
    ensures Filled(Submitted(q, a, b, c, req), h, f.chains[h])
  {
    hide Rings, Partition;
    SubmitApart(q, f, a, b, c, req, h);
    assert Filled(q, h, f.chains[h]);
  }

  lemma NewIsFilled(q: Queue, a: nat, b: nat, c: nat, req: Request)
    requires Shape(q) && a < NUM && b < NUM && c < NUM && a != b && a != c && b != c
    ensures Shape(Submitted(q, a, b, c, req)) && Filled(Submitted(q, a, b, c, req), a, Chain(b, c, req, Queued))
  {
  }

  lemma SubmitChains(q: Queue, f: Flight, a: nat, b: nat, c: nat, req: Request)
    requires CanSubmit(q, f, a, b, c, req)
    ensures Chains(Submitted(q, a, b, c, req), AfterSubmit(f, a, b, c, req))
  {
    hide Rings, Partition, Filled, Submitted;
    NewIsFilled(q, a, b, c, req);
    forall h | h in f.chains ensures h != a && Filled(Submitted(q, a, b, c, req), h, f.chains[h]) {
      SubmitApart(q, f, a, b, c, req, h);
      SubmitFilled(q, f, a, b, c, req, h);
    }
  }

  /** Three unused descriptors. */
  predicate Unused(f: Flight, a: nat, b: nat, c: nat) {
    a < NUM && b < NUM && c < NUM && a !in f.slot && b !in f.slot && c !in f.slot && a != b && a != c && b != c
  }

  lemma SubmitHeads(f: Flight, a: nat, b: nat, c: nat, req: Request)
    requires Heads(f) && Unused(f, a, b, c)
    ensures Heads(AfterSubmit(f, a, b, c, req))
  {
    var g := AfterSubmit(f, a, b, c, req);
    var sl := g.slot;
    forall h | h in g.chains ensures h in sl && g.chains[h].mid in sl && g.chains[h].last in sl
                               && sl[h] == h && sl[g.chains[h].mid] == h && sl[g.chains[h].last] == h
    {
    }
  }

  lemma SubmitSlots(f: Flight, a: nat, b: nat, c: nat, req: Request)
    requires Slots(f) && Heads(f) && Unused(f, a, b, c)
    ensures Slots(AfterSubmit(f, a, b, c, req))
  {
  }

  lemma SubmitPartition(q: Queue, f: Flight, a: nat, b: nat, c: nat, req: Request)
    requires CanSubmit(q, f, a, b, c, req)
    ensures Partition(Submitted(q, a, b, c, req), AfterSubmit(f, a, b, c, req))
  {
    hide Rings, Filled, Chains, Slots, Heads;
    SubmitSlots(f, a, b, c, req);
    SubmitHeads(f, a, b, c, req);
  }

  lemma SubmitRings(q: Queue, f: Flight, a: nat, b: nat, c: nat, req: Request)
    requires CanSubmit(q, f, a, b, c, req)
    ensures Rings(Submitted(q, a, b, c, req), AfterSubmit(f, a, b, c, req))
  {
    hide Ring, Filled;
    var n, g := Submitted(q, a, b, c, req), AfterSubmit(f, a, b, c, req);
    assert a !in f.queue && a !in f.chains;
    forall x | x in g.queue ensures x < NUM {
      assert x != a ==> Filled(q, x, f.chains[x]);
      HeadInRange(q, f, a, x);
    }
    Pigeonhole(g.queue, NUM);
    RingPush(q.avail, f.queue, f.pushed, q.availIdx, q.takenIdx, a);
  }

  lemma HeadInRange(q: Queue, f: Flight, a: nat, x: nat)
    requires Inv(q, f) && a < NUM && (x == a || x in f.chains)
    ensures x < NUM
  {
  }

  lemma SubmitKeeps(q: Queue, f: Flight, a: nat, b: nat, c: nat, req: Request)
    requires CanSubmit(q, f, a, b, c, req)
    ensures Inv(Submitted(q, a, b, c, req), AfterSubmit(f, a, b, c, req))
  {
    hide Chains, Partition, Rings;
    SubmitChains(q, f, a, b, c, req);
    SubmitPartition(q, f, a, b, c, req);
    SubmitRings(q, f, a, b, c, req);
  }

  // ------------------------------------------------------------------ the device

  /** The request that the device finds by following the descriptors of a chain. */
  function Parse(q: Queue, h: nat): Option<Request>
    requires Shape(q)
  {
    if h < NUM && q.desc[h].target.Header? && q.desc[h].hasNext && q.desc[h].next < NUM && q.desc[h].target.i < NUM then
      var op, d := q.ops[q.desc[h].target.i], q.desc[q.desc[h].next];
      if d.target.DataOf? && d.write == !op.write && d.len == BLOCK_BYTES && d.hasNext && d.next < NUM
         && q.desc[d.next].target == Status(h) && q.desc[d.next].write && !q.desc[d.next].hasNext then
        Some(Request(d.target.buf, op.sector, op.write))
      else
        None
    else
      None
  }

  /** Changing the phase of a chain keeps its descriptors. */
  function Moved(f: Flight, h: nat, phase: Phase): Flight
    requires h in f.chains
  {
    f.(chains := f.chains[h := f.chains[h].(phase := phase)])
  }

  lemma MovedPartition(q: Queue, n: Queue, f: Flight, g: Flight, h: nat, phase: Phase)
    requires Shape(q) && Shape(n) && Partition(q, f) && h in f.chains && n.free == q.free
    requires g.slot == f.slot && g.chains == Moved(f, h, phase).chains
    ensures Partition(n, g)
  {
    assert forall k | k in f.chains :: g.chains[k].mid == f.chains[k].mid && g.chains[k].last == f.chains[k].last;
    assert g.chains.Keys == f.chains.Keys;
    hide Moved;
  }

  lemma MovedChains(q: Queue, n: Queue, f: Flight, h: nat, phase: Phase)
    requires Shape(q) && Shape(n) && Chains(q, f) && h in f.chains
    requires forall k | k in f.chains && k != h :: Filled(n, k, f.chains[k])
    requires Filled(n, h, f.chains[h].(phase := phase))
    ensures Chains(n, Moved(f, h, phase))
  {
    hide Filled;
  }

  lemma QueueRest(s: seq<nat>)
    requires s != [] && Distinct(s)
    ensures Distinct(s[1..]) && forall x :: x in s[1..] <==> x in s && x != s[0]
  {
  }

  lemma QueueMore(s: seq<nat>, x: nat)
    requires Distinct(s) && x !in s
    ensures Distinct(s + [x])
  {
  }

  function Took(q: Queue): Queue {
    q.(takenIdx := (q.takenIdx + 1) % WRAP)
  }

  function AfterTake(f: Flight): Flight
    requires f.queue != [] && f.queue[0] in f.chains
  {
    Moved(f, f.queue[0], Active).(queue := f.queue[1..])
  }

  lemma TakeHead(q: Queue, f: Flight)
    requires Inv(q, f) && q.takenIdx != q.availIdx
    ensures f.queue != [] && f.queue[0] in f.chains && f.chains[f.queue[0]].phase.Queued?
    ensures q.avail[q.takenIdx % NUM] == f.queue[0]
    ensures Filled(q, f.queue[0], f.chains[f.queue[0]])
  {
    hide Partition, Filled, Ring;
    RingPop(q.avail, f.queue, f.pushed, q.availIdx, q.takenIdx);
  }

  lemma TakeChains(q: Queue, f: Flight)
    requires Inv(q, f) && q.takenIdx != q.availIdx
    ensures f.queue != [] && f.queue[0] in f.chains && Chains(Took(q), AfterTake(f))
  {
    hide Partition, Rings;
    TakeHead(q, f);
    var h := f.queue[0];
    forall k | k in f.chains ensures Filled(Took(q), k, f.chains[k]) {
      assert Filled(q, k, f.chains[k]);
    }
    assert Filled(Took(q), h, f.chains[h].(phase := Active));
    hide Filled;
    MovedChains(q, Took(q), f, h, Active);
  }

  lemma TakeRings(q: Queue, f: Flight)
    requires Inv(q, f) && q.takenIdx != q.availIdx
    ensures f.queue != [] && f.queue[0] in f.chains && Rings(Took(q), AfterTake(f))
  {
    hide Partition, Chains, Ring, Filled;
    TakeHead(q, f);
    RingPop(q.avail, f.queue, f.pushed, q.availIdx, q.takenIdx);
    QueueRest(f.queue);
    hide Distinct;
  }

  lemma FilledParses(q: Queue, h: nat, c: Chain)
    requires Shape(q) && Filled(q, h, c)
    ensures Parse(q, h) == Some(c.req)
  {
  }

  /** The device takes the oldest published chain and finds in it the request as issued. */
  lemma TakeKeeps(q: Queue, f: Flight)
    requires Inv(q, f) && q.takenIdx != q.availIdx
    ensures f.queue != [] && f.queue[0] in f.chains && Inv(Took(q), AfterTake(f))
    ensures q.avail[q.takenIdx % NUM] == f.queue[0]
    ensures Parse(q, f.queue[0]) == Some(f.chains[f.queue[0]].req)
  {
    hide Filled, Parse, Chains, Rings, Partition;
    TakeHead(q, f);
    FilledParses(q, f.queue[0], f.chains[f.queue[0]]);
    TakeChains(q, f);
    TakeRings(q, f);
    MovedPartition(q, Took(q), f, AfterTake(f), f.queue[0], Active);
  }

  function DidComplete(q: Queue, h: nat): Queue
    requires Shape(q) && h < NUM
  {
    q.(info := q.info[h := q.info[h].(status := 0)],
       used := q.used[q.usedIdx % NUM := h], usedIdx := (q.usedIdx + 1) % WRAP)
  }

  function AfterComplete(f: Flight, h: nat): Flight
    requires h in f.chains
  {
    Moved(f, h, Completed).(done := f.done + [h], completed := f.completed + 1)
  }

  lemma CompleteRings(q: Queue, f: Flight, h: nat)
    requires Inv(q, f) && h in f.chains && f.chains[h].phase.Active? && h < NUM
    ensures Rings(DidComplete(q, h), AfterComplete(f, h))
  {
    hide Partition, Chains, Ring, Filled;
    forall k | k in f.chains ensures k < NUM {
      HeadInRange(q, f, 0, k);
    }
    QueueMore(f.done, h);
    hide Distinct;
    Pigeonhole(f.done + [h], NUM);
    RingPush(q.used, f.done, f.completed, q.usedIdx, q.seenIdx, h);
  }

  lemma CompleteChains(q: Queue, f: Flight, h: nat)
    requires Inv(q, f) && h in f.chains && f.chains[h].phase.Active? && h < NUM
    ensures Chains(DidComplete(q, h), AfterComplete(f, h))
  {
    hide Partition, Rings;
    var n := DidComplete(q, h);
    forall k | k in f.chains && k != h ensures Filled(n, k, f.chains[k]) {
      assert Filled(q, k, f.chains[k]);
    }
    assert Filled(q, h, f.chains[h]);
    assert Filled(n, h, f.chains[h].(phase := Completed));
    hide Filled;
    MovedChains(q, n, f, h, Completed);
  }

  /** The device may complete the chains it has taken in any order. */
  lemma CompleteKeeps(q: Queue, f: Flight, h: nat)
    requires Inv(q, f) && h in f.chains && f.chains[h].phase.Active?
    ensures h < NUM && Inv(DidComplete(q, h), AfterComplete(f, h))
  {
    hide Filled, Chains, Rings, Partition;
    HeadInRange(q, f, 0, h);
    CompleteChains(q, f, h);
    CompleteRings(q, f, h);
    MovedPartition(q, DidComplete(q, h), f, AfterComplete(f, h), h, Completed);
  }

  // ------------------------------------------------------------------ the interrupt handler

  function DidSee(q: Queue, buf: nat): Queue {
    q.(onDisk := q.onDisk - {buf}, seenIdx := (q.seenIdx + 1) % WRAP)
  }

  function AfterSee(f: Flight): Flight
    requires f.done != [] && f.done[0] in f.chains
  {
    Moved(f, f.done[0], Seen).(done := f.done[1..])
  }

  /** An entry of the used ring names a completed chain and the buffer that issued it. */
  lemma SeeHead(q: Queue, f: Flight)
    requires Inv(q, f) && q.seenIdx != q.usedIdx
    ensures f.done != [] && f.done[0] in f.chains && f.chains[f.done[0]].phase.Completed?
    ensures q.used[q.seenIdx % NUM] == f.done[0] < NUM
    ensures Filled(q, f.done[0], f.chains[f.done[0]])
    ensures q.info[f.done[0]] == Info(Some(f.chains[f.done[0]].req.buf), 0)
  {
    hide Partition, Ring;
    RingPop(q.used, f.done, f.completed, q.usedIdx, q.seenIdx);
  }

  lemma SeeChains(q: Queue, f: Flight)
    requires Inv(q, f) && q.seenIdx != q.usedIdx
    ensures f.done != [] && f.done[0] in f.chains && Chains(DidSee(q, f.chains[f.done[0]].req.buf), AfterSee(f))
  {
    hide Partition, Rings;
    SeeHead(q, f);
    var h := f.done[0];
    var n := DidSee(q, f.chains[h].req.buf);
    forall k | k in f.chains && k != h ensures Filled(n, k, f.chains[k]) {
      assert Filled(q, k, f.chains[k]);
    }
    assert Filled(n, h, f.chains[h].(phase := Seen));
    hide Filled;
    MovedChains(q, n, f, h, Seen);
  }

  lemma SeeRings(q: Queue, f: Flight)
    requires Inv(q, f) && q.seenIdx != q.usedIdx
    ensures f.done != [] && f.done[0] in f.chains && Rings(DidSee(q, f.chains[f.done[0]].req.buf), AfterSee(f))
  {
    hide Partition, Chains, Ring, Filled;
    SeeHead(q, f);
    RingPop(q.used, f.done, f.completed, q.usedIdx, q.seenIdx);
    QueueRest(f.done);
    hide Distinct;
  }

  lemma SeeKeeps(q: Queue, f: Flight)
    requires Inv(q, f) && q.seenIdx != q.usedIdx
    ensures f.done != [] && f.done[0] in f.chains && Inv(DidSee(q, f.chains[f.done[0]].req.buf), AfterSee(f))
  {
    hide Chains, Rings, Filled, Partition;
    SeeHead(q, f);
    SeeChains(q, f);
    SeeRings(q, f);
    MovedPartition(q, DidSee(q, f.chains[f.done[0]].req.buf), f, AfterSee(f), f.done[0], Seen);
  }

  // ------------------------------------------------------------------ giving a chain back

  /** The state after a requester has freed its chain. */
  function Returned(q: Queue, h: nat, c: Chain): Queue
    requires Shape(q) && h < NUM && c.mid < NUM && c.last < NUM
  {
    q.(info := q.info[h := q.info[h].(buf := None)],
       free := q.free[h := true][c.mid := true][c.last := true],
       desc := q.desc[h := EMPTY_DESC][c.mid := EMPTY_DESC][c.last := EMPTY_DESC])
  }

  function AfterReturn(f: Flight, h: nat): Flight
    requires h in f.chains
  {
    f.(chains := f.chains - {h}, slot := f.slot - {h, f.chains[h].mid, f.chains[h].last})
  }

  /** Two chains in flight share no descriptor. */
  lemma ChainsApart(f: Flight, h: nat, k: nat)
    requires Heads(f) && h in f.chains && k in f.chains && h != k
    ensures {h, f.chains[h].mid, f.chains[h].last} !! {k, f.chains[k].mid, f.chains[k].last}
  {
  }

  lemma ReturnFilled(q: Queue, f: Flight, h: nat, k: nat)
    requires Inv(q, f) && h in f.chains && f.chains[h].phase.Seen? && k in f.chains && k != h
    requires h < NUM && f.chains[h].mid < NUM && f.chains[h].last < NUM
    ensures Filled(Returned(q, h, f.chains[h]), k, f.chains[k])
  {
    hide Rings, Heads, Slots;
    ChainsApart(f, h, k);
    assert Filled(q, k, f.chains[k]);
  }

  lemma ReturnSlots(f: Flight, h: nat)
    requires Slots(f) && Heads(f) && h in f.chains
    ensures Slots(AfterReturn(f, h))
  {
    hide Heads;
    var g := AfterReturn(f, h);
    forall i | i in g.slot ensures g.slot[i] != h {
      assert i in f.slot && i != h && i != f.chains[h].mid && i != f.chains[h].last;
    }
  }

  lemma ReturnHeads(f: Flight, h: nat)
    requires Heads(f) && h in f.chains
    ensures Heads(AfterReturn(f, h))
  {
    forall k | k in f.chains && k != h
      ensures {k, f.chains[k].mid, f.chains[k].last} !! {h, f.chains[h].mid, f.chains[h].last}
    {
      ChainsApart(f, h, k);
    }
  }

  lemma ReturnPartition(q: Queue, f: Flight, h: nat)
    requires Inv(q, f) && h in f.chains && h < NUM && f.chains[h].mid < NUM && f.chains[h].last < NUM
    ensures Partition(Returned(q, h, f.chains[h]), AfterReturn(f, h))
  {
    hide Rings, Chains, Filled, Slots, Heads;
    ReturnSlots(f, h);
    ReturnHeads(f, h);
  }

  lemma ReturnRings(q: Queue, f: Flight, h: nat)
    requires Inv(q, f) && h in f.chains && f.chains[h].phase.Seen?
    requires h < NUM && f.chains[h].mid < NUM && f.chains[h].last < NUM
    ensures Rings(Returned(q, h, f.chains[h]), AfterReturn(f, h))
  {
    hide Filled, Chains, Partition, Ring, Distinct;
  }

  /** Freeing a chain that was seen gives back its three descriptors and no others. */
  lemma ReturnKeeps(q: Queue, f: Flight, h: nat)
    requires Inv(q, f) && h in f.chains && f.chains[h].phase.Seen?
    ensures h < NUM && f.chains[h].mid < NUM && f.chains[h].last < NUM
    ensures Inv(Returned(q, h, f.chains[h]), AfterReturn(f, h))
  {
    hide Filled, Partition, Rings;
    ChainInRange(q, f, h);
    ReturnPartition(q, f, h);
    ReturnRings(q, f, h);
    var n, g := Returned(q, h, f.chains[h]), AfterReturn(f, h);
    forall k | k in g.chains ensures Filled(n, k, g.chains[k]) {
      ReturnFilled(q, f, h, k);
    }
    hide Returned;
  }

  lemma ChainInRange(q: Queue, f: Flight, h: nat)
    requires Inv(q, f) && h in f.chains
    ensures h < NUM && f.chains[h].mid < NUM && f.chains[h].last < NUM
  {
    hide Partition, Rings;
    assert Filled(q, h, f.chains[h]);
  }

  // ------------------------------------------------------------------ runs

  /** The steps of requesters, of the device and of the interrupt handler. A requester that
      finds no three free descriptors only sleeps, which is no step. */
  datatype Event = Submit(a: nat, b: nat, c: nat, req: Request) | Take | Complete(h: nat) | See | Return(h: nat)

  ghost predicate Enabled(q: Queue, f: Flight, e: Event) {
    match e
    case Submit(a, b, c, req) => ThreeFree(q.free, a, b, c) && NotInFlight(f, req.buf)
    case Take => q.takenIdx != q.availIdx
    case Complete(h) => h in f.chains && f.chains[h].phase.Active?
    case See => q.seenIdx != q.usedIdx
    case Return(h) => h in f.chains && f.chains[h].req.buf !in q.onDisk
  }

  lemma OffDiskIsSeen(q: Queue, f: Flight, h: nat)
    requires Inv(q, f) && h in f.chains && f.chains[h].req.buf !in q.onDisk
    ensures f.chains[h].phase.Seen?
  {
    hide Partition, Rings;
    assert Filled(q, h, f.chains[h]);
  }

  /** The next state. What the interrupt handler clears it finds through the used ring. */
  ghost function Next(q: Queue, f: Flight, e: Event): (r: (Queue, Flight))
    requires Inv(q, f) && Enabled(q, f, e)
    ensures Inv(r.0, r.1)
  {
    match e
    case Submit(a, b, c, req) =>
      SubmitKeeps(q, f, a, b, c, req);
      (Submitted(q, a, b, c, req), AfterSubmit(f, a, b, c, req))
    case Take =>
      TakeKeeps(q, f);
      (Took(q), AfterTake(f))
    case Complete(h) =>
      CompleteKeeps(q, f, h);
      (DidComplete(q, h), AfterComplete(f, h))
    case See =>
      SeeHead(q, f);
      SeeKeeps(q, f);
      var id := q.used[q.seenIdx % NUM];
      (DidSee(q, q.info[id].buf.value), AfterSee(f))
    case Return(h) =>
      ChainInRange(q, f, h);
      OffDiskIsSeen(q, f, h);
      ReturnKeeps(q, f, h);
      (Returned(q, h, f.chains[h]), AfterReturn(f, h))
  }

  ghost predicate Runs(q: Queue, f: Flight, es: seq<Event>)
    requires Inv(q, f)
    decreases |es|
  {
    es == [] || (Enabled(q, f, es[0]) && var n := Next(q, f, es[0]); Runs(n.0, n.1, es[1..]))
  }

  ghost function Final(q: Queue, f: Flight, es: seq<Event>): (r: (Queue, Flight))
    requires Inv(q, f) && Runs(q, f, es)
    ensures Inv(r.0, r.1)
    decreases |es|
  {
    if es == [] then (q, f) else var n := Next(q, f, es[0]); Final(n.0, n.1, es[1..])
  }

  /** The requests that drivers issued, in order. */
  function Issued(es: seq<Event>): seq<Request> {
    if es == [] then [] else (if es[0].Submit? then [es[0].req] else []) + Issued(es[1..])
  }

  /** The requests that the device read out of the shared memory, in order. */
  ghost function Served(q: Queue, f: Flight, es: seq<Event>): seq<Request>
    requires Inv(q, f) && Runs(q, f, es)
    decreases |es|
  {
    if es == [] then []
    else
      var n := Next(q, f, es[0]);
      var rest := Served(n.0, n.1, es[1..]);
      if es[0].Take? then
        TakeKeeps(q, f);
        [Parse(q, q.avail[q.takenIdx % NUM]).value] + rest
      else rest
  }

  /** The requests that wait in the available ring. */
  ghost function Waiting(f: Flight): seq<Request>
    requires forall h | h in f.queue :: h in f.chains
  {
    seq(|f.queue|, i requires 0 <= i < |f.queue| => f.chains[f.queue[i]].req)
  }

  lemma QueueInChains(q: Queue, f: Flight)
    requires Inv(q, f)
    ensures forall h | h in f.queue :: h in f.chains && f.chains[h].phase.Queued?
  {
  }

  lemma WaitingMore(f: Flight, g: Flight, a: nat, req: Request)
    requires (forall h | h in f.queue :: h in f.chains) && g.queue == f.queue + [a]
    requires a in g.chains && g.chains[a].req == req
    requires forall h | h in f.queue :: h in g.chains && g.chains[h] == f.chains[h]
    ensures (forall h | h in g.queue :: h in g.chains) && Waiting(g) == Waiting(f) + [req]
  {
  }

  /** What one step does to the waiting requests. */
  lemma StepWaiting(q: Queue, f: Flight, e: Event)
    requires Inv(q, f) && Enabled(q, f, e)
    ensures forall h | h in f.queue :: h in f.chains
    ensures var g := Next(q, f, e).1; forall h | h in g.queue :: h in g.chains
    ensures var g := Next(q, f, e).1;
            if e.Submit? then Waiting(g) == Waiting(f) + [e.req]
            else if e.Take? then
              && Parse(q, q.avail[q.takenIdx % NUM]).Some?
              && Waiting(f) == [Parse(q, q.avail[q.takenIdx % NUM]).value] + Waiting(g)
            else Waiting(g) == Waiting(f)
  {
    hide Inv, Parse;
    QueueInChains(q, f);
    QueueInChains(Next(q, f, e).0, Next(q, f, e).1);
    if e.Take? {
      TakeKeeps(q, f);
    } else if e.Submit? {
      forall h | h in f.queue ensures h != e.a {
        assert CanSubmit(q, f, e.a, e.b, e.c, e.req);
        SubmitApart(q, f, e.a, e.b, e.c, e.req, h);
      }
      WaitingMore(f, AfterSubmit(f, e.a, e.b, e.c, e.req), e.a, e.req);
    }
  }

  /** A descriptor is the head, the middle or the end of a chain. */
  predicate PartOf(f: Flight, i: nat, h: nat) {
    h in f.chains && (i == h || i == f.chains[h].mid || i == f.chains[h].last)
  }

  ghost predicate Parted(q: Queue, f: Flight, i: nat)
    requires i < |q.free|
  {
    && (q.free[i] <==> forall h: nat :: !PartOf(f, i, h))
    && (forall h: nat, k: nat | PartOf(f, i, h) && PartOf(f, i, k) :: h == k)
  }

  lemma InvParts(q: Queue, f: Flight, i: nat)
    requires Inv(q, f) && i < NUM
    ensures |q.free| == NUM && Parted(q, f, i)
    ensures forall h, k | h in f.chains && k in f.chains && f.chains[h].req.buf == f.chains[k].req.buf :: h == k
  {
    hide Rings, Blank, Filled;
    if !q.free[i] {
      assert PartOf(f, i, f.slot[i]);
    }
  }

  /** In every state that a run can reach, a descriptor is free exactly when it is part of no
      chain in flight, no descriptor is part of two, and no buffer has two requests. */
  lemma EveryRunPartitions(q: Queue, f: Flight, es: seq<Event>, i: nat)
    requires Inv(q, f) && Runs(q, f, es) && i < NUM
    ensures var (r, g) := Final(q, f, es);
            && |r.free| == NUM && Parted(r, g, i)
            && forall h, k | h in g.chains && k in g.chains && g.chains[h].req.buf == g.chains[k].req.buf :: h == k
  {
    hide Inv, Runs, Parted, Final;
    InvParts(Final(q, f, es).0, Final(q, f, es).1, i);
  }

  /** The device serves exactly the requests that were issued, unaltered and in order: in
      every run, what it has read followed by what still waits is what was issued. */
  lemma {:induction false} ServedAsIssued(q: Queue, f: Flight, es: seq<Event>)
    requires Inv(q, f) && Runs(q, f, es)
    ensures forall h | h in f.queue :: h in f.chains
    ensures var g := Final(q, f, es).1;
            (forall h | h in g.queue :: h in g.chains) && Served(q, f, es) + Waiting(g) == Waiting(f) + Issued(es)
    decreases |es|
  {
    hide Chains, Partition, Rings, Blank, Parse, Waiting, Next;
    QueueInChains(q, f);
    if es != [] {
      var n := Next(q, f, es[0]);
      StepWaiting(q, f, es[0]);
      ServedAsIssued(n.0, n.1, es[1..]);
      var x := if es[0].Take? then [Parse(q, q.avail[q.takenIdx % NUM]).value] else [];
      var y := if es[0].Submit? then [es[0].req] else [];
      Regroup(x, Served(n.0, n.1, es[1..]), Waiting(Final(q, f, es).1), Waiting(f), Waiting(n.1), y, Issued(es[1..]));
    }
  }

  lemma Regroup(x: seq<Request>, rest: seq<Request>, end: seq<Request>, before: seq<Request>, after: seq<Request>,
                y: seq<Request>, tail: seq<Request>)
    requires before + y == x + after && rest + end == after + tail
    ensures x + rest + end == before + (y + tail)
  {
    assert x + rest + end == x + (rest + end);
    assert x + (after + tail) == x + after + tail;
    assert before + y + tail == before + (y + tail);
  }
}
