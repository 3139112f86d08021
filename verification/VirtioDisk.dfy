/** The disk driver's code. Each method is what runs under the driver's lock between two
    sleeps; the methods named Device stand for the hardware. */
module VirtioDisk {
  import opened Basics
  import opened VirtioSpec

  /** Some three descriptors are free. */
  ghost predicate RoomForChain(free: seq<bool>) {
    exists a: nat, b: nat, c: nat :: ThreeFree(free, a, b, c)
  }

  /** Three descriptors are linked to a chain. */
  predicate Linked(desc: seq<Desc>, h: nat, c: Chain) {
    && h < |desc| && c.mid < |desc| && c.last < |desc| && h != c.mid && h != c.last && c.mid != c.last
    && desc[h].hasNext && desc[h].next == c.mid
    && desc[c.mid].hasNext && desc[c.mid].next == c.last && !desc[c.last].hasNext
  }

  class Disk {
    const free: array<bool>
    const desc: array<Desc>
    const ops: array<Op>
    const info: array<Info>
    const avail: array<nat>
    const used: array<nat>
    var availIdx: nat
    var usedIdx: nat
    var seenIdx: nat
    /** The device's own position in the available ring. */
    var takenIdx: nat
    /** The buffers whose `disk` flag is set. */
    var onDisk: set<nat>
    ghost var flight: Flight

    ghost predicate Sized()
    {
      && free.Length == NUM && desc.Length == NUM && ops.Length == NUM && info.Length == NUM
      && avail.Length == NUM && used.Length == NUM && avail != used
    }

    ghost function State(): Queue
      reads this, free, desc, ops, info, avail, used
    {
      Queue(free[..], desc[..], ops[..], info[..], avail[..], availIdx, used[..], usedIdx, seenIdx, takenIdx, onDisk)
    }

    ghost predicate Valid()
      reads this, free, desc, ops, info, avail, used
    {
      Sized() && Inv(State(), flight)
    }

    constructor ()
      ensures Valid() && flight == Flight(map[], map[], [], [], 0, 0) && onDisk == {}
      ensures forall i | 0 <= i < NUM :: free[i]
      ensures fresh(free) && fresh(desc) && fresh(ops) && fresh(info) && fresh(avail) && fresh(used)
    {
      free := new bool[NUM](_ => true);
      desc := new Desc[NUM](_ => EMPTY_DESC);
      ops := new Op[NUM](_ => Op(false, 0));
      info := new Info[NUM](_ => Info(None, 0));
      avail := new nat[NUM](_ => 0);
      used := new nat[NUM](_ => 0);
      availIdx, usedIdx, seenIdx, takenIdx := 0, 0, 0, 0;
      onDisk := {};
      flight := Flight(map[], map[], [], [], 0, 0);
      new;
      hide Inv;
      NothingInFlight(State());
    }

    /** alloc_desc: the first free descriptor, or -1. */
    method AllocDesc() returns (i: int)
      requires free.Length == NUM
      modifies free
      ensures i == -1 ==> free[..] == old(free[..]) && forall k | 0 <= k < NUM :: !free[k]
      ensures i != -1 ==> 0 <= i < NUM && old(free[i]) && free[..] == old(free[..])[i := false]
      ensures i != -1 ==> forall k | 0 <= k < i :: !old(free[k])
    {
      i := 0;
      while i < NUM
        invariant 0 <= i <= NUM && free[..] == old(free[..])
        invariant forall k | 0 <= k < i :: !old(free[k])
      {
        if free[i] {
          free[i] := false;
          return;
        }
        i := i + 1;
      }
      i := -1;
    }

    /** free_desc; `ok` is false when it panics. */
    method FreeDesc(i: int) returns (ok: bool)
      requires free.Length == NUM && desc.Length == NUM
      modifies free, desc
      ensures ok <==> 0 <= i < NUM && !old(free[i])
      ensures ok ==> free[..] == old(free[..])[i := true] && desc[..] == old(desc[..])[i := EMPTY_DESC]
      ensures !ok ==> free[..] == old(free[..]) && desc[..] == old(desc[..])
    {
      if i < 0 || i >= NUM || free[i] {
        return false;
      }
      desc[i] := EMPTY_DESC;
      free[i] := true;
      ok := true;
    }

    /** alloc3_desc: three distinct free descriptors; when there are none, everything is as
        it was before. */
    method Alloc3Desc() returns (ok: bool, idx: seq<nat>)
      requires free.Length == NUM && desc.Length == NUM
      requires forall i | 0 <= i < NUM && free[i] :: desc[i] == EMPTY_DESC
      modifies free, desc
      ensures desc[..] == old(desc[..])
      ensures ok <==> RoomForChain(old(free[..]))
      ensures !ok ==> free[..] == old(free[..])
      ensures ok ==> |idx| == 3 && ThreeFree(old(free[..]), idx[0], idx[1], idx[2])
      ensures ok ==> free[..] == old(free[..])[idx[0] := false][idx[1] := false][idx[2] := false]
    {
      idx := [];
      while |idx| < 3
        invariant |idx| <= 3 && Distinct(idx) && desc[..] == old(desc[..])
        invariant forall k | 0 <= k < |idx| :: idx[k] < NUM && old(free[..])[idx[k]]
        invariant free[..] == Cleared(old(free[..]), idx)
      {
        var i := AllocDesc();
        if i == -1 {
          NoRoom(old(free[..]), idx);
          Undo(idx);
          return false, [];
        }
        idx := idx + [i];
        ClearedMore(old(free[..]), idx[..|idx| - 1], i);
      }
      ClearedThree(old(free[..]), idx);
      assert ThreeFree(old(free[..]), idx[0], idx[1], idx[2]);
      ok := true;
    }

    /** The way out of alloc3_desc: gives back what was taken. */
    method Undo(idx: seq<nat>)
      requires free.Length == NUM && desc.Length == NUM && Distinct(idx)
      requires forall k | 0 <= k < |idx| :: idx[k] < NUM && !free[idx[k]] && desc[idx[k]] == EMPTY_DESC
      modifies free, desc
      ensures desc[..] == old(desc[..])
      ensures forall i | 0 <= i < NUM :: free[i] <==> old(free[i]) || i in idx
    {
      var j := 0;
      while j < |idx|
        invariant 0 <= j <= |idx| && desc[..] == old(desc[..])
        invariant forall i | 0 <= i < NUM :: free[i] <==> old(free[i]) || i in idx[..j]
      {
        ghost var before := free[..];
        assert idx[j] !in idx[..j];
        var ok := FreeDesc(idx[j]);
        assert idx[..j + 1] == idx[..j] + [idx[j]];
        assert desc[..] == old(desc[..]);
        j := j + 1;
      }
      assert idx[..j] == idx;
    }

    /** Fills the request header and the three descriptors. */
    method FillChain(a: nat, b: nat, c: nat, buf: nat, bno: nat, write: bool)
      requires Sized() && a < NUM && b < NUM && c < NUM
      modifies ops, desc, info
      ensures ops[..] == old(ops[..])[a := Op(write, 2 * bno)]
      ensures desc[..] == old(desc[..])[a := Desc(Header(a), HEADER_BYTES, false, true, b)]
                            [b := Desc(DataOf(buf), BLOCK_BYTES, !write, true, c)]
                            [c := Desc(Status(a), 1, true, false, 0)]
      ensures info[..] == old(info[..])[a := Info(Some(buf), NO_STATUS)]
    {
      ops[a] := Op(write, 2 * bno);
      desc[a] := Desc(Header(a), HEADER_BYTES, false, true, b);
      desc[b] := Desc(DataOf(buf), BLOCK_BYTES, !write, true, c);
      info[a] := Info(Some(buf), NO_STATUS);
      desc[c] := Desc(Status(a), 1, true, false, 0);
    }

    /** What the device finds under a head: a header of 16 bytes and 1024 bytes of data, which it
        reads for a write and writes for a read, then a status byte to write, which is not 0 yet. */
    ghost predicate Published(h: nat, buf: nat, sector: nat, write: bool)
      reads desc, ops, info
    {
      && h < desc.Length && h < ops.Length && h < info.Length
      && ops[h] == Op(write, sector) && info[h] == Info(Some(buf), 0xff)
      && desc[h].target == Header(h) && desc[h].len == 16 && !desc[h].write && desc[h].hasNext
      && var m := desc[h].next;
         && m < desc.Length
         && desc[m].target == DataOf(buf) && desc[m].len == 1024 && desc[m].write == !write && desc[m].hasNext
         && var l := desc[m].next;
            l < desc.Length && desc[l].target == Status(h) && desc[l].len == 1 && desc[l].write && !desc[l].hasNext
    }

    /** The part of virtio_disk_rw up to the first sleep on the buffer; `ok` is false when the
        request has to wait for descriptors. */
    method Submit(buf: nat, bno: nat, write: bool) returns (ok: bool, h: nat)
      requires Valid() && NotInFlight(flight, buf)
      modifies this, free, desc, ops, info, avail
      ensures Valid()
      ensures ok <==> RoomForChain(old(free[..]))
      ensures !ok ==> State() == old(State()) && flight == old(flight)
      ensures ok ==> exists b, c :: flight == AfterSubmit(old(flight), h, b, c, Request(buf, 2 * bno, write))
      ensures ok ==> Published(h, buf, 2 * bno, write)
      ensures ok ==> availIdx == (old(availIdx) + 1) % WRAP && avail[old(availIdx) % NUM] == h
      ensures onDisk == old(onDisk) + if ok then {buf} else {}
    {
      hide Chains, Partition, Rings, NotInFlight;
      ghost var q := State();
      var idx;
      ok, idx := Alloc3Desc();
      if !ok {
        return false, 0;
      }
      var a, b, c := idx[0], idx[1], idx[2];
      ghost var req := Request(buf, 2 * bno, write);
      FillChain(a, b, c, buf, bno, write);
      onDisk := onDisk + {buf};
      avail[availIdx % NUM] := a;
      availIdx := (availIdx + 1) % WRAP;
      SubmitKeeps(q, flight, a, b, c, req);
      flight := AfterSubmit(flight, a, b, c, req);
      hide Inv;
      assert State() == Submitted(q, a, b, c, req);
      h := a;
      assert desc[..] == Submitted(q, a, b, c, req).desc;
    }

    /** The device takes the next published chain; it reads the request as it was issued. */
    method DeviceTake() returns (h: nat, req: Request)
      requires Valid() && takenIdx != availIdx
      modifies this
      ensures Valid()
      ensures old(flight).queue != [] && h == old(flight).queue[0] && h in old(flight).chains
      ensures req == old(flight).chains[h].req && flight == AfterTake(old(flight)) && onDisk == old(onDisk)
    {
      hide Chains, Partition, Rings;
      TakeHead(State(), flight);
      TakeKeeps(State(), flight);
      h := avail[takenIdx % NUM];
      var op, data := ops[desc[h].target.i], desc[desc[h].next];
      req := Request(data.target.buf, op.sector, op.write);
      takenIdx := (takenIdx + 1) % WRAP;
      flight := AfterTake(flight);
    }

    /** The device completes a chain that it has taken. */
    method DeviceComplete(h: nat)
      requires Valid() && h in flight.chains && flight.chains[h].phase.Active?
      modifies this, info, used
      ensures Valid() && flight == AfterComplete(old(flight), h) && onDisk == old(onDisk)
    {
      hide Chains, Partition, Rings;
      ghost var q := State();
      CompleteKeeps(q, flight, h);
      info[h] := info[h].(status := 0);
      used[usedIdx % NUM] := h;
      usedIdx := (usedIdx + 1) % WRAP;
      flight := AfterComplete(flight, h);
      assert State() == DidComplete(q, h);
    }

    /** One round of virtio_disk_intr. It never panics, and clears the flag of exactly the
        buffer whose request is completed. */
    method IntrStep() returns (ok: bool)
      requires Valid() && seenIdx != usedIdx
      modifies this
      ensures ok && Valid()
      ensures old(flight).done != [] && old(flight).done[0] in old(flight).chains && flight == AfterSee(old(flight))
      ensures onDisk == old(onDisk) - {old(flight).chains[old(flight).done[0]].req.buf}
    {
      hide Chains, Partition, Rings;
      ghost var q := State();
      SeeHead(q, flight);
      SeeKeeps(q, flight);
      var id := used[seenIdx % NUM];
      ok := info[id].status == 0;
      onDisk := onDisk - {info[id].buf.value};
      seenIdx := (seenIdx + 1) % WRAP;
      flight := AfterSee(flight);
      assert State() == DidSee(q, q.info[id].buf.value);
    }

    /** free_chain: frees exactly the three descriptors of a chain, without panicking. */
    method FreeChain(h: nat, ghost c: Chain) returns (ok: bool)
      requires free.Length == NUM && desc.Length == NUM && Linked(desc[..], h, c)
      requires !free[h] && !free[c.mid] && !free[c.last]
      modifies free, desc
      ensures ok
      ensures free[..] == old(free[..])[h := true][c.mid := true][c.last := true]
      ensures desc[..] == old(desc[..])[h := EMPTY_DESC][c.mid := EMPTY_DESC][c.last := EMPTY_DESC]
    {
      var i := h;
      ghost var left := 2;
      while true
        invariant 0 <= left <= 2
        invariant i == if left == 2 then h else if left == 1 then c.mid else c.last
        invariant free[..] == if left == 2 then old(free[..]) else if left == 1 then old(free[..])[h := true]
                              else old(free[..])[h := true][c.mid := true]
        invariant desc[..] == if left == 2 then old(desc[..]) else if left == 1 then old(desc[..])[h := EMPTY_DESC]
                              else old(desc[..])[h := EMPTY_DESC][c.mid := EMPTY_DESC]
        decreases left
      {
        var hasNext, next := desc[i].hasNext, desc[i].next;
        assert desc[i] == old(desc[..])[i] && free[i] == old(free[..])[i];
        ok := FreeDesc(i);
        if !hasNext || !ok {
          return;
        }
        i := next;
        left := left - 1;
      }
    }

    /** The end of virtio_disk_rw, once the buffer's flag is clear. */
    method Finish(h: nat) returns (ok: bool)
      requires Valid() && h in flight.chains && flight.chains[h].req.buf !in onDisk
      modifies this, free, desc, info
      ensures ok && Valid() && flight == AfterReturn(old(flight), h) && onDisk == old(onDisk)
    {
      hide Chains, Partition, Rings;
      ghost var q := State();
      ghost var c := flight.chains[h];
      OffDiskIsSeen(q, flight, h);
      ReturnKeeps(q, flight, h);
      ChainIsUsed(q, flight, h);
      info[h] := info[h].(buf := None);
      ok := FreeChain(h, c);
      flight := AfterReturn(flight, h);
      assert State() == Returned(q, h, c);
    }
  }

  /** No request is in flight. */
  ghost predicate Quiet(f: Flight) {
    f.chains == map[] && f.slot == map[] && f.queue == [] && f.done == []
  }

  /** One request from virtio_disk_rw to its end, with the device and the interrupt in between:
      the device gets the request, the buffer's flag is clear and every descriptor is free. */
  method Serve(d: Disk, buf: nat, bno: nat, write: bool) returns (req: Request)
    requires d.Valid() && Quiet(d.flight)
    modifies d, d.free, d.desc, d.ops, d.info, d.avail, d.used
    ensures d.Valid() && Quiet(d.flight) && req == Request(buf, 2 * bno, write)
    ensures d.onDisk == old(d.onDisk) - {buf} && forall i | 0 <= i < NUM :: d.free[i]
  {
    hide Inv;
    AllFree(d.State(), d.flight);
    assert ThreeFree(d.free[..], 0, 1, 2);
    var ok, h := d.Submit(buf, bno, write);
    SubmittedAlone(d.State(), d.flight, h);
    var k;
    k, req := d.DeviceTake();
    d.DeviceComplete(h);
    CompletedAlone(d.State(), d.flight, h);
    ok := d.IntrStep();
    ok := d.Finish(h);
    AllFree(d.State(), d.flight);
  }

  lemma AllFree(q: Queue, f: Flight)
    requires Inv(q, f) && Quiet(f)
    ensures |q.free| == NUM && forall i | 0 <= i < NUM :: q.free[i]
  {
  }

  lemma SubmittedAlone(q: Queue, f: Flight, h: nat)
    requires Inv(q, f) && f.queue == [h]
    ensures q.takenIdx != q.availIdx
  {
    RingPop(q.avail, f.queue, f.pushed, q.availIdx, q.takenIdx);
  }

  lemma CompletedAlone(q: Queue, f: Flight, h: nat)
    requires Inv(q, f) && f.done == [h]
    ensures q.seenIdx != q.usedIdx
  {
    RingPop(q.used, f.done, f.completed, q.usedIdx, q.seenIdx);
  }

  /** Any number of requests, one after the other: the device gets each as it was made. */
  method ServeAll(reqs: seq<(nat, nat, bool)>) returns (served: seq<Request>, d: Disk)
    ensures d.Valid() && Quiet(d.flight) && |served| == |reqs|
    ensures forall i | 0 <= i < |reqs| :: served[i] == Request(reqs[i].0, 2 * reqs[i].1, reqs[i].2)
  {
    hide Inv;
    d := new Disk();
    served := [];
    for i := 0 to |reqs|
      invariant fresh(d) && fresh(d.free) && fresh(d.desc) && fresh(d.ops) && fresh(d.info)
      invariant fresh(d.avail) && fresh(d.used) && d.Valid() && Quiet(d.flight) && |served| == i
      invariant forall k | 0 <= k < i :: served[k] == Request(reqs[k].0, 2 * reqs[k].1, reqs[k].2)
    {
      var req := Serve(d, reqs[i].0, reqs[i].1, reqs[i].2);
      served := served + [req];
    }
  }

  lemma ChainIsUsed(q: Queue, f: Flight, h: nat)
    requires Inv(q, f) && h in f.chains
    ensures Linked(q.desc, h, f.chains[h])
    ensures !q.free[h] && !q.free[f.chains[h].mid] && !q.free[f.chains[h].last]
  {
    hide Rings;
  }

  lemma NothingInFlight(q: Queue)
    requires Shape(q) && q.availIdx == q.takenIdx == q.usedIdx == q.seenIdx == 0
    requires forall i | 0 <= i < NUM :: q.free[i] && q.desc[i] == EMPTY_DESC
    ensures Inv(q, Flight(map[], map[], [], [], 0, 0))
  {
  }

  function Cleared(free: seq<bool>, idx: seq<nat>): (r: seq<bool>)
    ensures |r| == |free|
  {
    seq(|free|, i requires 0 <= i < |free| => free[i] && i !in idx)
  }

  lemma ClearedMore(free: seq<bool>, idx: seq<nat>, i: nat)
    requires i < |free|
    ensures Cleared(free, idx)[i := false] == Cleared(free, idx + [i])
  {
  }

  lemma ClearedThree(free: seq<bool>, idx: seq<nat>)
    requires |idx| == 3 && forall k | 0 <= k < 3 :: idx[k] < |free|
    ensures Cleared(free, idx) == free[idx[0] := false][idx[1] := false][idx[2] := false]
  {
  }

  /** If taking at most two descriptors leaves none, there were no three. */
  lemma NoRoom(free: seq<bool>, idx: seq<nat>)
    requires |free| == NUM && |idx| < 3 && forall i | 0 <= i < NUM :: !Cleared(free, idx)[i]
    ensures !RoomForChain(free)
  {
    forall i: nat | i < NUM && free[i] ensures i in idx {
      assert !Cleared(free, idx)[i];
    }
    forall a: nat, b: nat, c: nat ensures !ThreeFree(free, a, b, c) {
      assert a in idx && b in idx && c in idx ==> a == b || a == c || b == c;
    }
  }
}
