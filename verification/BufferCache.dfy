/** The buffer cache: a fixed set of buffers on a doubly linked ring in order of last use,
    with reference counts, holders and pins, in front of a disk. */
module BufferCache {
  import opened Basics
  import opened Blocks
  import opened DiskLayout
  import opened LogSpec

  const N_BUF: nat := 3 * MAX_OP_BLKS
  const ROOT_DEV: nat := 1

  /** The disk, with the history of its single-block writes. */
  class Device {
    var blocks: Disk
    ghost var history: seq<Write>

    constructor (image: Disk)
      ensures blocks == image && history == []
    {
      blocks, history := image, [];
    }

    method WriteBlock(bno: nat, data: Block)
      requires bno < N_BLKS
      modifies this
      ensures blocks == old(blocks)[bno := data]
      ensures history == old(history) + [Write(bno, data)]
    {
      blocks := blocks[bno := data];
      history := history + [Write(bno, data)];
    }
  }

  /** `users` counts the processes between taking and dropping a reference, `pins` the
      references of the log, and `stamp` the moment the last reference was dropped. */
  class Buffer {
    var valid: bool
    var dev: nat
    var bno: nat
    var refcnt: nat
    var locked: bool
    var data: Block
    var prev: Buffer
    var next: Buffer
    ghost var users: nat
    ghost var pins: nat
    ghost var stamp: int

    /** Memory that the program loader has zeroed. */
    constructor ()
      ensures Zeroed()
    {
      valid, dev, bno, refcnt, locked, data := false, 0, 0, 0, false, Zeros();
      prev, next := this, this;
      users, pins, stamp := 0, 0, 0;
    }

    /** Gives the buffer to another block, locked, with the block's contents from the disk. */
    method Reload(dev: nat, bno: nat, disk: Device)
      requires bno < N_BLKS
      modifies `dev, `bno, `valid, `refcnt, `users, `locked, `data
      ensures this.dev == dev && this.bno == bno && valid && locked
      ensures refcnt == 1 && users == 1 && data == disk.blocks[bno]
    {
      this.dev, this.bno := dev, bno;
      valid, refcnt, users := false, 1, 1;
      locked := true;
      data := disk.blocks[bno];
      valid := true;
    }

    ghost predicate Zeroed()
      reads `valid, `dev, `bno, `refcnt, `locked, `users, `pins
    {
      !valid && dev == 0 && bno == 0 && refcnt == 0 && !locked && users == 0 && pins == 0
    }
  }

  function Overlay(d: Disk, cached: map<nat, Block>): (r: Disk)
    ensures forall i | 0 <= i < N_BLKS :: r[i] == if i in cached then cached[i] else d[i]
  {
    seq<Block>(N_BLKS, i requires 0 <= i < N_BLKS => if i in cached then cached[i] else d[i])
  }

  /** The references to one cached block: of processes, of the log, and the lock. */
  datatype Ref = Ref(users: nat, pins: nat, locked: bool)

  /** The ring: `c` lists its buffers along `next`, starting with the head. */
  ghost predicate Linked(c: seq<Buffer>)
    reads c`next, c`prev
  {
    && |c| > 0
    && (forall i, j | 0 <= i < j < |c| :: c[i] != c[j])
    && (forall i | 0 <= i < |c| - 1 :: c[i].next == c[i + 1])
    && (forall i | 0 < i < |c| :: c[i].prev == c[i - 1])
    && c[|c| - 1].next == c[0] && c[0].prev == c[|c| - 1]
  }

  lemma Apart(c: seq<Buffer>, i: nat, j: nat)
    requires Linked(c) && i < j < |c|
    ensures c[i] != c[j]
  {
  }

  /** Takes the buffer at position `p` out of the ring. */
  method Unlink(ghost c: seq<Buffer>, ghost p: nat, b: Buffer)
    requires Linked(c) && 0 < p < |c| && c[p] == b
    modifies c`next, c`prev
    ensures Linked(c[..p] + c[p + 1..])
  {
    ghost var d := c[..p] + c[p + 1..];
    assert b.prev == c[p - 1] == d[p - 1];
    assert b.next == (if p + 1 < |c| then c[p + 1] else c[0]) == (if p < |d| then d[p] else d[0]);
    b.next.prev := b.prev;
    b.prev.next := b.next;
    assert forall i | 0 <= i < |d| :: d[i] == c[if i < p then i else i + 1];
  }

  /** Puts a buffer right after the head of the ring. */
  method PushFront(ghost c: seq<Buffer>, head: Buffer, b: Buffer)
    requires Linked(c) && c[0] == head && b !in c
    modifies c`next, c`prev, b`next, b`prev
    ensures Linked([head, b] + c[1..])
  {
    ghost var d := [head, b] + c[1..];
    assert head.next == (if |c| > 1 then c[1] else c[0]);
    b.next := head.next;
    b.prev := head;
    head.next.prev := b;
    head.next := b;
    assert forall i | 1 < i < |d| :: d[i] == c[i - 1];
    assert d[|d| - 1] == if |c| > 1 then c[|c| - 1] else b;
  }

  /** One round of the loop of binit. */
  method Admit(ghost c: seq<Buffer>, head: Buffer, b: Buffer, ghost stamp: int)
    requires Linked(c) && c[0] == head && b !in c && b.Zeroed()
    modifies c`next, c`prev, b
    ensures Linked([head, b] + c[1..]) && b.Zeroed() && b.stamp == stamp
  {
    b.refcnt, b.valid := 0, false;
    b.stamp := stamp;
    PushFront(c, head, b);
  }

  lemma LinkedAlone(head: Buffer)
    requires head.prev == head && head.next == head
    ensures Linked([head])
  {
  }

  /** The loop of binit. */
  method BuildRing(head: Buffer, bufs: seq<Buffer>) returns (ghost ring: seq<Buffer>)
    requires head !in bufs
    requires forall i, j | 0 <= i < j < |bufs| :: bufs[i] != bufs[j]
    requires forall b | b in bufs :: b.Zeroed()
    modifies head, bufs
    ensures |ring| == |bufs| + 1 && ring[0] == head && Linked(ring)
    ensures forall i | 1 <= i < |ring| :: ring[i] == bufs[|bufs| - i]
    ensures forall i | 0 <= i < |bufs| :: bufs[i].Zeroed() && bufs[i].stamp == i
    ensures head.stamp == -1
  {
    hide Linked, Buffer.Zeroed;
    head.prev, head.next := head, head;
    head.stamp := -1;
    ring := [head];
    LinkedAlone(head);
    var k := 0;
    while k < |bufs|
      invariant 0 <= k <= |bufs| && |ring| == k + 1 && ring[0] == head
      invariant Linked(ring)
      invariant forall i | 1 <= i <= k :: ring[i] == bufs[k - i]
      invariant forall i | 0 <= i < |bufs| :: bufs[i].Zeroed()
      invariant forall i | 0 <= i < k :: bufs[i].stamp == i
      invariant head.stamp == -1
    {
      assert bufs[k] !in ring;
      Admit(ring, head, bufs[k], k);
      ring := [head, bufs[k]] + ring[1..];
      k := k + 1;
    }
  }

  /** The unreferenced buffers of a ring, but for one, are in order of release. */
  ghost predicate OrderBut(c: seq<Buffer>, b: Buffer)
    reads (set x | x in c && x != b)`refcnt, (set x | x in c && x != b)`stamp
  {
    forall i, j | 1 <= i < j < |c| && c[i] != b && c[j] != b && c[i].refcnt == 0 && c[j].refcnt == 0 ::
      c[i].stamp > c[j].stamp
  }

  /** Moving that one to the front leaves the others in order. */
  lemma MovedOrder(c: seq<Buffer>, d: seq<Buffer>, p: nat, head: Buffer, b: Buffer)
    requires OrderBut(c, b) && 0 < p < |c| && c[p] == b && d == [head, b] + c[1..p] + c[p + 1..]
    ensures OrderBut(d, b)
  {
    forall i, j | 1 <= i < j < |d| && d[i] != b && d[j] != b && d[i].refcnt == 0 && d[j].refcnt == 0
      ensures d[i].stamp > d[j].stamp
    {
      var x, y := if i <= p then i - 1 else i, if j <= p then j - 1 else j;
      assert d[i] == c[x] && d[j] == c[y];
    }
  }

  class Cache {
    const disk: Device
    const head: Buffer
    /** The head and the N_BUF buffers. */
    ghost const nodes: set<Buffer>
    /** The buffers along the ring, most recently released first, after the head. */
    ghost var ring: seq<Buffer>
    /** The buffer that caches each block. */
    ghost var owner: map<nat, Buffer>
    ghost var clock: int

    /** binit: links the buffers into the ring, each in front of the earlier ones. */
    constructor (disk: Device, head: Buffer, bufs: seq<Buffer>)
      requires |bufs| == N_BUF && head !in bufs
      requires forall i, j | 0 <= i < j < |bufs| :: bufs[i] != bufs[j]
      requires forall b | b in bufs :: b.Zeroed()
      modifies head, bufs
      ensures Valid() && !Full()
      ensures this.disk == disk && this.head == head
      ensures nodes == set b | b in [head] + bufs
      ensures Store() == disk.blocks
    {
      this.disk, this.head := disk, head;
      nodes := set b | b in [head] + bufs;
      owner := map[];
      clock := N_BUF;
      ring := [];
      new;
      hide Linked, Buffer.Zeroed, Ring, Counts, Owners, Clean, Lru, Store;
      ring := BuildRing(head, bufs);
      RingBuilt(bufs);
      NothingCached();
      assert bufs[0] in nodes && bufs[0].Zeroed();
    }

    ghost predicate Ring()
      reads `ring, nodes`next, nodes`prev
    {
      && |ring| == N_BUF + 1 && ring[0] == head
      && (forall i | 0 <= i < |ring| :: ring[i] in nodes)
      && (forall b | b in nodes :: b in ring)
      && Linked(ring)
    }

    /** What the loop of binit leaves behind is a ring in order of release. */
    lemma RingBuilt(bufs: seq<Buffer>)
      requires |bufs| == N_BUF && head !in bufs && nodes == (set b | b in [head] + bufs)
      requires |ring| == N_BUF + 1 && ring[0] == head && Linked(ring) && clock == N_BUF
      requires forall i | 1 <= i < |ring| :: ring[i] == bufs[N_BUF - i]
      requires (forall i | 0 <= i < N_BUF :: bufs[i].Zeroed() && bufs[i].stamp == i) && head.stamp == -1
      ensures Ring() && Lru() && forall b | b in nodes && b != head :: b.Zeroed()
    {
      hide Linked, Buffer.Zeroed;
      forall b | b in nodes ensures b in ring {
        if b != head {
          var i :| 0 <= i < N_BUF && bufs[i] == b;
          assert ring[N_BUF - i] == b;
        }
      }
    }

    lemma NothingCached()
      requires owner == map[] && forall b | b in nodes && b != head :: b.Zeroed()
      ensures Counts() && Owners() && Clean() && Store() == disk.blocks
    {
    }

    ghost predicate Counts()
      reads nodes`refcnt, nodes`users, nodes`pins, nodes`locked
    {
      forall b | b in nodes && b != head ::
        b.refcnt == b.users + b.pins && (b.locked ==> b.users > 0)
    }

    ghost predicate Owners()
      reads `owner, nodes`dev, nodes`bno, nodes`valid, nodes`refcnt
    {
      && (forall k | k in owner ::
            && k < N_BLKS && owner[k] in nodes && owner[k] != head
            && owner[k].dev == ROOT_DEV && owner[k].bno == k && owner[k].valid)
      && (forall b | b in nodes && b != head && b.dev == ROOT_DEV ::
            b.bno in owner && owner[b.bno] == b)
      && (forall b | b in nodes && b != head && b.dev != ROOT_DEV :: b.dev == 0 && b.refcnt == 0)
    }

    /** A buffer that nobody has locked and the log has not pinned agrees with the disk. */
    ghost predicate Clean()
      reads `owner, nodes`dev, nodes`bno, nodes`valid, nodes`refcnt, nodes`locked, nodes`pins, nodes`data, disk`blocks
      requires Owners()
    {
      forall k | k in owner && !owner[k].locked && owner[k].pins == 0 ::
        owner[k].data == disk.blocks[k]
    }

    ghost predicate Lru()
      reads `ring, `clock, nodes`next, nodes`prev, nodes`refcnt, nodes`stamp
      requires Ring()
    {
      && (forall i, j | 1 <= i < j < |ring| && ring[i].refcnt == 0 && ring[j].refcnt == 0 ::
            ring[i].stamp > ring[j].stamp)
      && (forall b | b in nodes :: b.stamp < clock)
    }

    ghost predicate Valid()
      reads this, nodes, disk
    {
      Ring() && Counts() && Owners() && Clean() && Lru()
    }

    /** The plain block store that the cache and the disk present together. */
    ghost function Store(): Disk
      reads `owner, nodes`dev, nodes`bno, nodes`valid, nodes`refcnt, nodes`data, disk`blocks
      requires Owners()
    {
      Overlay(disk.blocks, map k | k in owner :: owner[k].data)
    }

    /** The references to every block that has any. */
    ghost function Held(): map<nat, Ref>
      reads `owner, nodes`dev, nodes`bno, nodes`valid, nodes`refcnt, nodes`users, nodes`pins, nodes`locked
      requires Owners()
    {
      map k | k in owner && owner[k].refcnt > 0 :: Ref(owner[k].users, owner[k].pins, owner[k].locked)
    }

    /** No unreferenced buffer is left. */
    ghost predicate Full()
      reads this, nodes
    {
      forall b | b in nodes && b != head :: b.refcnt > 0
    }

    /** Looks a block up along the ring. */
    method Find(dev: nat, bno: nat) returns (b: Buffer?)
      requires Valid() && dev == ROOT_DEV
      ensures b == null <==> bno !in owner
      ensures b != null ==> b == owner[bno]
    {
      var x := head.next;
      ghost var i := 1;
      while x != head
        invariant 1 <= i <= |ring|
        invariant x == (if i < |ring| then ring[i] else head)
        invariant forall j | 1 <= j < i :: ring[j].dev != dev || ring[j].bno != bno
        decreases |ring| - i
      {
        if x.dev == dev && x.bno == bno {
          return x;
        }
        x := x.next;
        i := i + 1;
      }
      assert forall y | y in nodes && y != head :: y in ring;
      return null;
    }

    /** Finds the unreferenced buffer that was released longest ago. */
    method FindLeastRecent() returns (b: Buffer?)
      requires Valid()
      ensures b == null <==> Full()
      ensures b != null ==> b in nodes && b != head && b.refcnt == 0
      ensures b != null ==> forall x | x in nodes && x != head && x != b && x.refcnt == 0 :: b.stamp < x.stamp
    {
      var x := head.prev;
      ghost var i := |ring| - 1;
      while x != head
        invariant 0 <= i < |ring|
        invariant x == ring[i]
        invariant forall j | i < j < |ring| :: ring[j].refcnt > 0
        decreases i
      {
        if x.refcnt == 0 {
          forall y | y in nodes && y != head && y != x && y.refcnt == 0 ensures x.stamp < y.stamp {
            var j :| 0 <= j < |ring| && ring[j] == y;
          }
          return x;
        }
        x := x.prev;
        i := i - 1;
      }
      assert forall y | y in nodes && y != head :: y in ring;
      return null;
    }

    twostate lemma SameStore()
      requires old(Owners()) && Owners()
      requires forall k: nat | k < N_BLKS ::
                 (if k in owner then owner[k].data else disk.blocks[k]) ==
                 old(if k in owner then owner[k].data else disk.blocks[k])
      ensures Store() == old(Store())
    {
    }

    ghost function RefAt(k: nat): (r: Ref)
      reads `owner, nodes`dev, nodes`bno, nodes`valid, nodes`refcnt, nodes`users, nodes`pins, nodes`locked
      requires Owners()
    {
      if k in owner && owner[k].refcnt > 0 then Ref(owner[k].users, owner[k].pins, owner[k].locked)
      else Ref(0, 0, false)
    }

    lemma HeldAt(k: nat)
      requires Owners()
      ensures k in Held() <==> k in owner && owner[k].refcnt > 0
      ensures k in Held() ==> Held()[k] == RefAt(k)
    {
    }

    /** Only the references to block `k` changed. */
    twostate lemma RefsOf(k: nat)
      requires old(Owners()) && Owners()
      requires forall j | j != k :: (j in owner && owner[j].refcnt > 0) <==> old(j in owner && owner[j].refcnt > 0)
      requires forall j | j != k && j in owner && owner[j].refcnt > 0 :: RefAt(j) == old(RefAt(j))
      ensures Held() == if k in owner && owner[k].refcnt > 0 then old(Held())[k := RefAt(k)] else old(Held()) - {k}
    {
    }

    lemma StoreAt(k: nat)
      requires Owners() && k < N_BLKS
      ensures Store()[k] == if k in owner then owner[k].data else disk.blocks[k]
    {
    }

    /** The order of release, but for one buffer. */
    ghost predicate LruBut(b: Buffer)
      reads `ring, `clock, nodes`next, nodes`prev, (nodes - {b})`refcnt, nodes`stamp
      requires Ring()
    {
      OrderBut(ring, b) && forall x | x in nodes :: x.stamp < clock
    }

    lemma OneAside(b: Buffer)
      requires Ring() && Lru()
      ensures LruBut(b)
    {
      hide Linked;
    }

    lemma InUseIsAside(b: Buffer)
      requires Ring() && LruBut(b) && b.refcnt > 0
      ensures Lru()
    {
      hide Linked;
    }

    /** Nothing but the references to one buffer, and its lock, may have changed. */
    twostate predicate OnlyRefs(b: Buffer)
      reads this, nodes, disk
    {
      && owner == old(owner) && disk.blocks == old(disk.blocks)
      && forall x | x in nodes ::
           && x.dev == old(x.dev) && x.bno == old(x.bno) && x.valid == old(x.valid) && x.data == old(x.data)
           && (x != b ==>
                 && x.refcnt == old(x.refcnt) && x.users == old(x.users)
                 && x.pins == old(x.pins) && x.locked == old(x.locked))
    }

    twostate lemma RefsKeepOwners(b: Buffer)
      requires old(Owners()) && OnlyRefs(b) && (b.dev == ROOT_DEV || b == head)
      ensures Owners()
    {
    }

    twostate lemma RefsKeepStore(b: Buffer)
      requires old(Owners()) && Owners() && OnlyRefs(b)
      ensures Store() == old(Store())
    {
      hide Store;
      SameStore();
    }

    twostate lemma RefsKeepClean(b: Buffer)
      requires old(Owners() && Clean()) && Owners() && OnlyRefs(b) && b in nodes && b.bno in owner && owner[b.bno] == b
      requires b.locked || b.pins > 0 || b.data == disk.blocks[b.bno]
      ensures Clean()
    {
    }

    twostate lemma RefsKeepOthers(b: Buffer)
      requires old(Owners()) && Owners() && OnlyRefs(b) && b.bno in owner && owner[b.bno] == b
      ensures Held() == if b.refcnt > 0 then old(Held())[b.bno := RefAt(b.bno)] else old(Held()) - {b.bno}
    {
      hide Held;
      RefsOf(b.bno);
    }

    /** All that a change of one buffer's references has to keep. */
    twostate lemma Recounted(b: Buffer)
      requires old(Owners() && Counts() && Clean()) && OnlyRefs(b) && b in nodes && b != head && b.dev == ROOT_DEV
      requires b.refcnt == b.users + b.pins && (b.locked ==> b.users > 0)
      requires b.locked || b.pins > 0 || b.data == disk.blocks[b.bno]
      ensures Owners() && Counts() && Clean() && Store() == old(Store())
      ensures b.bno in owner && owner[b.bno] == b
      ensures Held() == if b.refcnt > 0 then old(Held())[b.bno := RefAt(b.bno)] else old(Held()) - {b.bno}
    {
      RefsKeepOwners(b);
      hide Clean, Store, Held, RefAt;
      RefsKeepStore(b);
      RefsKeepClean(b);
      RefsKeepOthers(b);
    }

    /** What the invariant says about one buffer: a referenced one caches a block, and one that
        is neither locked nor pinned agrees with the disk. */
    lemma Tracked(b: Buffer)
      requires Owners() && Counts() && Clean() && b in nodes && b != head
      ensures b.refcnt == b.users + b.pins && (b.locked ==> b.users > 0)
      ensures b.refcnt > 0 ==> b.dev == ROOT_DEV
      ensures b.dev == ROOT_DEV ==>
                && b.bno in owner && owner[b.bno] == b && b.bno < N_BLKS
                && (!b.locked && b.pins == 0 ==> b.data == disk.blocks[b.bno])
    {
    }

    lemma Cached(k: nat)
      requires Owners() && k in owner
      ensures owner[k] in nodes && owner[k] != head && owner[k].dev == ROOT_DEV && owner[k].bno == k
    {
    }

    /** Takes one more reference to a cached block. */
    method Reference(b: Buffer)
      requires Valid() && b in nodes && b != head && b.dev == ROOT_DEV
      modifies b`refcnt, b`users
      ensures Valid() && Store() == old(Store())
      ensures b.refcnt == old(b.refcnt) + 1 && b.users == old(b.users) + 1
      ensures b.data == Store()[b.bno]
      ensures Held() == old(Held())[b.bno := RefAt(b.bno)]
    {
      hide Ring, Lru, LruBut, Counts, Owners, Clean, Store, Held, RefAt;
      OneAside(b);
      Tracked(b);
      b.refcnt := b.refcnt + 1;
      b.users := b.users + 1;
      InUseIsAside(b);
      Recounted(b);
      StoreAt(b.bno);
    }

    /** Gives an unreferenced buffer to block `bno`, locked, and reads the disk. */
    method Reassign(b: Buffer, bno: nat)
      requires Valid() && b in nodes && b != head && b.refcnt == 0
      requires bno !in owner && bno < N_BLKS
      modifies this`owner, b`dev, b`bno, b`valid, b`refcnt, b`locked, b`data, b`users
      ensures Ring() && Counts() && Owners() && Clean()
      ensures owner == (if old(b.dev) == ROOT_DEV then old(owner) - {old(b.bno)} else old(owner))[bno := b]
      ensures b.locked && b.refcnt == 1 && b.users == 1 && b.data == disk.blocks[bno]
    {
      hide Ring, Store, Lru, Held;
      owner := (if b.dev == ROOT_DEV then owner - {b.bno} else owner)[bno := b];
      b.Reload(ROOT_DEV, bno, disk);
      assert Counts();
      assert Owners();
    }

    /** Recycles an unreferenced buffer for block `bno`. What the buffer cached before is
        on the disk already, so the store does not change. */
    method Recycle(b: Buffer, bno: nat)
      requires Valid() && b in nodes && b != head && b.refcnt == 0
      requires bno !in owner && bno < N_BLKS
      modifies this`owner, b`dev, b`bno, b`valid, b`refcnt, b`locked, b`data, b`users
      ensures Valid() && Store() == old(Store())
      ensures owner == (if old(b.dev) == ROOT_DEV then old(owner) - {old(b.bno)} else old(owner))[bno := b]
      ensures b.locked && b.refcnt == 1 && b.users == 1 && b.data == disk.blocks[bno] && b.pins == 0
      ensures b.data == Store()[bno] && Held() == old(Held())[bno := RefAt(bno)]
    {
      hide Ring, Store, Lru, LruBut, Clean, Counts, Held;
      OneAside(b);
      Tracked(b);
      Reassign(b, bno);
      InUseIsAside(b);
      StoreAt(bno);
      SameStore();
      RefsOf(bno);
    }

    /** The first half of bread: takes a reference to the block's buffer. On a hit the
        caller still has to wait for the buffer's lock. On a miss the unreferenced buffer
        released longest ago is recycled, locked and read from the disk. Null means panic:
        the block is not cached and every buffer is referenced. */
    method Get(dev: nat, bno: nat) returns (b: Buffer?)
      requires Valid() && dev == ROOT_DEV && bno < N_BLKS
      modifies this`owner, nodes`dev, nodes`bno, nodes`valid, nodes`refcnt, nodes`locked, nodes`data, nodes`users
      ensures Valid() && Store() == old(Store())
      ensures b == null <==> bno !in old(owner) && old(Full())
      ensures forall x | x in nodes && x != b :: unchanged(x)
      ensures b == null ==> owner == old(owner) && Held() == old(Held())
      ensures b != null ==> bno in owner && owner[bno] == b && b.data == Store()[bno]
      ensures b != null ==> b.refcnt == old(b.refcnt) + 1 && b.users == old(b.users) + 1 && b.pins == old(b.pins)
      ensures bno in old(owner) ==>
                owner == old(owner) && b.locked == old(b.locked) && b.data == old(b.data)
      ensures bno !in old(owner) && b != null ==>
                && b.locked && b.data == disk.blocks[bno] && old(b.refcnt) == 0 && b.users == 1 && b.pins == 0
                && forall x | x in nodes && x != head && x != b && x.refcnt == 0 :: old(b.stamp) < x.stamp
      ensures forall k | k in owner && k != bno :: k in old(owner) && owner[k] == old(owner[k])
      ensures b != null ==> Held() == old(Held())[bno := RefAt(bno)]
    {
      hide Ring, Lru, Clean, Store, Held, Counts, Owners, Full, RefAt;
      b := Find(dev, bno);
      if b != null {
        Cached(bno);
        Reference(b);
      } else {
        b := FindLeastRecent();
        if b != null {
          Tracked(b);
          Recycle(b, bno);
        }
      }
    }

    /** The second half of bread on a hit: the caller's turn for the buffer's lock. */
    method Lock(b: Buffer)
      requires Valid() && b in nodes && b != head && b.users > 0 && !b.locked
      modifies b`locked
      ensures Valid() && b.locked && Store() == old(Store())
      ensures b.dev == ROOT_DEV && b.data == Store()[b.bno]
      ensures Held() == old(Held())[b.bno := RefAt(b.bno)]
    {
      hide Ring, Lru, Held;
      b.locked := true;
      RefsOf(b.bno);
    }

    /** bread: a locked buffer with the latest contents of the block. A buffer that another
        process has locked would make the caller wait, so its lock is assumed free here. */
    method Bread(dev: nat, bno: nat) returns (b: Buffer?)
      requires Valid() && dev == ROOT_DEV && bno < N_BLKS
      requires bno in owner ==> !owner[bno].locked
      modifies this`owner, nodes`dev, nodes`bno, nodes`valid, nodes`refcnt, nodes`locked, nodes`data, nodes`users
      ensures Valid() && Store() == old(Store())
      ensures b == null <==> bno !in old(owner) && old(Full())
      ensures forall x | x in nodes && x != b :: unchanged(x)
      ensures b == null ==> owner == old(owner) && Held() == old(Held())
      ensures b != null ==>
                && bno in owner && owner[bno] == b && b.locked && b.data == Store()[bno]
                && b.refcnt == old(b.refcnt) + 1 && b.users == old(b.users) + 1 && b.pins == old(b.pins)
      ensures bno in old(owner) ==> owner == old(owner)
      ensures bno !in old(owner) && b != null ==>
                && old(b.refcnt) == 0 && b.users == 1 && b.pins == 0
                && forall x | x in nodes && x != head && x != b && x.refcnt == 0 :: old(b.stamp) < x.stamp
      ensures forall k | k in owner && k != bno :: k in old(owner) && owner[k] == old(owner[k])
      ensures b != null ==> Held() == old(Held())[bno := RefAt(bno)]
    {
      hide Ring, Lru, Counts, Clean, Store, Full, Held;
      b := Get(dev, bno);
      if b != null && !b.locked {
        Lock(b);
      }
    }

    /** bread, in terms of blocks: it fails, and the kernel panics, exactly when the block is
        not referenced and N_BUF others are. */
    method Take(bno: nat) returns (b: Buffer?)
      requires Valid() && bno < N_BLKS
      requires !RefOf(Held(), bno).locked
      modifies this`owner, nodes`dev, nodes`bno, nodes`valid, nodes`refcnt, nodes`locked, nodes`data, nodes`users
      ensures Valid() && Store() == old(Store())
      ensures b == null <==> bno !in old(Held()) && |old(Held())| == N_BUF
      ensures b == null ==> Held() == old(Held())
      ensures b != null ==> bno in owner && owner[bno] == b && b.locked && b.data == Store()[bno]
      ensures b != null ==> Held() == Taken(old(Held()), bno)
      ensures forall k | k in owner && k != bno :: k in old(owner) && owner[k] == old(owner[k])
    {
      hide Ring, Lru, Clean, Store, Held, Full, Counts, Owners;
      BlockView(this, bno);
      b := Bread(ROOT_DEV, bno);
    }

    /** The holder of the lock changes the contents of its buffer. */
    method Modify(b: Buffer, data: Block)
      requires Valid() && b in nodes && b != head && b.locked
      modifies b`data
      ensures Valid() && b.data == data
      ensures b.dev == ROOT_DEV && Store() == old(Store())[b.bno := data]
    {
      hide Ring, Lru;
      b.data := data;
    }

    /** bwrite: false means panic, because the caller does not hold the lock. */
    method Bwrite(b: Buffer) returns (ok: bool)
      requires Valid() && b in nodes && b != head
      modifies disk
      ensures ok == b.locked
      ensures ok ==> && b.bno < N_BLKS && disk.blocks == old(disk.blocks)[b.bno := b.data]
                     && disk.history == old(disk.history) + [Write(b.bno, b.data)]
      ensures !ok ==> unchanged(disk)
      ensures Valid() && Store() == old(Store())
    {
      hide Ring, Lru;
      ok := b.locked;
      if ok {
        disk.WriteBlock(b.bno, b.data);
      }
    }

    /** bpin: false means panic, because the buffer is unreferenced. */
    method Bpin(b: Buffer) returns (ok: bool)
      requires Valid() && b in nodes && b != head
      modifies b`refcnt, b`pins
      ensures ok == (old(b.refcnt) >= 1)
      ensures b.pins == old(b.pins) + (if ok then 1 else 0)
      ensures b.refcnt == old(b.refcnt) + (if ok then 1 else 0)
      ensures ok ==> Held() == old(Held())[b.bno := RefAt(b.bno)]
      ensures Valid() && Store() == old(Store())
    {
      hide Ring, Lru, LruBut, Counts, Owners, Clean, Store, Held, RefAt;
      ok := b.refcnt >= 1;
      if ok {
        OneAside(b);
        Tracked(b);
        b.refcnt := b.refcnt + 1;
        b.pins := b.pins + 1;
        InUseIsAside(b);
        Recounted(b);
      }
    }

    /** bunpin, by the process that has the buffer locked. */
    method Bunpin(b: Buffer) returns (ok: bool)
      requires Valid() && b in nodes && b != head && b.locked && b.pins > 0
      modifies b`refcnt, b`pins
      ensures ok && b.pins == old(b.pins) - 1 && b.refcnt == old(b.refcnt) - 1
      ensures Held() == old(Held())[b.bno := RefAt(b.bno)]
      ensures Valid() && Store() == old(Store())
    {
      hide Ring, Lru, LruBut, Counts, Owners, Clean, Store, Held, RefAt;
      Tracked(b);
      ok := b.refcnt >= 1;
      if ok {
        OneAside(b);
        b.refcnt := b.refcnt - 1;
        b.pins := b.pins - 1;
        InUseIsAside(b);
        Recounted(b);
      }
    }

    lemma Position(b: Buffer) returns (p: nat)
      requires Ring() && b in nodes && b != head
      ensures 0 < p < |ring| && ring[p] == b
      ensures var mid := ring[..p] + ring[p + 1..]; b !in mid && mid[0] == head
    {
      p :| 0 <= p < |ring| && ring[p] == b;
    }

    /** Moves a buffer to the front of the ring. */
    method MoveToFront(b: Buffer) returns (ghost p: nat)
      requires Ring() && b in nodes && b != head
      modifies `ring, nodes`next, nodes`prev
      ensures 0 < p < |old(ring)| && old(ring)[p] == b
      ensures ring == [head, b] + old(ring)[1..p] + old(ring)[p + 1..]
      ensures Ring()
    {
      hide Linked;
      p := Position(b);
      ghost var mid := ring[..p] + ring[p + 1..];
      Unlink(ring, p, b);
      PushFront(mid, head, b);
      SameMembers(ring, head, b, p);
      ring := [head, b] + ring[1..p] + ring[p + 1..];
    }

    /** Moving one element of a sequence loses no member. */
    lemma SameMembers(c: seq<Buffer>, head: Buffer, b: Buffer, p: nat)
      requires 0 < p < |c| && c[0] == head && c[p] == b
      ensures var d := [head, b] + c[1..p] + c[p + 1..];
              && |d| == |c| && (forall x :: x in c <==> x in d)
              && d == [head, b] + (c[..p] + c[p + 1..])[1..]
    {
    }

    /** Restores the order of release once the newest buffer is in front. */
    lemma FrontOrder(b: Buffer)
      requires Ring() && OrderBut(ring, b) && ring[1] == b && b.stamp < clock
      requires forall x | x in nodes && x != b :: x.stamp < b.stamp
      ensures Lru()
    {
      hide Linked;
      forall j | 1 < j < |ring| ensures ring[j] != b {
        Apart(ring, 1, j);
      }
    }

    /** The second part of brelse: an unreferenced buffer becomes the most recently used. */
    method Refresh(b: Buffer)
      requires Ring() && b in nodes && b != head && LruBut(b)
      modifies `ring, `clock, nodes`next, nodes`prev, b`stamp
      ensures Ring() && Lru() && ring[1] == b && forall x | x in nodes && x != b :: x.stamp < b.stamp
    {
      hide Ring, Lru, OrderBut;
      ghost var c := ring;
      RingNodes();
      ghost var p := MoveToFront(b);
      MovedOrder(c, ring, p, head, b);
      b.stamp := clock;
      clock := clock + 1;
      FrontOrder(b);
    }

    lemma RingNodes()
      requires Ring()
      ensures forall x | x in ring :: x in nodes
    {
      hide Linked;
    }

    /** Unlocks a buffer and drops the caller's reference, as the first part of brelse. */
    method Drop(b: Buffer)
      requires Valid() && b in nodes && b != head && b.locked
      requires b.pins > 0 || b.data == disk.blocks[b.bno]
      modifies b`locked, b`refcnt, b`users
      ensures Ring() && Counts() && Owners() && Clean() && Store() == old(Store())
      ensures !b.locked && b.refcnt == old(b.refcnt) - 1 && b.users == old(b.users) - 1
      ensures b.dev == ROOT_DEV && b.bno in owner && owner[b.bno] == b
      ensures Held() == if b.refcnt > 0 then old(Held())[b.bno := RefAt(b.bno)] else old(Held()) - {b.bno}
    {
      hide Ring, Lru, Counts, Owners, Clean, Store, Held, RefAt;
      Tracked(b);
      b.locked := false;
      b.refcnt := b.refcnt - 1;
      b.users := b.users - 1;
      Recounted(b);
    }

    /** brelse: unlocks the buffer and drops the caller's reference; the last reference
        makes it the most recently used. What the caller changed must have been logged or
        written, or it would be lost. */
    method Brelse(b: Buffer)
      requires Valid() && b in nodes && b != head && b.locked
      requires b.pins > 0 || b.data == disk.blocks[b.bno]
      modifies `ring, `clock, nodes`next, nodes`prev, b`locked, b`refcnt, b`users, b`stamp
      ensures Valid() && Store() == old(Store())
      ensures !b.locked && b.refcnt == old(b.refcnt) - 1 && b.users == old(b.users) - 1
      ensures b.refcnt == 0 ==> ring[1] == b && forall x | x in nodes && x != b :: x.stamp < b.stamp
      ensures Held() == if b.refcnt > 0 then old(Held())[b.bno := RefAt(b.bno)] else old(Held()) - {b.bno}
    {
      hide Ring, Counts, Owners, Clean, Store, Held, Lru, LruBut;
      OneAside(b);
      Drop(b);
      if b.refcnt == 0 {
        Refresh(b);
      } else {
        InUseIsAside(b);
      }
    }

    /** bunpin, in terms of blocks. */
    method Unpin(b: Buffer)
      requires Valid() && b in nodes && b != head && b.locked && b.pins > 0
      modifies b`refcnt, b`pins
      ensures Valid() && Store() == old(Store())
      ensures b.bno in owner && owner[b.bno] == b
      ensures Held() == Unpinned(old(Held()), b.bno)
    {
      hide Ring, Lru, Clean, Store, Held, Full, Counts;
      BlockView(this, b.bno);
      CountOf(b);
      var _ := Bunpin(b);
    }

    lemma CountOf(b: Buffer)
      requires Counts() && b in nodes && b != head
      ensures b.refcnt == b.users + b.pins && (b.locked ==> b.users > 0)
    {
    }

    /** brelse, in terms of blocks. */
    method Give(b: Buffer)
      requires Valid() && b in nodes && b != head && b.locked
      requires b.pins > 0 || b.data == disk.blocks[b.bno]
      modifies `ring, `clock, nodes`next, nodes`prev, b`locked, b`refcnt, b`users, b`stamp
      ensures Valid() && Store() == old(Store())
      ensures b.bno in owner && owner[b.bno] == b
      ensures Held() == Given(old(Held()), b.bno)
    {
      hide Ring, Lru, Clean, Store, Held, Full, Counts;
      BlockView(this, b.bno);
      CountOf(b);
      Brelse(b);
    }
  }

  // ---------- the cache in terms of blocks ----------

  /** The buffers in use. */
  ghost function Busy(c: Cache): set<Buffer>
    requires c.Owners()
    reads c, c.nodes
  {
    set k | k in c.Held() :: c.owner[k]
  }

  lemma BusyIs(c: Cache)
    requires c.Owners()
    ensures Busy(c) <= c.nodes - {c.head} && |Busy(c)| == |c.Held()|
    ensures forall b | b in c.nodes && b != c.head :: b in Busy(c) <==> b.refcnt > 0
  {
    ImageCard(c.owner, c.Held().Keys, Busy(c));
    forall b | b in c.nodes && b != c.head ensures b in Busy(c) <==> b.refcnt > 0 {
      if b.refcnt > 0 {
        assert b.dev == ROOT_DEV && c.owner[b.bno] == b && b.bno in c.Held();
      }
    }
  }

  lemma RingCard(c: Cache)
    requires c.Ring()
    ensures |c.nodes - {c.head}| == N_BUF
  {
    DistinctCard(c.ring);
    assert (set x | x in c.ring) == c.nodes;
  }

  /** All buffers are referenced exactly when N_BUF different blocks are. */
  lemma FullIff(c: Cache)
    requires c.Valid()
    ensures |c.Held()| <= N_BUF
    ensures c.Full() <==> |c.Held()| == N_BUF
  {
    hide Cache.Ring, Cache.Owners, Cache.Held, Cache.Counts, Cache.Clean, Cache.Lru, Busy;
    BusyIs(c);
    RingCard(c);
    SubsetCard(Busy(c), c.nodes - {c.head});
    if c.Full() {
      assert Busy(c) == c.nodes - {c.head};
    } else {
      var b :| b in c.nodes && b != c.head && b.refcnt == 0;
      assert b !in Busy(c) && b in c.nodes - {c.head};
    }
  }

  /** Every block on which the store and the disk differ is pinned or locked. */
  lemma DirtyIsHeld(c: Cache, k: nat)
    requires c.Valid() && k < N_BLKS
    requires c.Store()[k] != c.disk.blocks[k]
    ensures k in c.Held() && (c.Held()[k].pins > 0 || c.Held()[k].locked)
  {
    assert k in c.owner;
    assert c.owner[k].refcnt == c.owner[k].users + c.owner[k].pins;
  }

  ghost function RefOf(h: map<nat, Ref>, k: nat): Ref {
    if k in h then h[k] else Ref(0, 0, false)
  }

  /** The references after one process drops its own, and with it the lock. */
  ghost function Given(h: map<nat, Ref>, k: nat): map<nat, Ref> {
    var r := RefOf(h, k);
    if r.users + r.pins > 1 && r.users > 0 then h[k := Ref(r.users - 1, r.pins, false)] else h - {k}
  }

  /** The references after the log drops its pin. */
  ghost function Unpinned(h: map<nat, Ref>, k: nat): map<nat, Ref> {
    var r := RefOf(h, k);
    if r.pins > 0 then h[k := Ref(r.users, r.pins - 1, r.locked)] else h
  }

  /** The references after one more process has taken the block and its lock. */
  ghost function Taken(h: map<nat, Ref>, k: nat): map<nat, Ref> {
    h[k := Ref(RefOf(h, k).users + 1, RefOf(h, k).pins, true)]
  }

  /** What the cache knows about one block, read from the references. */
  lemma BlockView(c: Cache, bno: nat)
    requires c.Valid()
    ensures bno !in c.owner && c.Full() <==> bno !in c.Held() && |c.Held()| == N_BUF
    ensures bno in c.owner ==>
              c.owner[bno].users == RefOf(c.Held(), bno).users && c.owner[bno].pins == RefOf(c.Held(), bno).pins
              && c.owner[bno].locked == RefOf(c.Held(), bno).locked
    ensures bno in c.Held() ==> bno in c.owner
  {
    FullIff(c);
    c.HeldAt(bno);
    hide Cache.Ring, Cache.Lru, Cache.Clean, Cache.Held;
  }
}
