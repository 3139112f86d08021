/** The log's own code, running on the buffer cache: logging a block, committing and
    recovering, proved to perform exactly the write lists of LogSpec. */
module LogImpl {
  import opened Blocks
  import opened DiskLayout
  import opened LogSpec
  import opened BufferCache

  /** Process code holds the locked buffer `b` of block `k`. */
  ghost predicate Has(c: Cache, b: Buffer, k: nat)
    reads c, c.nodes
  {
    c.Owners() && k in c.owner && c.owner[k] == b && b.locked
  }

  /** Reads two blocks; false means that the cache has run out of buffers. */
  method TakeBoth(c: Cache, from: nat, to: nat) returns (f: Buffer?, t: Buffer?)
    requires c.Valid() && from < N_BLKS && to < N_BLKS && from != to
    requires !RefOf(c.Held(), from).locked && !RefOf(c.Held(), to).locked
    modifies c, c.nodes
    ensures c.Valid() && c.Store() == old(c.Store())
    ensures f == null <==> from !in old(c.Held()) && |old(c.Held())| == N_BUF
    ensures f != null ==> (t == null <==> to !in old(c.Held()) && |Taken(old(c.Held()), from)| == N_BUF)
    ensures f != null && t != null ==>
              && c.Held() == Taken(Taken(old(c.Held()), from), to)
              && Has(c, f, from) && Has(c, t, to)
              && f.data == c.Store()[from]
              && f.pins == RefOf(old(c.Held()), from).pins && t.pins == RefOf(old(c.Held()), to).pins
  {
    hide Cache.Ring, Cache.Lru, Cache.Clean, Cache.Store, Cache.Held, Cache.Full, Cache.Counts;
    t := null;
    f := c.Take(from);
    if f != null {
      t := c.Take(to);
      if t != null {
        BlockView(c, from);
        BlockView(c, to);
        c.StoreAt(from);
      }
    }
  }

  /** The references after a block copy: as before, less the pin if it was returned. */
  ghost function CopyRefs(h: map<nat, Ref>, to: nat, unpin: bool): map<nat, Ref> {
    if unpin then
      var r := RefOf(h, to);
      if r.users + r.pins > 1 && r.pins > 0 then h[to := Ref(r.users, r.pins - 1, false)] else h - {to}
    else h
  }

  /** Taking two blocks and giving them back changes nothing but the pin. */
  lemma CopyRefsCorrect(h: map<nat, Ref>, from: nat, to: nat, unpin: bool)
    requires from != to
    requires !RefOf(h, from).locked && !RefOf(h, to).locked
    requires forall k | k in h :: h[k].users + h[k].pins > 0
    requires unpin ==> RefOf(h, to).pins > 0
    ensures var both := Taken(Taken(h, from), to);
            Given(Given(if unpin then Unpinned(both, to) else both, from), to) == CopyRefs(h, to, unpin)
  {
  }

  /** The body of the loops in write_to_log and install_trans: copies block `from` over
      block `to`, in the cache and on the disk. It panics exactly when a buffer is needed
      and none is left. */
  method CopyBlock(c: Cache, from: nat, to: nat, unpin: bool) returns (ok: bool)
    requires c.Valid() && from < N_BLKS && to < N_BLKS && from != to
    requires !RefOf(c.Held(), from).locked && !RefOf(c.Held(), to).locked
    requires unpin ==> RefOf(c.Held(), to).pins > 0
    modifies c, c.nodes, c.disk
    ensures ok <==>
              && (from in old(c.Held()) || |old(c.Held())| < N_BUF)
              && (to in old(c.Held()) || |Taken(old(c.Held()), from)| < N_BUF)
    ensures ok ==>
              && c.Valid()
              && c.Store() == old(c.Store())[to := old(c.Store())[from]]
              && c.Held() == CopyRefs(old(c.Held()), to, unpin)
              && c.disk.blocks == old(c.disk.blocks)[to := old(c.Store())[from]]
              && c.disk.history == old(c.disk.history) + [Write(to, old(c.Store())[from])]
    ensures !ok ==> c.disk.blocks == old(c.disk.blocks) && c.disk.history == old(c.disk.history)
  {
    hide Cache.Ring, Cache.Lru, Cache.Clean, Cache.Store, Cache.Held, Cache.Full, Cache.Counts;
    HeldFits(c);
    CopyRefsCorrect(c.Held(), from, to, unpin);
    if c.Store()[from] != c.disk.blocks[from] {
      DirtyIsHeld(c, from);
    }
    var f, t := TakeBoth(c, from, to);
    if f == null || t == null {
      return false;
    }
    Transfer(c, f, t, from, to, unpin);
    ok := true;
  }

  lemma HeldFits(c: Cache)
    requires c.Valid()
    ensures |c.Held()| <= N_BUF
    ensures forall k | k in c.Held() :: c.Held()[k].users + c.Held()[k].pins > 0
    ensures forall k: nat | k !in c.Held() :: |Taken(c.Held(), k)| == |c.Held()| + 1
  {
    FullIff(c);
  }

  method Transfer(c: Cache, f: Buffer, t: Buffer, ghost from: nat, ghost to: nat, unpin: bool)
    requires c.Valid() && Has(c, f, from) && Has(c, t, to) && from != to
    requires f.data == c.Store()[from]
    requires f.pins > 0 || f.data == c.disk.blocks[from]
    requires unpin ==> t.pins > 0
    modifies c, c.nodes, c.disk
    ensures c.Valid()
    ensures c.Store() == old(c.Store())[to := old(f.data)]
    ensures c.Held() == Given(Given(if unpin then Unpinned(old(c.Held()), to) else old(c.Held()), from), to)
    ensures c.disk.blocks == old(c.disk.blocks)[to := old(f.data)]
    ensures c.disk.history == old(c.disk.history) + [Write(to, old(f.data))]
  {
    hide Cache.Ring, Cache.Lru, Cache.Clean, Cache.Store, Cache.Held, Cache.Full, Cache.Counts;
    c.Modify(t, f.data);
    var _ := c.Bwrite(t);
    if unpin {
      c.Unpin(t);
    }
    c.Give(f);
    c.Give(t);
  }

  lemma GivenTaken(h: map<nat, Ref>, k: nat)
    requires k !in h
    ensures Given(Taken(h, k), k) == h
  {
  }

  /** Changes a held buffer, writes it to the disk and releases it. */
  method WriteBack(c: Cache, b: Buffer, ghost bno: nat, data: Block)
    requires c.Valid() && Has(c, b, bno)
    modifies c, c.nodes, c.disk
    ensures c.Valid()
    ensures c.Store() == old(c.Store())[bno := data]
    ensures c.Held() == Given(old(c.Held()), bno)
    ensures c.disk.blocks == old(c.disk.blocks)[bno := data]
    ensures c.disk.history == old(c.disk.history) + [Write(bno, data)]
  {
    hide Cache.Ring, Cache.Lru, Cache.Clean, Cache.Store, Cache.Held, Cache.Full, Cache.Counts;
    c.Modify(b, data);
    var _ := c.Bwrite(b);
    c.Give(b);
  }

  /** Exactly the logged blocks are pinned, once each, and nobody uses the log's own blocks. */
  ghost predicate Pinned(h: map<nat, Ref>, hs: seq<Word>) {
    && (forall i | 0 <= i < |hs| :: hs[i] in h && h[hs[i]].pins == 1)
    && (forall k | k in h && k !in hs :: h[k].pins == 0)
    && (forall k | k in h :: !InLog(k))
  }

  /** The references once the first `i` logged blocks have lost their pin. */
  ghost function UnpinFirst(h: map<nat, Ref>, hs: seq<Word>, i: nat): map<nat, Ref>
    requires i <= |hs| && Pinned(h, hs)
  {
    map k | k in h && (k !in hs[..i] || h[k].users > 0) ::
      if k in hs[..i] then Ref(h[k].users, 0, false) else h[k]
  }

  lemma UnpinNext(h: map<nat, Ref>, hs: seq<Word>, i: nat)
    requires HeaderList(hs) && Pinned(h, hs) && i < |hs|
    ensures hs[i] in UnpinFirst(h, hs, i) && UnpinFirst(h, hs, i)[hs[i]] == h[hs[i]]
    ensures UnpinFirst(h, hs, i + 1) == CopyRefs(UnpinFirst(h, hs, i), hs[i], true)
  {
  }

  lemma UnpinSmaller(h: map<nat, Ref>, hs: seq<Word>, i: nat)
    requires Pinned(h, hs) && i <= |hs|
    ensures |UnpinFirst(h, hs, i)| <= |h|
  {
    var u := UnpinFirst(h, hs, i);
    assert u.Keys <= h.Keys;
    assert h.Keys == u.Keys + (h.Keys - u.Keys);
    assert |h.Keys| == |u.Keys| + |h.Keys - u.Keys|;
  }

  /** In the end the pins are gone and every other reference is as it was. */
  lemma PinsReturned(h: map<nat, Ref>, hs: seq<Word>)
    requires HeaderList(hs) && Pinned(h, hs)
    ensures Pinned(UnpinFirst(h, hs, |hs|), [])
    ensures forall k | k in h && k !in hs ::
              k in UnpinFirst(h, hs, |hs|) && UnpinFirst(h, hs, |hs|)[k] == h[k]
  {
    assert hs[..|hs|] == hs;
  }

  /** What cache, disk and history were before a list of writes began. */
  datatype Start = Start(mem: Disk, disk: Disk, history: seq<Write>)

  /** The first `k` of the writes have reached the cache and the disk. */
  ghost predicate Reached(c: Cache, s: Start, ws: seq<Write>, k: nat)
    reads c, c.nodes, c.disk
    requires c.Valid() && InRange(ws) && k <= |ws|
  {
    && c.Store() == Apply(s.mem, ws[..k])
    && c.disk.blocks == Apply(s.disk, ws[..k])
    && c.disk.history == s.history + ws[..k]
  }

  lemma ReachedNext(s: Start, ws: seq<Write>, k: nat)
    requires InRange(ws) && k < |ws|
    ensures Apply(s.mem, ws[..k + 1]) == Apply(s.mem, ws[..k])[ws[k].bno := ws[k].data]
    ensures Apply(s.disk, ws[..k + 1]) == Apply(s.disk, ws[..k])[ws[k].bno := ws[k].data]
    ensures s.history + ws[..k + 1] == (s.history + ws[..k]) + [ws[k]]
  {
    ApplyNext(s.mem, ws, k);
    ApplyNext(s.disk, ws, k);
  }

  lemma ApplyNone(s: Start)
    ensures Apply(s.mem, []) == s.mem && Apply(s.disk, []) == s.disk
  {
  }

  /** What the `k`-th copy of write_to_log reads and writes. */
  lemma LogStep(mem: Disk, hs: seq<Word>, k: nat)
    requires HeaderList(hs) && k < |hs|
    ensures var ws := CommitWrites(mem, hs);
            && ws[k] == Write(LOG_START + 1 + k, mem[hs[k]])
            && Apply(mem, ws[..k])[hs[k]] == mem[hs[k]]
  {
    var full := PutHeader(mem[LOG_START], hs);
    CommitKeeps(mem, mem, hs, full, PutHeader(full, []), k, hs[k]);
  }

  /** What the `k`-th copy of install_trans reads and writes. */
  lemma InstallStep(mem: Disk, hs: seq<Word>, k: nat)
    requires HeaderList(hs) && k < |hs|
    ensures var ws := InstallWrites(mem, hs);
            && ws[k] == Write(hs[k], mem[LOG_START + 1 + k])
            && Apply(mem, ws[..k])[LOG_START + 1 + k] == mem[LOG_START + 1 + k]
  {
    ApplyUntouched(mem, InstallWrites(mem, hs)[..k], LOG_START + 1 + k);
  }

  /** The references after the first `i` rounds of install_trans. */
  ghost function InstallRefs(h: map<nat, Ref>, hs: seq<Word>, recovering: bool, i: nat): map<nat, Ref>
    requires i <= |hs| && (recovering || Pinned(h, hs))
  {
    if recovering then map[] else UnpinFirst(h, hs, i)
  }

  /** A round of install_trans meets the demands of CopyBlock, and what it needs for that is
      one unreferenced buffer in the beginning. */
  lemma InstallRefsStep(h: map<nat, Ref>, hs: seq<Word>, recovering: bool, i: nat)
    requires HeaderList(hs) && i < |hs| && |h| <= N_BUF
    requires if recovering then h == map[] else Pinned(h, hs) && !RefOf(h, hs[i]).locked
    ensures var u := InstallRefs(h, hs, recovering, i);
            var from := LOG_START + 1 + i;
            && !RefOf(u, from).locked && !RefOf(u, hs[i]).locked
            && (!recovering ==> RefOf(u, hs[i]).pins > 0)
            && InstallRefs(h, hs, recovering, i + 1) == CopyRefs(u, hs[i], !recovering)
            && from !in u
            && (|h| < N_BUF ==> |u| < N_BUF && (hs[i] in u || |Taken(u, from)| < N_BUF))
            && (i == 0 ==> u == h)
  {
    if !recovering {
      UnpinNext(h, hs, i);
      UnpinSmaller(h, hs, i);
      UnpinNone(h, hs, recovering);
    }
  }

  lemma InstallLength(mem: Disk, hs: seq<Word>)
    requires HeaderList(hs)
    ensures |InstallWrites(mem, hs)| == |hs|
  {
  }

  lemma UnpinNone(h: map<nat, Ref>, hs: seq<Word>, recovering: bool)
    requires recovering || Pinned(h, hs)
    ensures !recovering ==> UnpinFirst(h, hs, 0) == h
  {
  }

  /** What the two header writes put on the disk. */
  lemma HeaderStep(mem: Disk, hs: seq<Word>)
    requires HeaderList(hs)
    ensures var ws := CommitWrites(mem, hs);
            && ws[|hs|] == Write(LOG_START, PutHeader(Apply(mem, ws[..|hs|])[LOG_START], hs))
            && ws[2 * |hs| + 1] == Write(LOG_START, PutHeader(Apply(mem, ws[..2 * |hs| + 1])[LOG_START], []))
  {
    hide Apply, PutHeader;
    var full := PutHeader(mem[LOG_START], hs);
    CommitHeaderBlock(mem, mem, hs, full, PutHeader(full, []), |hs|);
    CommitHeaderBlock(mem, mem, hs, full, PutHeader(full, []), 2 * |hs| + 1);
  }

  /** Installing after the header write is the next stretch of the commit's list. */
  lemma InstallIsCommit(mem: Disk, hs: seq<Word>)
    requires HeaderList(hs)
    ensures var n, ws := |hs|, CommitWrites(mem, hs);
            ws[..2 * n + 1] == ws[..n + 1] + InstallWrites(Apply(mem, ws[..n + 1]), hs)
  {
    hide CommitWrites, InstallWrites, Apply;
    var n, ws := |hs|, CommitWrites(mem, hs);
    var vs := InstallWrites(Apply(mem, ws[..n + 1]), hs);
    InstallLength(Apply(mem, ws[..n + 1]), hs);
    forall i | 0 <= i < n ensures vs[i] == ws[n + 1 + i] {
      InstalledBlock(mem, hs, i);
    }
  }

  lemma InstalledBlock(mem: Disk, hs: seq<Word>, i: nat)
    requires HeaderList(hs) && i < |hs|
    ensures var n, ws := |hs|, CommitWrites(mem, hs);
            InstallWrites(Apply(mem, ws[..n + 1]), hs)[i] == ws[n + 1 + i]
  {
    var full := PutHeader(mem[LOG_START], hs);
    CommitLogsBlock(mem, mem, hs, full, PutHeader(full, []), |hs| + 1, i);
  }

  /** Two stretches of writes, one after the other. */
  lemma ReachedMore(s: Start, us: seq<Write>, vs: seq<Write>)
    requires InRange(us) && InRange(vs)
    ensures Apply(s.mem, us + vs) == Apply(Apply(s.mem, us), vs)
    ensures Apply(s.disk, us + vs) == Apply(Apply(s.disk, us), vs)
    ensures s.history + (us + vs) == (s.history + us) + vs
  {
    ApplyConcat(s.mem, us, vs);
    ApplyConcat(s.disk, us, vs);
  }

  /** The home blocks are on the disk, and the log is empty. */
  ghost predicate Durable(mem: Disk, disk: Disk) {
    SameHome(disk, mem) && HeaderOk(disk) && HeaderOf(disk[LOG_START]) == []
  }

  lemma CommitIsDurable(disk: Disk, mem: Disk, hs: seq<Word>)
    requires Committable(disk, mem, hs)
    ensures if hs == [] then Durable(mem, disk)
            else var ws := CommitWrites(mem, hs); ws[..|ws|] == ws && Durable(mem, Apply(disk, ws))
  {
    hide CommitWrites, Apply, HeaderOk, HeaderOf;
    if hs != [] {
      CommitFinished(disk, mem, hs);
    }
  }

  /** Recovery's list is the installation followed by one header write. */
  lemma RecoveryIsInstall(d: Disk)
    requires HeaderOk(d)
    ensures var hs := HeaderOf(d[LOG_START]);
            var vs := InstallWrites(d, hs);
            && RecoveryWrites(d) == vs + [Write(LOG_START, PutHeader(d[LOG_START], []))]
            && Apply(d, vs)[LOG_START] == d[LOG_START]
  {
    var hs := HeaderOf(d[LOG_START]);
    ApplyUntouched(d, InstallWrites(d, hs), LOG_START);
  }

  lemma IdleStore(c: Cache)
    requires c.Valid() && c.Held() == map[]
    ensures c.Store() == c.disk.blocks
  {
    forall k: nat | k < N_BLKS ensures c.Store()[k] == c.disk.blocks[k] {
      if c.Store()[k] != c.disk.blocks[k] {
        DirtyIsHeld(c, k);
      }
    }
  }

  lemma BufferOf(c: Cache, b: Buffer, k: nat)
    requires c.Valid() && k in c.owner && c.owner[k] == b
    ensures c.Owners() && b in c.nodes && b != c.head && b.bno == k && b.dev == ROOT_DEV
  {
  }

  lemma TakenPins(h: map<nat, Ref>, hs: seq<Word>, k: nat)
    requires Pinned(h, hs) && IsHome(k)
    ensures Pinned(Taken(h, k), hs) && RefOf(Taken(h, k), k).users == RefOf(h, k).users + 1
  {
  }

  /** The references while a block is replaced. */
  lemma ReplacedRefs(h: map<nat, Ref>, k: nat, g: map<nat, Ref>, hs: seq<Word>)
    requires g == Taken(h, k)[k := Ref(RefOf(h, k).users + 1, 1, true)] && Pinned(g, hs)
    ensures Given(g, k) == h[k := Ref(RefOf(h, k).users, 1, false)] && Pinned(Given(g, k), hs)
  {
  }

  lemma NothingDirty(d: Disk, mem: Disk)
    requires Committable(d, mem, [])
    ensures mem == d
  {
  }

  lemma OnDisk(d: Disk, mem: Disk, bno: nat, data: Block)
    requires IsHome(bno) && Durable(mem[bno := data], d)
    ensures d[bno] == data && forall k: nat | IsHome(k) && k != bno :: d[k] == mem[k]
    ensures HeaderOk(d) && HeaderOf(d[LOG_START]) == []
  {
    hide HeaderOk, HeaderOf;
  }

  lemma OneMoreKey(h: map<nat, Ref>, k: nat, u: nat)
    ensures |h[k := Ref(u, 1, false)]| <= |h| + 1
  {
    var g := h[k := Ref(u, 1, false)];
    assert g.Keys == h.Keys + {k};
    assert |g.Keys| <= |h.Keys| + 1;
  }

  lemma UnpinLast(h: map<nat, Ref>, g: map<nat, Ref>, k: Word)
    requires Pinned(h, []) && Pinned(g, [k]) && g == h[k := Ref(RefOf(h, k).users, 1, false)]
    requires forall x | x in h :: !h[x].locked && h[x].users + h[x].pins > 0
    ensures UnpinFirst(g, [k], 1) == h
  {
    var u := UnpinFirst(g, [k], 1);
    assert [k][..1] == [k];
    forall x ensures x in u <==> x in h {
      assert x in [k] <==> x == k;
    }
    forall x | x in h ensures u[x] == h[x] {
      assert x in [k] <==> x == k;
    }
  }

  lemma UnpinOne(h: map<nat, Ref>, k: nat)
    requires Pinned(h, []) && IsHome(k) && forall x | x in h :: !h[x].locked && h[x].users + h[x].pins > 0
    ensures var g := h[k := Ref(RefOf(h, k).users, 1, false)];
            && Pinned(g, [k]) && UnpinFirst(g, [k], 1) == h && !RefOf(h, k).locked
            && |g| <= |h| + 1 && (forall x | x in g :: !g[x].locked)
  {
    var g := h[k := Ref(RefOf(h, k).users, 1, false)];
    assert Pinned(g, [k]);
    OneMoreKey(h, k, RefOf(h, k).users);
    UnpinLast(h, g, k);
  }

  /** A logged block is held and unlocked, and its place in the log is not in use. */
  lemma ReadyToCopy(h: map<nat, Ref>, hs: seq<Word>)
    requires HeaderList(hs) && Pinned(h, hs) && forall i | 0 <= i < |hs| :: !RefOf(h, hs[i]).locked
    ensures forall i | 0 <= i < |hs| ::
              && hs[i] in h && !RefOf(h, hs[i]).locked && hs[i] < N_BLKS && |Taken(h, hs[i])| == |h|
              && LOG_START + 1 + i < N_BLKS && LOG_START + 1 + i != hs[i]
              && LOG_START + 1 + i !in h && !RefOf(h, LOG_START + 1 + i).locked
  {
    forall i | 0 <= i < |hs| ensures |Taken(h, hs[i])| == |h| {
      assert Taken(h, hs[i]).Keys == h.Keys;
    }
  }

  datatype EndResult = Panic | StillOutstanding | Committed

  /** The log as the kernel keeps it, on top of the buffer cache. */
  class Log {
    const cache: Cache
    var lh: seq<Word>
    var outstanding: int
    var committing: bool

    constructor (cache: Cache)
      ensures this.cache == cache && lh == [] && outstanding == 0 && !committing
    {
      this.cache := cache;
      lh, outstanding, committing := [], 0, false;
    }

    /** write_log_header: puts the in-memory list over the header block and writes it. */
    method WriteHeader() returns (ok: bool)
      requires cache.Valid() && |lh| <= LOG_SIZE && LOG_START !in cache.Held()
      modifies cache, cache.nodes, cache.disk
      ensures ok <==> |old(cache.Held())| < N_BUF
      ensures ok ==> var header := PutHeader(old(cache.Store())[LOG_START], lh);
                && cache.Valid() && cache.Held() == old(cache.Held())
                && cache.Store() == old(cache.Store())[LOG_START := header]
                && cache.disk.blocks == old(cache.disk.blocks)[LOG_START := header]
                && cache.disk.history == old(cache.disk.history) + [Write(LOG_START, header)]
      ensures !ok ==> cache.disk.blocks == old(cache.disk.blocks) && cache.disk.history == old(cache.disk.history)
    {
      hide Cache.Ring, Cache.Lru, Cache.Clean, Cache.Store, Cache.Held, Cache.Full, Cache.Counts, PutHeader;
      HeldFits(cache);
      GivenTaken(cache.Held(), LOG_START);
      var b := cache.Take(LOG_START);
      if b == null {
        return false;
      }
      var data := FillHeader(b.data);
      WriteBack(cache, b, LOG_START, data);
      ok := true;
    }

    /** The loop of write_log_header. */
    method FillHeader(block: Block) returns (data: Block)
      requires |lh| <= LOG_SIZE
      ensures data == PutHeader(block, lh)
    {
      data := PutWord(block, 0, |lh|);
      var i := 0;
      while i < |lh|
        invariant 0 <= i <= |lh|
        invariant data == PutEntries(PutWord(block, 0, |lh|), lh, i)
      {
        data := PutWord(data, 1 + i, lh[i]);
        i := i + 1;
      }
    }

    /** The state in which a commit starts: the logged blocks are pinned and unlocked. */
    ghost predicate Ready()
      reads this, cache, cache.nodes, cache.disk
    {
      && cache.Valid() && HeaderList(lh) && Pinned(cache.Held(), lh)
      && (forall i | 0 <= i < |lh| :: !RefOf(cache.Held(), lh[i]).locked)
    }

    /** No buffer is locked, and the log on the disk is empty. */
    ghost predicate Quiet()
      reads this, cache, cache.nodes, cache.disk
      requires cache.Valid()
    {
      && (forall k | k in cache.Held() :: !cache.Held()[k].locked)
      && HeaderOk(cache.disk.blocks) && HeaderOf(cache.disk.blocks[LOG_START]) == []
    }

    /** The cache differs from the disk on logged blocks only. */
    lemma ReadyToCommit()
      requires Ready() && Quiet()
      ensures Committable(cache.disk.blocks, cache.Store(), lh)
    {
      hide Cache.Ring, Cache.Lru, Cache.Clean, Cache.Store, Cache.Held, Cache.Full, Cache.Counts, Cache.Owners;
      hide HeaderOk, HeaderOf;
      forall b: nat | b < N_BLKS && b !in lh ensures cache.Store()[b] == cache.disk.blocks[b] {
        if cache.Store()[b] != cache.disk.blocks[b] {
          DirtyIsHeld(cache, b);
        }
      }
    }

    /** Crash atomicity of the code: after any number of the writes that commit performs, recovery
        would yield the home blocks as they were, or, from the header write on, those of the
        cache. */
    lemma CommitIsAtomic(k: nat)
      requires Ready() && Quiet() && k <= |CommitWrites(cache.Store(), lh)|
      ensures var e := Apply(cache.disk.blocks, CommitWrites(cache.Store(), lh)[..k]);
              HeaderOk(e) && SameHome(Recovered(e), if k <= |lh| then cache.disk.blocks else cache.Store())
    {
      hide Cache.Ring, Cache.Lru, Cache.Clean, Cache.Store, Cache.Held, Cache.Full, Cache.Counts, Cache.Owners;
      hide Apply, CommitWrites, Recovered, SameHome, Committable, HeaderOk, HeaderOf;
      ReadyToCommit();
      CommitCrash(cache.disk.blocks, cache.Store(), lh, k);
    }

    ghost function Now(): Start
      reads cache, cache.nodes, cache.disk
      requires cache.Valid()
    {
      Start(cache.Store(), cache.disk.blocks, cache.disk.history)
    }

    /** write_to_log */
    method WriteToLog() returns (ok: bool)
      requires Ready() && lh != []
      modifies cache, cache.nodes, cache.disk
      ensures ok <==> |old(cache.Held())| < N_BUF
      ensures ok ==> cache.Valid() && cache.Held() == old(cache.Held())
      ensures ok ==> Reached(cache, old(Now()), CommitWrites(old(cache.Store()), lh), |lh|)
      ensures !ok ==> cache.disk.history == old(cache.disk.history)
    {
      hide Cache.Ring, Cache.Lru, Cache.Clean, Cache.Store, Cache.Held, Cache.Full, Cache.Counts, Cache.Owners;
      hide Apply, CommitWrites, Pinned, RefOf, Taken;
      ghost var s, h := Now(), cache.Held();
      ghost var ws := CommitWrites(s.mem, lh);
      HeldFits(cache);
      ReadyToCopy(h, lh);
      hide HeaderList;
      assert ws[..0] == [] && s.history + [] == s.history;
      ApplyNone(s);
      var i := 0;
      while i < |lh|
        invariant 0 <= i <= |lh|
        invariant cache.Valid() && cache.Held() == h
        invariant Reached(cache, s, ws, i)
        invariant i > 0 ==> |h| < N_BUF
      {
        LogStep(s.mem, lh, i);
        ReachedNext(s, ws, i);
        var copied := CopyBlock(cache, lh[i], LOG_START + 1 + i, false);
        if !copied {
          return false;
        }
        i := i + 1;
      }
      ok := true;
    }

    /** install_trans: copies the log blocks home. A commit returns one pin per block; a
        recovery runs before anything else uses the cache. */
    method InstallTrans(recovering: bool) returns (ok: bool)
      requires cache.Valid() && HeaderList(lh)
      requires if recovering then cache.Held() == map[] else Ready()
      modifies cache, cache.nodes, cache.disk
      ensures ok <==> lh == [] || |old(cache.Held())| < N_BUF
      ensures ok ==> cache.Valid()
      ensures ok ==> cache.Held() == InstallRefs(old(cache.Held()), lh, recovering, |lh|)
      ensures ok ==> Reached(cache, old(Now()), InstallWrites(old(cache.Store()), lh), |lh|)
    {
      hide Cache.Ring, Cache.Lru, Cache.Clean, Cache.Store, Cache.Held, Cache.Full, Cache.Counts, Cache.Owners;
      hide Apply, InstallWrites, UnpinFirst, CopyRefs, Taken;
      ghost var s, h := Now(), cache.Held();
      ghost var ws := InstallWrites(s.mem, lh);
      InstallLength(s.mem, lh);
      HeldFits(cache);
      assert ws[..0] == [] && s.history + [] == s.history;
      ApplyNone(s);
      UnpinNone(h, lh, recovering);
      var i := 0;
      while i < |lh|
        invariant 0 <= i <= |lh|
        invariant cache.Valid()
        invariant cache.Held() == InstallRefs(h, lh, recovering, i)
        invariant Reached(cache, s, ws, i)
        invariant i > 0 ==> |h| < N_BUF
      {
        InstallStep(s.mem, lh, i);
        ReachedNext(s, ws, i);
        InstallRefsStep(h, lh, recovering, i);
        var copied := CopyBlock(cache, LOG_START + 1 + i, lh[i], !recovering);
        if !copied {
          return false;
        }
        i := i + 1;
      }
      ok := true;
    }

    /** The first half of commit, up to the header write that makes it durable. */
    method LogAndMark() returns (ok: bool)
      requires Ready() && lh != []
      modifies cache, cache.nodes, cache.disk
      ensures ok <==> |old(cache.Held())| < N_BUF
      ensures ok ==> cache.Valid() && cache.Held() == old(cache.Held())
      ensures ok ==> Reached(cache, old(Now()), CommitWrites(old(cache.Store()), lh), |lh| + 1)
      ensures !ok ==> cache.disk.history == old(cache.disk.history)
    {
      hide Cache.Ring, Cache.Lru, Cache.Clean, Cache.Store, Cache.Held, Cache.Full, Cache.Counts, Cache.Owners;
      hide Apply, CommitWrites, PutHeader;
      HeaderStep(cache.Store(), lh);
      ReachedNext(Now(), CommitWrites(cache.Store(), lh), |lh|);
      ok := WriteToLog();
      if ok {
        ok := WriteHeader();
      }
    }

    /** The second half of commit: installs the blocks, drops the pins, clears the header. */
    method InstallAndClear(ghost s: Start, ghost hs: seq<Word>)
      requires Ready() && |cache.Held()| < N_BUF && hs == lh != []
      requires Reached(cache, s, CommitWrites(s.mem, hs), |hs| + 1)
      modifies this`lh, cache, cache.nodes, cache.disk
      ensures cache.Valid() && lh == []
      ensures cache.Held() == UnpinFirst(old(cache.Held()), hs, |hs|)
      ensures Reached(cache, s, CommitWrites(s.mem, hs), 2 * |hs| + 2)
    {
      hide Cache.Ring, Cache.Lru, Cache.Clean, Cache.Store, Cache.Held, Cache.Full, Cache.Counts, Cache.Owners;
      hide Apply, CommitWrites, InstallWrites, UnpinFirst, PutHeader;
      ghost var n, ws := |hs|, CommitWrites(s.mem, hs);
      ghost var vs := InstallWrites(cache.Store(), hs);
      InstallIsCommit(s.mem, hs);
      ReachedMore(s, ws[..n + 1], vs);
      InstallLength(cache.Store(), hs);
      assert vs[..n] == vs;
      UnpinSmaller(cache.Held(), hs, n);
      PinsReturned(cache.Held(), hs);
      var _ := InstallTrans(false);
      assert Reached(cache, s, ws, 2 * n + 1);
      HeaderStep(s.mem, hs);
      ReachedNext(s, ws, 2 * n + 1);
      lh := [];
      var _ := WriteHeader();
    }

    /** commit: the writes that reach the disk are exactly the commit list, and every pin is
        returned. It panics exactly when there is something to commit and every buffer is
        referenced, and then it has written nothing. */
    method Commit() returns (ok: bool)
      requires Ready()
      modifies this`lh, cache, cache.nodes, cache.disk
      ensures ok <==> old(lh) == [] || |old(cache.Held())| < N_BUF
      ensures ok ==> cache.Valid() && lh == []
      ensures ok ==> cache.Held() == UnpinFirst(old(cache.Held()), old(lh), |old(lh)|)
      ensures ok && old(lh) != [] ==>
                var ws := CommitWrites(old(cache.Store()), old(lh));
                Reached(cache, old(Now()), ws, |ws|)
      ensures ok && old(lh) == [] ==> Now() == old(Now())
      ensures !ok ==> cache.disk.history == old(cache.disk.history)
      ensures ok && old(Quiet()) ==> Durable(old(cache.Store()), cache.disk.blocks)
    {
      hide Cache.Ring, Cache.Lru, Cache.Clean, Cache.Store, Cache.Held, Cache.Full, Cache.Counts, Cache.Owners;
      hide Apply, CommitWrites, InstallWrites, UnpinFirst, Durable, Committable, HeaderOk, HeaderOf;
      if Quiet() {
        ReadyToCommit();
        CommitIsDurable(cache.disk.blocks, cache.Store(), lh);
      }
      if |lh| > 0 {
        ghost var s := Now();
        ok := LogAndMark();
        if ok {
          InstallAndClear(s, lh);
        }
      } else {
        UnpinNone(cache.Held(), lh, false);
        ok := true;
      }
    }

    /** read_log_header */
    method ReadHeader()
      requires cache.Valid() && cache.Held() == map[] && HeaderOk(cache.Store())
      modifies this`lh, cache, cache.nodes
      ensures cache.Valid() && cache.Held() == map[] && Now() == old(Now())
      ensures lh == HeaderOf(old(cache.Store())[LOG_START])
    {
      hide Cache.Ring, Cache.Lru, Cache.Clean, Cache.Store, Cache.Held, Cache.Full, Cache.Counts;
      GivenTaken(map[], LOG_START);
      IdleStore(cache);
      var b := cache.Take(LOG_START);
      lh := ParseHeader(b.data);
      cache.Give(b);
    }

    /** The loop of read_log_header. */
    static method ParseHeader(block: Block) returns (list: seq<Word>)
      requires GetWord(block, 0) <= LOG_SIZE
      ensures list == HeaderOf(block)
    {
      list := [];
      var n := GetWord(block, 0);
      while |list| < n
        invariant |list| <= n
        invariant list == HeaderOf(block)[..|list|]
      {
        list := list + [GetWord(block, 1 + |list|)];
      }
    }

    /** recover_from_log: performs exactly the recovery list and ends with an idle cache
        that agrees with the disk. */
    method Recover()
      requires cache.Valid() && cache.Held() == map[] && HeaderOk(cache.disk.blocks)
      modifies this`lh, cache, cache.nodes, cache.disk
      ensures cache.Valid() && cache.Held() == map[] && lh == []
      ensures cache.disk.blocks == cache.Store() == Recovered(old(cache.disk.blocks))
      ensures cache.disk.history == old(cache.disk.history) + RecoveryWrites(old(cache.disk.blocks))
    {
      hide Cache.Ring, Cache.Lru, Cache.Clean, Cache.Store, Cache.Held, Cache.Full, Cache.Counts;
      hide Apply, InstallWrites, PutHeader, RecoveryWrites, HeaderOf;
      IdleStore(cache);
      ghost var s := Now();
      ghost var vs := InstallWrites(s.mem, HeaderOf(s.mem[LOG_START]));
      ghost var last := Write(LOG_START, PutHeader(s.mem[LOG_START], []));
      RecoveryIsInstall(s.mem);
      ReadHeader();
      InstallLength(s.mem, lh);
      assert vs[..|lh|] == vs;
      var _ := InstallTrans(true);
      lh := [];
      var _ := WriteHeader();
      ReachedNext(s, vs + [last], |vs|);
      assert (vs + [last])[..|vs|] == vs && (vs + [last])[..|vs| + 1] == vs + [last];
    }

    /** log_write, by the process that holds the buffer: the block joins the list once and
        is pinned once. False means panic. */
    method LogWrite(b: Buffer) returns (ok: bool)
      requires cache.Valid() && HeaderList(lh) && Pinned(cache.Held(), lh)
      requires Has(cache, b, b.bno) && IsHome(b.bno)
      modifies `lh, b`refcnt, b`pins
      ensures ok <==> |old(lh)| < LOG_SIZE - 1 && outstanding >= 1
      ensures ok ==> lh == if b.bno in old(lh) then old(lh) else old(lh) + [b.bno]
      ensures cache.Valid() && cache.Store() == old(cache.Store())
      ensures ok ==> HeaderList(lh) && Pinned(cache.Held(), lh)
      ensures ok ==> b.pins == 1 && cache.Held() == old(cache.Held())[b.bno := Ref(b.users, 1, true)]
    {
      hide Cache.Ring, Cache.Lru, Cache.Clean, Cache.Store, Cache.Held, Cache.Full;
      if |lh| >= LOG_SIZE - 1 || outstanding < 1 {
        return false;
      }
      var i := 0;
      while i < |lh| && lh[i] != b.bno
        invariant 0 <= i <= |lh|
        invariant forall j | 0 <= j < i :: lh[j] != b.bno
      {
        i := i + 1;
      }
      ok := true;
      BlockView(cache, b.bno);
      if i == |lh| {
        lh := lh + [b.bno];
        var _ := cache.Bpin(b);
        BlockView(cache, b.bno);
      } else {
        assert lh[i] in cache.Held() && cache.Held()[lh[i]].pins == 1;
      }
    }

    /** end_op. It panics during a commit, and when there is something to commit and no buffer for
        it; the last operation commits and any other one leaves everything as it is. */
    method EndOp() returns (r: EndResult)
      requires cache.Valid() && HeaderList(lh) && (outstanding == 1 && !committing ==> Ready())
      modifies this, cache, cache.nodes, cache.disk
      ensures outstanding == old(outstanding) - 1
      ensures r.Panic? <==> old(committing) || (old(outstanding) == 1 && old(lh) != [] && |old(cache.Held())| >= N_BUF)
      ensures r.Panic? ==> committing
      ensures r.Committed? ==> !old(committing) && old(outstanding) == 1 && lh == [] && !committing && cache.Valid()
      ensures r.Committed? ==> cache.Held() == UnpinFirst(old(cache.Held()), old(lh), |old(lh)|)
      ensures r.Committed? && old(lh) == [] ==> Now() == old(Now())
      ensures r.Committed? && old(Quiet()) ==> Durable(old(cache.Store()), cache.disk.blocks)
      ensures r.StillOutstanding? ==> !old(committing) && old(outstanding) != 1 && !committing && lh == old(lh)
      ensures r.StillOutstanding? || old(committing) ==>
                cache.Valid() && Now() == old(Now()) && cache.Held() == old(cache.Held())
      ensures cache.disk.history == old(cache.disk.history)
                + if r.Committed? && old(lh) != [] then CommitWrites(old(cache.Store()), old(lh)) else []
    {
      hide Cache.Ring, Cache.Lru, Cache.Clean, Cache.Store, Cache.Held, Cache.Full, Cache.Counts, Cache.Owners;
      hide Apply, CommitWrites, UnpinFirst, Durable, HeaderOk, HeaderOf;
      outstanding := outstanding - 1;
      if committing {
        return Panic;
      }
      if outstanding == 0 {
        committing := true;
        ghost var ws := if lh == [] then [] else CommitWrites(cache.Store(), lh);
        assert ws[..|ws|] == ws;
        var ok := Commit();
        if !ok {
          return Panic;
        }
        committing := false;
        return Committed;
      }
      return StillOutstanding;
    }

    /** The end of all operations under way: each but the last is told that others are, and the
        last one commits. */
    method EndAll() returns (rs: seq<EndResult>)
      requires Ready() && outstanding >= 1 && !committing && (lh == [] || |cache.Held()| < N_BUF)
      modifies this, cache, cache.nodes, cache.disk
      ensures |rs| == old(outstanding)
      ensures forall i | 0 <= i < |rs| :: rs[i] == if i < |rs| - 1 then StillOutstanding else Committed
      ensures outstanding == 0 && !committing && lh == [] && cache.Valid()
      ensures cache.Held() == UnpinFirst(old(cache.Held()), old(lh), |old(lh)|)
      ensures old(lh) == [] ==> Now() == old(Now())
      ensures old(Quiet()) ==> Durable(old(cache.Store()), cache.disk.blocks)
    {
      hide Cache.Ring, Cache.Lru, Cache.Clean, Cache.Store, Cache.Held, Cache.Full, Cache.Counts, Cache.Owners;
      hide CommitWrites, UnpinFirst, Durable, HeaderOk, HeaderOf;
      rs := [];
      while outstanding > 1
        invariant 1 <= outstanding <= old(outstanding) && |rs| == old(outstanding) - outstanding
        invariant forall i | 0 <= i < |rs| :: rs[i] == StillOutstanding
        invariant !committing && lh == old(lh) && cache.Valid()
        invariant Now() == old(Now()) && cache.Held() == old(cache.Held())
        decreases outstanding
      {
        var r := EndOp();
        rs := rs + [r];
      }
      var r := EndOp();
      rs := rs + [r];
    }

    /** What an operation does to one block: bread, the change, log_write, brelse. */
    method Replace(bno: nat, data: Block)
      requires cache.Valid() && HeaderList(lh) && Pinned(cache.Held(), lh)
      requires IsHome(bno) && !RefOf(cache.Held(), bno).locked && |cache.Held()| < N_BUF
      requires |lh| < LOG_SIZE - 1 && outstanding >= 1
      modifies `lh, cache, cache.nodes
      ensures cache.Valid() && HeaderList(lh) && Pinned(cache.Held(), lh)
      ensures cache.Store() == old(cache.Store())[bno := data]
      ensures lh == if bno in old(lh) then old(lh) else old(lh) + [bno]
      ensures cache.Held() == old(cache.Held())[bno := Ref(RefOf(old(cache.Held()), bno).users, 1, false)]
    {
      hide Cache.Ring, Cache.Lru, Cache.Clean, Cache.Store, Cache.Held, Cache.Full, Cache.Counts, Cache.Owners, Pinned;
      hide Taken, Given, RefOf, HeaderList;
      ghost var h := cache.Held();
      TakenPins(h, lh, bno);
      var b := cache.Take(bno);
      BufferOf(cache, b, bno);
      BlockView(cache, bno);
      cache.Modify(b, data);
      var _ := LogWrite(b);
      ReplacedRefs(h, bno, cache.Held(), lh);
      cache.Give(b);
    }

    /** One operation on an idle log that replaces one block: afterwards the block is on the disk,
        every other home block is as it was, and the log is idle again. */
    method Update(bno: nat, data: Block) returns (r: EndResult)
      requires Ready() && Quiet() && lh == [] && outstanding == 0 && !committing
      requires IsHome(bno) && |cache.Held()| < N_BUF - 1
      modifies this, cache, cache.nodes, cache.disk
      ensures r == Committed && lh == [] && outstanding == 0 && !committing
      ensures cache.Valid() && cache.Held() == old(cache.Held()) && Quiet()
      ensures cache.disk.blocks[bno] == data
      ensures forall k: nat | IsHome(k) && k != bno :: cache.disk.blocks[k] == old(cache.disk.blocks[k])
    {
      hide Cache.Ring, Cache.Lru, Cache.Clean, Cache.Store, Cache.Held, Cache.Full, Cache.Counts, Cache.Owners;
      hide CommitWrites, HeaderOk, HeaderOf, Durable, Committable, UnpinFirst;
      ghost var h := cache.Held();
      ReadyToCommit();
      HeldFits(cache);
      UnpinOne(h, bno);
      NothingDirty(cache.disk.blocks, cache.Store());
      hide Pinned, RefOf;
      var _ := TryBegin();
      Replace(bno, data);
      assert lh == [bno];
      r := EndOp();
      OnDisk(cache.disk.blocks, old(cache.Store()), bno, data);
    }

    /** One look of begin_op: false means that the caller has to sleep. */
    method TryBegin() returns (ok: bool)
      modifies `outstanding
      ensures ok <==> !committing && |lh| + (old(outstanding) + 1) * MAX_OP_BLKS <= LOG_SIZE
      ensures outstanding == old(outstanding) + if ok then 1 else 0
    {
      ok := !committing && |lh| + (outstanding + 1) * MAX_OP_BLKS <= LOG_SIZE;
      if ok {
        outstanding := outstanding + 1;
      }
    }

    /** Operations that come together on an idle log: three are let in; they end, and the log is
        as it was. */
    method Session(n: nat) returns (admitted: nat, rs: seq<EndResult>)
      requires Ready() && lh == [] && outstanding == 0 && !committing
      modifies this, cache, cache.nodes, cache.disk
      ensures admitted == if n < 3 then n else 3
      ensures |rs| == admitted
      ensures forall i | 0 <= i < admitted :: rs[i] == if i < admitted - 1 then StillOutstanding else Committed
      ensures lh == [] && outstanding == 0 && !committing
      ensures cache.Valid() && Now() == old(Now()) && cache.Held() == old(cache.Held())
    {
      hide Cache.Ring, Cache.Lru, Cache.Clean, Cache.Store, Cache.Held, Cache.Full, Cache.Counts, Cache.Owners;
      admitted, rs := 0, [];
      for i := 0 to n
        invariant admitted == outstanding == (if i < 3 then i else 3)
        invariant lh == [] && !committing
        invariant cache.Valid() && Now() == old(Now()) && cache.Held() == old(cache.Held())
      {
        var ok := TryBegin();
        if ok {
          admitted := admitted + 1;
        }
      }
      if admitted > 0 {
        UnpinNone(cache.Held(), lh, false);
        rs := EndAll();
      }
    }
  }
}
