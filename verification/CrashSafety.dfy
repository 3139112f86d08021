/** What the log means for the file system: a property of the home blocks that every batch of
    operations keeps is there after every crash. */
module CrashSafety {
  import opened Blocks
  import opened DiskLayout
  import opened LogSpec
  import opened LogMachine
  import opened Inodes
  import opened BlockChanges
  import FileSystem

  /** The property only looks at blocks outside the log. */
  ghost predicate HomeOnly(p: Disk -> bool) {
    forall d, e | SameHome(d, e) && p(d) :: p(e)
  }

  /** The cache's contents at the last moment without an operation in progress, after a step. */
  ghost function NextBase(e: Event, t: State, base: Disk): Disk {
    if e.EndRecovery? || (e.EndOp? && t.outstanding == 0) then t.mem else base
  }

  /** Every batch of overlapping operations keeps the property: when the last one ends, it
      holds if it held when the first one began. What holds in between, while operations are in
      progress, does not matter. */
  ghost predicate Careful(p: Disk -> bool, limit: nat, s: State, es: seq<Event>, base: Disk)
    requires Runs(limit, s, es)
    decreases |es|
  {
    es == [] ||
    (var t := Exec(limit, s, es[0]);
     && (es[0].EndOp? && t.outstanding == 0 && p(base) ==> p(t.mem))
     && Careful(p, limit, t, es[1..], NextBase(es[0], t, base)))
  }

  ghost predicate Safe(p: Disk -> bool, root: Disk, s: State, base: Disk) {
    && p(Replay(root, s.groups))
    && (s.phase.Running? ==> p(base))
    && (s.phase.Committing? ==> p(base) && base == s.phase.mem0)
  }

  lemma StepIsSafe(p: Disk -> bool, limit: nat, root: Disk, s: State, e: Event, base: Disk)
    requires HomeOnly(p) && Inv(root, s) && Enabled(limit, s, e) && Safe(p, root, s, base)
    requires var t := Exec(limit, s, e); e.EndOp? && t.outstanding == 0 && p(base) ==> p(t.mem)
    ensures var t := Exec(limit, s, e); Safe(p, root, t, NextBase(e, t, base))
  {
    hide Replay, Perform, Apply, SameHome, HeaderOk, Recovered, CommitWrites, RecoveryWrites;
    var t := Exec(limit, s, e);
    StepKeeps(limit, root, s, e);
    if e.EndRecovery? {
      NothingPending(Replay(root, t.groups));
      Symmetric(t.mem, Replay(root, t.groups));
    }
  }

  lemma NothingPending(d: Disk)
    ensures Perform(d, []) == d
  {
  }

  lemma Symmetric(d: Disk, e: Disk)
    requires SameHome(d, e)
    ensures SameHome(e, d)
  {
  }

  lemma {:induction false} RunIsSafe(p: Disk -> bool, limit: nat, root: Disk, s: State, es: seq<Event>, base: Disk)
    requires HomeOnly(p) && Inv(root, s) && Runs(limit, s, es) && Safe(p, root, s, base)
    requires Careful(p, limit, s, es, base)
    ensures p(Replay(root, Final(limit, s, es).groups))
    decreases |es|
  {
    hide Inv, Exec, Safe, Enabled, Replay, NextBase, HomeOnly;
    if es == [] {
      SafeReplay(p, root, s, base);
    } else {
      var t := Exec(limit, s, es[0]);
      StepKeeps(limit, root, s, es[0]);
      StepIsSafe(p, limit, root, s, es[0], base);
      RunIsSafe(p, limit, root, t, es[1..], NextBase(es[0], t, base));
    }
  }

  lemma SafeReplay(p: Disk -> bool, root: Disk, s: State, base: Disk)
    requires Safe(p, root, s, base)
    ensures p(Replay(root, s.groups))
  {
  }

  /** An invariant survives: in every reachable state of every run, with any crashes and
      interrupted recoveries, recovery yields a disk with the property. */
  lemma InvariantSurvives(p: Disk -> bool, limit: nat, s0: State, es: seq<Event>)
    requires HomeOnly(p) && Init(s0) && p(s0.disk)
    requires Runs(limit, s0, es) && Careful(p, limit, s0, es, s0.disk)
    ensures var s := Final(limit, s0, es); HeaderOk(s.disk) && p(Recovered(s.disk))
  {
    hide Inv, Exec, Careful, Runs, Enabled;
    InitInv(s0);
    RunIsSafe(p, limit, s0.disk, s0, es, s0.disk);
    ReachableRecovers(limit, s0, es);
    var s := Final(limit, s0, es);
    Symmetric(Recovered(s.disk), Replay(s0.disk, s.groups));
  }

  // ------------------------------------------------------------------ block ownership

  ghost function TableOf(d: Disk): Table {
    seq<Inode>(N_INODES, i requires 0 <= i < N_INODES => DiskInode(d, i))
  }

  /** Some assignment of owners fits the inodes, the indirect blocks and the bitmap. */
  ghost predicate DiskSound(d: Disk) {
    exists o: map<nat, Place> :: Owned(d, TableOf(d), o)
  }

  lemma OwnershipIsHome()
    ensures HomeOnly((d: Disk) => DiskSound(d))
  {
    forall d: Disk, e: Disk | SameHome(d, e) && DiskSound(d) ensures DiskSound(e) {
      var o: map<nat, Place> :| Owned(d, TableOf(d), o);
      SameOwners(d, e, o);
    }
  }

  lemma SameOwners(d: Disk, e: Disk, o: map<nat, Place>)
    requires SameHome(d, e) && Owned(d, TableOf(d), o)
    ensures Owned(e, TableOf(e), o)
  {
    hide GetInode, BitsOf, GetWord;
    forall i: nat | i < N_INODES ensures DiskInode(d, i) == DiskInode(e, i) {
      assert IsHome(InodeBlock(i));
    }
    assert TableOf(d) == TableOf(e);
    assert IsHome(DATA_BITMAP);
    forall n: nat, s: FileSlot | n < N_INODES ensures Ref(d, TableOf(d)[n], s) == Ref(e, TableOf(d)[n], s) {
    }
  }

  /** Block ownership survives every crash, if every batch of operations keeps it. */
  lemma OwnershipSurvives(limit: nat, s0: State, es: seq<Event>)
    requires Init(s0) && DiskSound(s0.disk)
    requires Runs(limit, s0, es) && Careful((d: Disk) => DiskSound(d), limit, s0, es, s0.disk)
    ensures var s := Final(limit, s0, es); HeaderOk(s.disk) && DiskSound(Recovered(s.disk))
  {
    hide DiskSound, Careful, Runs, HomeOnly;
    OwnershipIsHome();
    InvariantSurvives((d: Disk) => DiskSound(d), limit, s0, es);
  }

  // ------------------------------------------------------------------ operations

  /** Every inode's latest form is on the disk. */
  ghost predicate Synced(f: Fs) {
    forall n | 0 <= n < N_INODES :: DiskInode(f.d, n) == f.t[n]
  }

  lemma SyncedIsSound(f: Fs)
    requires Sound(f) && Synced(f)
    ensures DiskSound(f.d)
  {
    hide Owned, GetInode;
    assert TableOf(f.d) == f.t;
  }

  /** A batch of file operations leads from one disk to the other, as far as home blocks go:
      starting with the kernel's state on the first disk, some list of the changes that the
      operations make, in any interleaving, ends with every inode stored on the second. */
  ghost predicate Batch(d: Disk, e: Disk) {
    forall f | Sound(f) && Synced(f) && f.d == d :: exists g :: Changed(f, g) && Synced(g) && SameHome(g.d, e)
  }

  lemma BatchKeepsOwnership(d: Disk, e: Disk)
    requires Batch(d, e) && DiskSound(d)
    ensures DiskSound(e)
  {
    hide Owned, GetInode, Changed, SameHome;
    var o: map<nat, Place> :| Owned(d, TableOf(d), o);
    var f := Fs(d, TableOf(d), o);
    assert Sound(f) && Synced(f);
    var g :| Changed(f, g) && Synced(g) && SameHome(g.d, e);
    ChangedKeepsSound(f, g);
    assert TableOf(g.d) == g.t;
    SameOwners(g.d, e, g.o);
  }

  /** The inodes, the indirect blocks and the bitmap determine who owns what. */
  lemma OneOwnership(d: Disk, t: Table, o: map<nat, Place>, q: map<nat, Place>)
    requires Owned(d, t, o) && Owned(d, t, q)
    ensures o == q
  {
    hide BitsOf, Ref;
    forall b | b in o ensures b in q && q[b] == o[b] {
      assert Ref(d, t[o[b].ino], o[b].slot) == b;
    }
    forall b | b in q ensures b in o {
      assert Ref(d, t[q[b].ino], q[b].slot) == b;
    }
  }

  lemma IsBatch(f: Fs, g: Fs)
    requires Sound(f) && Synced(f) && Changed(f, g) && Synced(g)
    ensures Batch(f.d, g.d)
  {
    hide Owned, GetInode, Changed;
    forall h | Sound(h) && Synced(h) && h.d == f.d ensures h == f {
      assert h.t == f.t;
      OneOwnership(f.d, f.t, f.o, h.o);
    }
    assert SameHome(g.d, g.d);
  }

  /** An operation that writes to a file is such a batch, so it leaves a disk that may be
      committed. */
  method WriteFile(fs: FileSystem.FileSystem, ino: nat, off: nat, src: seq<Byte>) returns (r: FileSystem.WriteResult)
    requires Sound(fs.State()) && Synced(fs.State()) && ino < N_INODES
    modifies fs
    ensures !r.Panicked? ==> Sound(fs.State()) && Synced(fs.State()) && DiskSound(fs.blocks)
    ensures !r.Panicked? ==> Batch(old(fs.blocks), fs.blocks)
  {
    hide Owned, GetInode, WroteFile, DiskSound, Changed, Batch;
    r := fs.WriteI(ino, off, src);
    if !r.Panicked? {
      if r.Wrote? {
        OthersKept(old(fs.State()), fs.State(), ino, off, src[..r.n]);
      }
      SyncedIsSound(fs.State());
      IsBatch(old(fs.State()), fs.State());
    }
  }

  lemma OthersKept(f: Fs, g: Fs, ino: nat, off: nat, data: seq<Byte>)
    requires WroteFile(f, g, ino, off, data)
    ensures forall n | 0 <= n < N_INODES && n != ino :: g.t[n] == f.t[n]
  {
    hide BlockAt, ByteAt;
  }

  /** So is an operation that truncates a file. */
  method TruncateFile(fs: FileSystem.FileSystem, ino: nat)
    requires Sound(fs.State()) && Synced(fs.State()) && ino < N_INODES
    modifies fs
    ensures Sound(fs.State()) && Synced(fs.State()) && DiskSound(fs.blocks)
    ensures Batch(old(fs.blocks), fs.blocks)
  {
    hide Owned, GetInode, DiskSound, Changed, Batch;
    fs.Itrunc(ino);
    SyncedIsSound(fs.State());
    IsBatch(old(fs.State()), fs.State());
  }

  /** Every batch of overlapping operations of a run is one of file operations. */
  ghost predicate FileWork(limit: nat, s: State, es: seq<Event>, base: Disk)
    requires Runs(limit, s, es)
    decreases |es|
  {
    es == [] ||
    (var t := Exec(limit, s, es[0]);
     && (es[0].EndOp? && t.outstanding == 0 ==> Batch(base, t.mem))
     && FileWork(limit, t, es[1..], NextBase(es[0], t, base)))
  }

  lemma {:induction false} FileWorkIsCareful(limit: nat, s: State, es: seq<Event>, base: Disk)
    requires Runs(limit, s, es) && FileWork(limit, s, es, base)
    ensures Careful((d: Disk) => DiskSound(d), limit, s, es, base)
    decreases |es|
  {
    hide Exec, Enabled, DiskSound, Batch, NextBase;
    if es != [] {
      var t := Exec(limit, s, es[0]);
      if es[0].EndOp? && t.outstanding == 0 && DiskSound(base) {
        BatchKeepsOwnership(base, t.mem);
      }
      FileWorkIsCareful(limit, t, es[1..], NextBase(es[0], t, base));
    }
  }

  // ------------------------------------------------------------------ logging an operation

  /** One log_write for every block of a list, with the contents that the operation gave it. */
  function Logs(op: nat, bs: seq<Home>, e: Disk): seq<Event> {
    if bs == [] then [] else [LogBlock(op, bs[0], e[bs[0]])] + Logs(op, bs[1..], e)
  }

  /** The cache differs from what the operation made on the blocks still to be logged only. */
  ghost predicate LeftToLog(m: Disk, e: Disk, bs: seq<Home>) {
    forall b: nat | IsHome(b) && b !in bs :: m[b] == e[b]
  }

  lemma BatchHome(d: Disk, e: Disk, m: Disk)
    requires Batch(d, e) && SameHome(e, m)
    ensures Batch(d, m)
  {
    hide Sound, Synced, Changed;
    forall f | Sound(f) && Synced(f) && f.d == d ensures exists g :: Changed(f, g) && Synced(g) && SameHome(g.d, m) {
      var g :| Changed(f, g) && Synced(g) && SameHome(g.d, e);
      assert SameHome(g.d, m);
    }
  }

  lemma OneLogged(limit: nat, s: State, op: nat, bs: seq<Home>, e: Disk)
    requires bs != [] && s.outstanding == 1 && LeftToLog(s.mem, e, bs)
    requires Enabled(limit, s, LogBlock(op, bs[0], e[bs[0]]))
    ensures var t := Exec(limit, s, LogBlock(op, bs[0], e[bs[0]]));
            t.phase.Panicked? || (t.outstanding == 1 && LeftToLog(t.mem, e, bs[1..]))
  {
  }

  lemma AllLogged(limit: nat, s: State, op: nat, d: Disk, e: Disk)
    requires s.outstanding == 1 && LeftToLog(s.mem, e, []) && Enabled(limit, s, EndOp(op)) && Batch(d, e)
    ensures Batch(d, Exec(limit, s, EndOp(op)).mem)
    ensures NextBase(EndOp(op), Exec(limit, s, EndOp(op)), d) == Exec(limit, s, EndOp(op)).mem
  {
    hide Batch;
    BatchHome(d, e, s.mem);
  }

  /** A run and its first step. */
  lemma FirstStep(limit: nat, s: State, e: Event, es: seq<Event>)
    ensures Runs(limit, s, [e] + es) <==> Enabled(limit, s, e) && Runs(limit, Exec(limit, s, e), es)
    ensures Runs(limit, s, [e] + es) ==> Final(limit, s, [e] + es) == Final(limit, Exec(limit, s, e), es)
  {
    hide Enabled, Exec;
    assert ([e] + es)[1..] == es;
  }

  lemma FirstWork(limit: nat, s: State, e: Event, es: seq<Event>, base: Disk)
    requires Enabled(limit, s, e) && Runs(limit, Exec(limit, s, e), es)
    requires var t := Exec(limit, s, e);
             (e.EndOp? && t.outstanding == 0 ==> Batch(base, t.mem)) && FileWork(limit, t, es, NextBase(e, t, base))
    ensures Runs(limit, s, [e] + es) && FileWork(limit, s, [e] + es, base)
  {
    hide Enabled, Exec, Batch, NextBase;
    assert ([e] + es)[1..] == es;
  }

  /** The rest of an operation, from some log_write on, is file work if what follows is. */
  lemma {:induction false} LogsAreFileWork(limit: nat, s: State, op: nat, bs: seq<Home>, d: Disk, e: Disk,
                                           rest: seq<Event>)
    requires s.outstanding == 1 && Batch(d, e) && LeftToLog(s.mem, e, bs)
    requires Runs(limit, s, Logs(op, bs, e) + ([EndOp(op)] + rest))
    requires Runs(limit, s, Logs(op, bs, e) + [EndOp(op)])
    requires var t := Final(limit, s, Logs(op, bs, e) + [EndOp(op)]);
             Runs(limit, t, rest) && FileWork(limit, t, rest, t.mem)
    ensures FileWork(limit, s, Logs(op, bs, e) + ([EndOp(op)] + rest), d)
    decreases |bs|
  {
    hide Batch, Exec, Enabled, LeftToLog, Runs, Final, FileWork, NextBase;
    if bs == [] {
      assert Logs(op, bs, e) + ([EndOp(op)] + rest) == [EndOp(op)] + rest;
      assert Logs(op, bs, e) + [EndOp(op)] == [EndOp(op)] + [];
      FirstStep(limit, s, EndOp(op), rest);
      FirstStep(limit, s, EndOp(op), []);
      FinalOfNone(limit, Exec(limit, s, EndOp(op)));
      AllLogged(limit, s, op, d, e);
      FirstWork(limit, s, EndOp(op), rest, d);
    } else {
      var now := LogBlock(op, bs[0], e[bs[0]]);
      var more, last := Logs(op, bs[1..], e) + ([EndOp(op)] + rest), Logs(op, bs[1..], e) + [EndOp(op)];
      assert Logs(op, bs, e) + ([EndOp(op)] + rest) == [now] + more;
      assert Logs(op, bs, e) + [EndOp(op)] == [now] + last;
      FirstStep(limit, s, now, more);
      FirstStep(limit, s, now, last);
      OneLogged(limit, s, op, bs, e);
      NotPanicked(limit, Exec(limit, s, now), op, bs[1..], e);
      LogsAreFileWork(limit, Exec(limit, s, now), op, bs[1..], d, e, rest);
      SameBase(now, Exec(limit, s, now), d);
      FirstWork(limit, s, now, more, d);
    }
  }

  lemma FinalOfNone(limit: nat, s: State)
    ensures Runs(limit, s, []) && Final(limit, s, []) == s
  {
  }

  lemma SameBase(e: Event, t: State, base: Disk)
    requires e.LogBlock? || e.BeginOp?
    ensures NextBase(e, t, base) == base
  {
  }

  lemma NotPanicked(limit: nat, t: State, op: nat, bs: seq<Home>, e: Disk)
    requires Runs(limit, t, Logs(op, bs, e) + [EndOp(op)])
    ensures !t.phase.Panicked?
  {
    hide Exec;
    var es := Logs(op, bs, e) + [EndOp(op)];
    assert es[0] == if bs == [] then EndOp(op) else LogBlock(op, bs[0], e[bs[0]]);
  }

  /** An operation that logs every block it has changed, with its last contents, is file work,
      if it changed the blocks as file operations do. */
  lemma OperationIsFileWork(limit: nat, s: State, bs: seq<Home>, d: Disk, e: Disk, rest: seq<Event>)
    requires s.outstanding == 0 && SameHome(s.mem, d) && Batch(d, e) && LeftToLog(d, e, bs)
    requires Runs(limit, s, [BeginOp] + (Logs(s.next, bs, e) + ([EndOp(s.next)] + rest)))
    requires Runs(limit, s, [BeginOp] + (Logs(s.next, bs, e) + [EndOp(s.next)]))
    requires var t := Final(limit, s, [BeginOp] + (Logs(s.next, bs, e) + [EndOp(s.next)]));
             Runs(limit, t, rest) && FileWork(limit, t, rest, t.mem)
    ensures FileWork(limit, s, [BeginOp] + (Logs(s.next, bs, e) + ([EndOp(s.next)] + rest)), d)
  {
    hide Batch, Runs, Final, FileWork, NextBase;
    var more, last := Logs(s.next, bs, e) + ([EndOp(s.next)] + rest), Logs(s.next, bs, e) + [EndOp(s.next)];
    FirstStep(limit, s, BeginOp, more);
    FirstStep(limit, s, BeginOp, last);
    LogsAreFileWork(limit, Exec(limit, s, BeginOp), s.next, bs, d, e, rest);
    SameBase(BeginOp, Exec(limit, s, BeginOp), d);
    FirstWork(limit, s, BeginOp, more, d);
  }

  // ------------------------------------------------------------------ from a new image on

  /** A disk right after it is mounted for the first time. */
  function Mounted(d: Disk): State {
    State(d, d, [], 0, false, Running, map[], 0, [], [])
  }

  /** Starting with what the image builder makes, block ownership survives every crash. */
  lemma FromTheImageOn(limit: nat, f: Fs, es: seq<Event>)
    requires Sound(f) && Synced(f) && HeaderOk(f.d) && HeaderOf(f.d[LOG_START]) == []
    requires Runs(limit, Mounted(f.d), es) && Careful((d: Disk) => DiskSound(d), limit, Mounted(f.d), es, f.d)
    ensures var s := Final(limit, Mounted(f.d), es); HeaderOk(s.disk) && DiskSound(Recovered(s.disk))
  {
    hide DiskSound, Careful, Runs, Owned, Synced, HeaderOf, HeaderOk;
    SyncedIsSound(f);
    OwnershipSurvives(limit, Mounted(f.d), es);
  }

  /** So it does without any assumption on what the operations keep, if they are file
      operations. */
  lemma FileWorkSurvives(limit: nat, f: Fs, es: seq<Event>)
    requires Sound(f) && Synced(f) && HeaderOk(f.d) && HeaderOf(f.d[LOG_START]) == []
    requires Runs(limit, Mounted(f.d), es) && FileWork(limit, Mounted(f.d), es, f.d)
    ensures var s := Final(limit, Mounted(f.d), es); HeaderOk(s.disk) && DiskSound(Recovered(s.disk))
  {
    hide DiskSound, Careful, Runs, Owned, Synced, HeaderOf, HeaderOk, FileWork;
    FileWorkIsCareful(limit, Mounted(f.d), es, f.d);
    FromTheImageOn(limit, f, es);
  }
}
