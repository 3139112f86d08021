/** What every run of the scheduling machine keeps. */
module SchedulingSafety {
  import opened Basics
  import opened Scheduling

  // ------------------------------------------------------------------ who holds which lock

  /** The process lock that a process thread holds at a program point. */
  predicate HoldsLock(p: nat, pc: Pc, q: nat) {
    match pc
    case YieldHeld => q == p
    case Switching(_) => q == p
    case Saved(_) => q == p
    case Resumed(_) => q == p
    case SleepDone(_) => q == p
    case SleepBoth(_) => q == p
    case SleepSet(_) => q == p
    case ExitHeld => q == p
    case ScanHeld(_, i) => q == i
    case ScanDrop(_, i) => q == i
    case OtherHeld(_, r) => q == r
    case OtherDrop(r, _) => q == r
    case _ => false
  }

  /** The inner lock of a sleep lock that a process thread holds at a program point. */
  predicate HoldsInner(pc: Pc, l: nat) {
    match pc
    case Check(k) => l == k
    case Leave(k) => l == k
    case SleepLock(k) => l == k
    case SleepBoth(k) => l == k
    case RelHeld(k) => l == k
    case Scan(k, _) => l == k
    case ScanHeld(k, _) => l == k
    case ScanDrop(k, _) => l == k
    case _ => false
  }

  predicate CpuHoldsLock(s: State, c: nat, q: nat)
    requires c < |s.cpus|
  {
    var x := s.cpus[c];
    if x.cur == None then !x.pc.Pick? && x.pc.i == q
    else x.cur.value < |s.procs| && HoldsLock(x.cur.value, s.procs[x.cur.value].pc, q)
  }

  predicate CpuHoldsInner(s: State, c: nat, l: nat)
    requires c < |s.cpus|
  {
    var x := s.cpus[c];
    x.cur.Some? && x.cur.value < |s.procs| && HoldsInner(s.procs[x.cur.value].pc, l)
  }

  /** A lock names exactly the CPU whose thread is at a point where it holds the lock. */
  ghost predicate ProcLocks(s: State) {
    forall q, c: nat | 0 <= q < |s.procs| ::
      s.procs[q].lock == Some(c) <==> c < |s.cpus| && CpuHoldsLock(s, c, q)
  }

  ghost predicate InnerLocks(s: State) {
    forall l, c: nat | 0 <= l < |s.locks| ::
      s.locks[l].inner == Some(c) <==> c < |s.cpus| && CpuHoldsInner(s, c, l)
  }

  // ------------------------------------------------------------------ where processes are

  ghost predicate CpuOk(s: State, c: nat)
    requires c < |s.cpus|
  {
    var x := s.cpus[c];
    && x.pc.i < |s.procs|
    && match x.cur
       case Some(p) => p < |s.procs| && x.pc == Back(p) && x.proc == Some(p) && s.procs[p].at == On(c)
       case None =>
         && x.proc == (if x.pc.Load? || x.pc.Back? then Some(x.pc.i) else None)
         && (x.pc.Load? ==> s.procs[x.pc.i].at == Loading(c))
  }

  /** The status that goes with giving up the CPU. */
  predicate StatusFor(x: Proc, k: Resume) {
    match k
    case Plain => x.status == Runnable
    case AfterSleep(l) => x.status == Sleeping && x.chan == Some(l)
    case Dead => x.status == Zombie
  }

  ghost predicate ProcOk(s: State, p: nat)
    requires p < |s.procs|
  {
    var x := s.procs[p];
    && PcInRange(s, p, x.pc)
    && match x.at
       case On(c) =>
         && c < |s.cpus| && s.cpus[c].cur == Some(p) && x.pc != Resumed(Dead)
         && (x.saved <==> x.pc.Saved?)
         && if x.pc.Switching? || x.pc.Saved? then StatusFor(x, x.pc.k) else x.status == Running
       case Loading(c) =>
         && c < |s.cpus| && s.cpus[c].cur == None && s.cpus[c].pc == Load(p)
         && x.status == Running && x.saved && x.pc.Resumed? && x.pc != Resumed(Dead)
       case Off =>
         && x.status != Running
         && (x.status != Unused ==> x.saved && x.pc.Resumed?)
         && (x.status == Sleeping ==> x.pc.k.AfterSleep? && x.chan == Some(x.pc.k.l))
         && (x.status == Used ==> x.pc == Resumed(Plain))
         && (x.pc == Resumed(Dead) ==> x.status == Zombie || x.status == Unused)
  }

  // ------------------------------------------------------------------ spawning

  /** The process that a thread is setting up. */
  function SpawnsFor(pc: Pc): Option<nat> {
    match pc
    case OtherDrop(q, ready) => if ready then Some(q) else None
    case OtherLock(deed, q) => if deed == Ready then Some(q) else None
    case OtherHeld(deed, q) => if deed == Ready then Some(q) else None
    case _ => None
  }

  predicate Spawning(x: Proc, q: nat) {
    x.at.On? && SpawnsFor(x.pc) == Some(q)
  }

  /** A process that is being set up stays as it is until its parent makes it runnable. */
  ghost predicate Spawns(s: State) {
    && (forall p, q | 0 <= p < |s.procs| && 0 <= q < |s.procs| && Spawning(s.procs[p], q) :: s.procs[q].status == Used)
    && (forall p, r, q | 0 <= p < |s.procs| && 0 <= r < |s.procs| ::
          Spawning(s.procs[p], q) && Spawning(s.procs[r], q) ==> p == r)
  }

  // ------------------------------------------------------------------ sleep locks

  ghost predicate Holders(s: State) {
    && (forall l | 0 <= l < |s.locks| :: s.locks[l].locked <==> s.locks[l].holder.Some?)
    && (forall p | 0 <= p < |s.procs| && s.procs[p].at.On? :: InsideOk(s, p, s.procs[p].pc))
  }

  /** A thread holds the sleep lock that it has just taken and the one that it releases; one
      that exits holds none. */
  predicate InsideOk(s: State, p: nat, pc: Pc) {
    match pc
    case Leave(l) => Has(s, p, l)
    case RelLock(l) => Has(s, p, l)
    case RelHeld(l) => Has(s, p, l)
    case ExitLock => HasNone(s, p)
    case ExitHeld => HasNone(s, p)
    case _ => true
  }

  lemma InsideSame(s: State, n: State, p: nat, pc: Pc)
    requires |n.locks| == |s.locks| && forall l: nat | l < |s.locks| :: Has(n, p, l) <==> Has(s, p, l)
    ensures InsideOk(n, p, pc) <==> InsideOk(s, p, pc)
  {
    if HasNone(s, p) || HasNone(n, p) {
      assert forall l: nat | l < |s.locks| && Has(n, p, l) :: Has(s, p, l);
    }
  }

  /** No sleep lock changes hands. */
  lemma HoldersKept(s: State, n: State)
    requires Holders(s) && |n.procs| == |s.procs| && |n.locks| == |s.locks|
    requires forall l | 0 <= l < |s.locks| ::
      n.locks[l].locked == s.locks[l].locked && n.locks[l].holder == s.locks[l].holder
    requires forall p: nat | p < |s.procs| && n.procs[p].at.On? ::
      (s.procs[p].at.On? && n.procs[p].pc == s.procs[p].pc) || InsideOk(s, p, n.procs[p].pc)
    ensures Holders(n)
  {
    hide InsideOk;
    forall p: nat | p < |s.procs| && n.procs[p].at.On? ensures InsideOk(n, p, n.procs[p].pc) {
      InsideSame(s, n, p, n.procs[p].pc);
    }
  }

  /** The sleep lock whose waiters a thread is waking. */
  function ScansFor(pc: Pc): Option<nat> {
    match pc
    case Scan(l, _) => Some(l)
    case ScanHeld(l, _) => Some(l)
    case ScanDrop(l, _) => Some(l)
    case _ => None
  }

  predicate Scans(x: Proc, l: nat) {
    x.at.On? && ScansFor(x.pc) == Some(l)
  }

  /** The first process that a scan has not dealt with. */
  function Position(pc: Pc): nat {
    match pc
    case Scan(_, i) => i
    case ScanHeld(_, i) => i
    case ScanDrop(_, i) => i + 1
    case _ => 0
  }

  ghost predicate Scanners(s: State) {
    && (forall l: nat | l < |s.locks| && s.locks[l].scanner.Some? :: s.locks[l].scanner.value < |s.procs|)
    && forall p: nat, l: nat | p < |s.procs| && l < |s.locks| :: s.locks[l].scanner == Some(p) <==> Scans(s.procs[p], l)
  }

  /** The sleep lock that a thread found taken and is about to sleep for. */
  function WaitsFor(pc: Pc): Option<nat> {
    match pc
    case SleepLock(l) => Some(l)
    case SleepBoth(l) => Some(l)
    case SleepSet(l) => Some(l)
    case _ => None
  }

  /** A process that sleeps for a sleep lock, or has found it taken and is about to. */
  predicate Waits(x: Proc, l: nat) {
    || (x.at.On? && WaitsFor(x.pc) == Some(l))
    || (x.status == Sleeping && x.chan == Some(l))
  }

  /** If a sleep lock is free while a process waits for it, then a release is under way whose
      scan has not reached that process. */
  ghost predicate Wakeups(s: State) {
    forall p: nat, l: nat | p < |s.procs| && l < |s.locks| && Waits(s.procs[p], l) && !s.locks[l].locked ::
      && s.locks[l].scanner.Some? && s.locks[l].scanner.value < |s.procs|
      && Position(s.procs[s.locks[l].scanner.value].pc) <= p
  }

  ghost predicate Places(s: State) {
    (forall c: nat | c < |s.cpus| :: CpuOk(s, c)) && (forall p: nat | p < |s.procs| :: ProcOk(s, p))
  }

  ghost predicate Inv(s: State) {
    Places(s) && ProcLocks(s) && InnerLocks(s) && Spawns(s) && Holders(s) && Scanners(s) && Wakeups(s)
  }

  lemma InitIsSafe(s: State)
    requires Init(s)
    ensures Inv(s)
  {
    assert Places(s);
  }

  // ------------------------------------------------------------------ what the invariant means

  /** A running process whose lock is free is the process of exactly one CPU. */
  lemma RunningIsOnOneCpu(s: State, p: nat)
    requires Inv(s) && p < |s.procs| && s.procs[p].status == Running && s.procs[p].lock == None
    ensures exists c: nat :: c < |s.cpus| && s.cpus[c].proc == Some(p)
                             && forall d: nat | d < |s.cpus| && s.cpus[d].proc == Some(p) :: d == c
  {
    assert ProcOk(s, p);
    hide Spawns, Holders, Scanners, Wakeups, InnerLocks;
    forall c: nat | c < |s.cpus| && s.cpus[c].cur == None ensures s.cpus[c].proc != Some(p) {
      assert CpuOk(s, c);
      assert !CpuHoldsLock(s, c, p);
    }
    var c := s.procs[p].at.c;
    assert CpuOk(s, c);
    forall d: nat | d < |s.cpus| && s.cpus[d].proc == Some(p) ensures d == c {
      assert CpuOk(s, d);
    }
  }

  // ------------------------------------------------------------------ steps of the scheduler

  /** No two CPUs hold the same process lock. */
  lemma OneHolder(s: State, c: nat, d: nat, q: nat)
    requires Inv(s) && c < |s.cpus| && d < |s.cpus| && q < |s.procs|
    requires CpuHoldsLock(s, c, q) && CpuHoldsLock(s, d, q)
    ensures c == d
  {
  }

  /** The scheduler holds the lock of the process it looks at, so that process is not between
      changing its status and leaving its CPU. */
  lemma Looked(s: State, c: nat)
    requires Inv(s) && SchedEnabled(s, c) && !s.cpus[c].pc.Pick?
    ensures var x := s.procs[s.cpus[c].pc.i];
            && x.lock == Some(c)
            && (x.at.On? ==> x.status == Running && !HoldsLock(s.cpus[c].pc.i, x.pc, s.cpus[c].pc.i))
            && (x.at.Loading? ==> s.cpus[c].pc.Load? && x.at.c == c)
  {
    hide Spawns, Holders, Scanners, Wakeups, InnerLocks;
    var i := s.cpus[c].pc.i;
    assert CpuHoldsLock(s, c, i);
    assert ProcOk(s, i);
    var x := s.procs[i];
    if x.at.On? && HoldsLock(i, x.pc, i) {
      OneHolder(s, c, x.at.c, i);
    } else if x.at.Loading? {
      assert CpuHoldsLock(s, x.at.c, i);
      OneHolder(s, c, x.at.c, i);
    }
  }

  lemma SchedCpus(s: State, c: nat, d: nat)
    requires Inv(s) && SchedEnabled(s, c) && d < |s.cpus|
    ensures CpuOk(SchedStep(s, c), d)
  {
    hide Spawns, Holders, Scanners, Wakeups, InnerLocks, ProcLocks;
    if !s.cpus[c].pc.Pick? {
      Looked(s, c);
    }
    assert CpuOk(s, c) && CpuOk(s, d);
    assert ProcOk(s, s.cpus[c].pc.i);
  }

  lemma SchedProcs(s: State, c: nat, p: nat)
    requires Inv(s) && SchedEnabled(s, c) && p < |s.procs|
    ensures ProcOk(SchedStep(s, c), p)
  {
    hide Spawns, Holders, Scanners, Wakeups, InnerLocks, ProcLocks;
    assert CpuOk(s, c) && ProcOk(s, p);
    if s.cpus[c].pc.Pick? {
      SchedPicks(s, c, p);
    } else {
      Looked(s, c);
      SchedLooks(s, c, p);
    }
  }

  lemma SchedPicks(s: State, c: nat, p: nat)
    requires SchedEnabled(s, c) && s.cpus[c].pc.Pick? && CpuOk(s, c) && p < |s.procs| && ProcOk(s, p)
    ensures ProcOk(SchedStep(s, c), p)
  {
    hide HoldsLock;
  }

  lemma SchedLooks(s: State, c: nat, p: nat)
    requires SchedEnabled(s, c) && !s.cpus[c].pc.Pick? && CpuOk(s, c) && p < |s.procs| && ProcOk(s, p)
    requires var x := s.procs[s.cpus[c].pc.i];
             (x.at.On? ==> x.status == Running) && (x.at.Loading? ==> s.cpus[c].pc.Load? && x.at.c == c)
    ensures ProcOk(SchedStep(s, c), p)
  {
    hide HoldsLock;
    if p == s.cpus[c].pc.i {
    } else {
      assert SchedStep(s, c).procs[p] == s.procs[p];
    }
  }

  lemma SchedPlaces(s: State, c: nat)
    requires Inv(s) && SchedEnabled(s, c)
    ensures Places(SchedStep(s, c))
  {
    hide Inv, CpuOk, ProcOk;
    var n := SchedStep(s, c);
    forall d: nat | d < |s.cpus| ensures CpuOk(n, d) {
      SchedCpus(s, c, d);
    }
    forall p: nat | p < |s.procs| ensures ProcOk(n, p) {
      SchedProcs(s, c, p);
    }
  }

  lemma SchedLocks(s: State, c: nat)
    requires Inv(s) && SchedEnabled(s, c)
    ensures ProcLocks(SchedStep(s, c))
  {
    hide Spawns, Holders, Scanners, Wakeups, InnerLocks;
    var n, i := SchedStep(s, c), s.cpus[c].pc.i;
    forall q: nat, d: nat | q < |s.procs|
      ensures n.procs[q].lock == Some(d) <==> d < |s.cpus| && CpuHoldsLock(n, d, q)
    {
      assert s.procs[q].lock == Some(d) <==> d < |s.cpus| && CpuHoldsLock(s, d, q);
      assert s.procs[q].lock == Some(c) <==> CpuHoldsLock(s, c, q);
      assert CpuOk(s, c) && ProcOk(s, i);
      assert d < |s.cpus| ==> CpuOk(s, d);
    }
  }

  lemma SchedInner(s: State, c: nat)
    requires Inv(s) && SchedEnabled(s, c)
    ensures InnerLocks(SchedStep(s, c))
  {
    hide Spawns, Holders, Scanners, Wakeups, ProcLocks;
    assert CpuOk(s, c);
    var n, i := SchedStep(s, c), s.cpus[c].pc.i;
    assert ProcOk(s, i);
    forall l, d: nat | 0 <= l < |s.locks|
      ensures n.locks[l].inner == Some(d) <==> d < |s.cpus| && CpuHoldsInner(n, d, l)
    {
      assert s.locks[l].inner == Some(d) <==> d < |s.cpus| && CpuHoldsInner(s, d, l);
    }
  }

  /** What scheduler threads do to processes, seen from the sleep locks. */
  predicate Mild(x: Proc, y: Proc) {
    && y.pc == x.pc && y.chan == x.chan
    && (y.status == x.status || (x.status == Runnable && y.status == Running))
    && (y.at.On? ==> x.at.On? || y.pc.Resumed?) && (x.at.On? ==> y.at.On?)
  }

  ghost predicate MildStep(s: State, n: State) {
    n.locks == s.locks && |n.procs| == |s.procs| && forall p | 0 <= p < |s.procs| :: Mild(s.procs[p], n.procs[p])
  }

  lemma SchedMild(s: State, c: nat)
    requires Inv(s) && SchedEnabled(s, c)
    ensures MildStep(s, SchedStep(s, c))
  {
    hide InnerLocks, ProcLocks, Spawns, Holders, Scanners, Wakeups;
    if !s.cpus[c].pc.Pick? {
      Looked(s, c);
    }
    assert CpuOk(s, c);
    assert ProcOk(s, s.cpus[c].pc.i);
  }

  lemma MildSpawns(s: State, n: State)
    requires MildStep(s, n) && Spawns(s)
    ensures Spawns(n)
  {
    assert forall p, q | 0 <= p < |s.procs| && Spawning(n.procs[p], q) :: Spawning(s.procs[p], q);
    hide Spawning;
  }

  lemma MildSleep(s: State, n: State)
    requires MildStep(s, n) && Holders(s) && Scanners(s) && Wakeups(s)
    ensures Holders(n) && Scanners(n) && Wakeups(n)
  {
    HoldersKept(s, n);
    hide Holders;
    forall p: nat, l: nat | p < |s.procs| ensures Scans(n.procs[p], l) <==> Scans(s.procs[p], l) {
      assert Mild(s.procs[p], n.procs[p]);
    }
    forall p: nat, l: nat | p < |s.procs| && Waits(n.procs[p], l) ensures Waits(s.procs[p], l) {
      assert Mild(s.procs[p], n.procs[p]);
    }
    hide Scans, Waits;
  }

  lemma SchedKeeps(s: State, c: nat)
    requires Inv(s) && SchedEnabled(s, c)
    ensures Inv(SchedStep(s, c))
  {
    hide Places, InnerLocks, ProcLocks, Spawns, Holders, Scanners, Wakeups, SchedStep;
    SchedPlaces(s, c);
    SchedLocks(s, c);
    SchedInner(s, c);
    SchedMild(s, c);
    MildSpawns(s, SchedStep(s, c));
    MildSleep(s, SchedStep(s, c));
  }

  // ------------------------------------------------------------------ steps of processes

  /** Nothing but the lock of a process changes. */
  predicate SameButLock(x: Proc, y: Proc) {
    y == x.(lock := y.lock)
  }

  predicate SameButInner(x: SleepLocked, y: SleepLocked) {
    y == x.(inner := y.inner)
  }

  /** Program points that mean the same for the invariant, locks aside. */
  predicate Alike(x: Pc, y: Pc) {
    && !x.Switching? && !x.Saved? && !y.Switching? && !y.Saved? && !y.Resumed?
    && WaitsFor(x) == WaitsFor(y) && ScansFor(x) == ScansFor(y) && SpawnsFor(x) == SpawnsFor(y)
    && (ScansFor(x).Some? ==> Position(x) == Position(y))
  }

  /** Thread p went on; nothing changed but locks. */
  ghost predicate TurnStep(s: State, n: State, p: nat) {
    && n.cpus == s.cpus && |n.procs| == |s.procs| && |n.locks| == |s.locks| && p < |s.procs|
    && (forall q | 0 <= q < |s.procs| && q != p :: SameButLock(s.procs[q], n.procs[q]))
    && (forall l | 0 <= l < |s.locks| :: SameButInner(s.locks[l], n.locks[l]))
    && n.procs[p] == s.procs[p].(lock := n.procs[p].lock, pc := n.procs[p].pc)
    && Alike(s.procs[p].pc, n.procs[p].pc) && PcInRange(n, p, n.procs[p].pc) && InsideOk(s, p, n.procs[p].pc)
  }

  /** A thread that runs is where its CPU says. */
  lemma Here(s: State, c: nat)
    requires Inv(s) && c < |s.cpus| && s.cpus[c].cur.Some?
    ensures var p := s.cpus[c].cur.value;
            && p < |s.procs| && s.procs[p].at == On(c) && ProcOk(s, p) && InsideOk(s, p, s.procs[p].pc)
  {
    hide Spawns, Scanners, Wakeups, InnerLocks, ProcLocks;
    assert CpuOk(s, c);
    assert ProcOk(s, s.cpus[c].cur.value);
  }

  lemma TurnPlaces(s: State, n: State, p: nat)
    requires Places(s) && TurnStep(s, n, p) && s.procs[p].at.On?
    ensures Places(n)
  {
    forall d: nat | d < |s.cpus| ensures CpuOk(n, d) {
      assert CpuOk(s, d);
    }
    forall q: nat | q < |s.procs| ensures ProcOk(n, q) {
      assert ProcOk(s, q);
    }
  }

  lemma TurnAlike(s: State, n: State, p: nat, q: nat, k: nat)
    requires TurnStep(s, n, p) && s.procs[p].at.On? && q < |s.procs|
    ensures Spawning(n.procs[q], k) <==> Spawning(s.procs[q], k)
    ensures Scans(n.procs[q], k) <==> Scans(s.procs[q], k)
    ensures Scans(n.procs[q], k) ==> Position(n.procs[q].pc) == Position(s.procs[q].pc)
    ensures Waits(n.procs[q], k) <==> Waits(s.procs[q], k)
    ensures n.procs[q].status == s.procs[q].status && n.procs[q].at == s.procs[q].at
  {
  }

  lemma TurnSpawns(s: State, n: State, p: nat)
    requires Spawns(s) && TurnStep(s, n, p) && s.procs[p].at.On?
    ensures Spawns(n)
  {
    hide Spawning, Alike, PcInRange;
    forall q: nat, k: nat | q < |s.procs|
      ensures (Spawning(n.procs[q], k) <==> Spawning(s.procs[q], k)) && n.procs[q].status == s.procs[q].status
    {
      TurnAlike(s, n, p, q, k);
    }
  }

  lemma TurnSleep(s: State, n: State, p: nat)
    requires Holders(s) && Scanners(s) && Wakeups(s) && TurnStep(s, n, p) && s.procs[p].at.On?
    ensures Holders(n) && Scanners(n) && Wakeups(n)
  {
    HoldersKept(s, n);
    hide Scans, Waits, Holders;
    forall q: nat, l: nat | q < |s.procs|
      ensures (Scans(n.procs[q], l) <==> Scans(s.procs[q], l)) && (Waits(n.procs[q], l) <==> Waits(s.procs[q], l))
           && (Scans(n.procs[q], l) ==> Position(n.procs[q].pc) == Position(s.procs[q].pc))
    {
      TurnAlike(s, n, p, q, l);
    }
    hide Alike, PcInRange, Position;
  }

  // ------------------------------------------------------------------ locks in process steps

  /** Every other thread that runs stays where it is. */
  ghost predicate OthersStay(s: State, n: State, p: nat) {
    && n.cpus == s.cpus && |n.procs| == |s.procs| && |n.locks| == |s.locks| && p < |s.procs|
    && forall q | 0 <= q < |s.procs| && q != p && s.procs[q].at.On? :: n.procs[q].pc == s.procs[q].pc
  }

  /** A thread takes and gives back process locks in step with its program point. */
  ghost predicate LocksFollow(s: State, n: State, c: nat, p: nat, taken: Option<nat>, given: Option<nat>)
    requires |n.procs| == |s.procs| && p < |s.procs|
  {
    && (forall q: nat | q < |s.procs| ::
          n.procs[q].lock == if taken == Some(q) then Some(c) else if given == Some(q) then None else s.procs[q].lock)
    && (forall q: nat | q < |s.procs| && taken == Some(q) :: s.procs[q].lock == None)
    && (forall q: nat | q < |s.procs| ::
          HoldsLock(p, n.procs[p].pc, q) <==> taken == Some(q) || (HoldsLock(p, s.procs[p].pc, q) && given != Some(q)))
    && (given.Some? ==> HoldsLock(p, s.procs[p].pc, given.value))
  }

  lemma LocksKept(s: State, n: State, c: nat, p: nat, taken: Option<nat>, given: Option<nat>)
    requires Places(s) && ProcLocks(s) && OthersStay(s, n, p) && c < |s.cpus| && s.cpus[c].cur == Some(p)
    requires LocksFollow(s, n, c, p, taken, given)
    ensures ProcLocks(n)
  {
    hide HoldsLock;
    forall q: nat, d: nat | q < |s.procs|
      ensures n.procs[q].lock == Some(d) <==> d < |s.cpus| && CpuHoldsLock(n, d, q)
    {
      assert s.procs[q].lock == Some(d) <==> d < |s.cpus| && CpuHoldsLock(s, d, q);
      assert d < |s.cpus| ==> CpuOk(s, d);
      assert CpuOk(s, c);
      assert s.procs[q].lock == Some(c) <==> CpuHoldsLock(s, c, q);
    }
  }

  ghost predicate InnersFollow(s: State, n: State, c: nat, p: nat, taken: Option<nat>, given: Option<nat>)
    requires |n.procs| == |s.procs| && p < |s.procs| && |n.locks| == |s.locks|
  {
    && (forall l: nat | l < |s.locks| ::
          n.locks[l].inner == if taken == Some(l) then Some(c) else if given == Some(l) then None else s.locks[l].inner)
    && (forall l: nat | l < |s.locks| && taken == Some(l) :: s.locks[l].inner == None)
    && (forall l: nat | l < |s.locks| ::
          HoldsInner(n.procs[p].pc, l) <==> taken == Some(l) || (HoldsInner(s.procs[p].pc, l) && given != Some(l)))
    && (given.Some? ==> HoldsInner(s.procs[p].pc, given.value))
  }

  lemma InnersKept(s: State, n: State, c: nat, p: nat, taken: Option<nat>, given: Option<nat>)
    requires Places(s) && InnerLocks(s) && OthersStay(s, n, p) && c < |s.cpus| && s.cpus[c].cur == Some(p)
    requires InnersFollow(s, n, c, p, taken, given)
    ensures InnerLocks(n)
  {
    hide HoldsInner;
    forall l: nat, d: nat | l < |s.locks|
      ensures n.locks[l].inner == Some(d) <==> d < |s.cpus| && CpuHoldsInner(n, d, l)
    {
      assert s.locks[l].inner == Some(d) <==> d < |s.cpus| && CpuHoldsInner(s, d, l);
      assert d < |s.cpus| ==> CpuOk(s, d);
      assert CpuOk(s, c);
      assert s.locks[l].inner == Some(c) <==> CpuHoldsInner(s, c, l);
    }
  }


  // ------------------------------------------------------------------ the kinds of process steps

  /** A program point follows another one when the locks named are taken and given back. */
  ghost predicate Moves(p: nat, x: Pc, y: Pc, taken: Option<nat>, given: Option<nat>, enters: Option<nat>,
                        leaves: Option<nat>) {
    && (forall q: nat :: HoldsLock(p, y, q) <==> taken == Some(q) || (HoldsLock(p, x, q) && given != Some(q)))
    && (forall l: nat :: HoldsInner(y, l) <==> enters == Some(l) || (HoldsInner(x, l) && leaves != Some(l)))
    && (given.Some? ==> HoldsLock(p, x, given.value)) && (leaves.Some? ==> HoldsInner(x, leaves.value))
  }

  /** What a thread may be followed by when nothing but locks changes. */
  ghost predicate Follows(s: State, p: nat, y: Pc)
    requires p < |s.procs|
  {
    Alike(s.procs[p].pc, y) && PcInRange(s, p, y) && InsideOk(s, p, y)
  }

  lemma TurnKeeps(s: State, n: State, c: nat, p: nat, taken: Option<nat>, given: Option<nat>, enters: Option<nat>,
                  leaves: Option<nat>)
    requires Inv(s) && c < |s.cpus| && s.cpus[c].cur == Some(p) && TurnStep(s, n, p)
    requires LocksFollow(s, n, c, p, taken, given) && InnersFollow(s, n, c, p, enters, leaves)
    ensures Inv(n)
  {
    hide Places, InnerLocks, ProcLocks, Spawns, Holders, Scanners, Wakeups, LocksFollow, InnersFollow;
    Here(s, c);
    assert OthersStay(s, n, p);
    hide TurnStep, OthersStay;
    TurnPlaces(s, n, p);
    TurnSpawns(s, n, p);
    TurnSleep(s, n, p);
    LocksKept(s, n, c, p, taken, given);
    InnersKept(s, n, c, p, enters, leaves);
  }

  lemma LockTurn(s: State, c: nat, p: nat, q: nat, y: Pc)
    requires Inv(s) && c < |s.cpus| && s.cpus[c].cur == Some(p) && p < |s.procs| && q < |s.procs|
    requires s.procs[q].lock == None
    requires Follows(s, p, y) && Moves(p, s.procs[p].pc, y, Some(q), None, None, None)
    ensures Inv(SetPc(SetLock(s, q, Some(c)), p, y))
  {
    hide Inv, HoldsLock, HoldsInner, Alike;
    TurnKeeps(s, SetPc(SetLock(s, q, Some(c)), p, y), c, p, Some(q), None, None, None);
  }

  lemma UnlockTurn(s: State, c: nat, p: nat, q: nat, y: Pc)
    requires Inv(s) && c < |s.cpus| && s.cpus[c].cur == Some(p) && p < |s.procs| && q < |s.procs|
    requires Follows(s, p, y) && Moves(p, s.procs[p].pc, y, None, Some(q), None, None)
    ensures Inv(SetPc(SetLock(s, q, None), p, y))
  {
    hide Inv, HoldsLock, HoldsInner, Alike;
    TurnKeeps(s, SetPc(SetLock(s, q, None), p, y), c, p, None, Some(q), None, None);
  }

  lemma InnerTurn(s: State, c: nat, p: nat, l: nat, y: Pc)
    requires Inv(s) && c < |s.cpus| && s.cpus[c].cur == Some(p) && p < |s.procs| && l < |s.locks|
    requires s.locks[l].inner == None
    requires Follows(s, p, y) && Moves(p, s.procs[p].pc, y, None, None, Some(l), None)
    ensures Inv(SetPc(SetInner(s, l, Some(c)), p, y))
  {
    hide Inv, HoldsLock, HoldsInner, Alike, InsideOk;
    TurnKeeps(s, SetPc(SetInner(s, l, Some(c)), p, y), c, p, None, None, Some(l), None);
  }

  lemma OuterTurn(s: State, c: nat, p: nat, l: nat, y: Pc)
    requires Inv(s) && c < |s.cpus| && s.cpus[c].cur == Some(p) && p < |s.procs| && l < |s.locks|
    requires Follows(s, p, y) && Moves(p, s.procs[p].pc, y, None, None, None, Some(l))
    ensures Inv(SetPc(SetInner(s, l, None), p, y))
  {
    hide Inv, HoldsLock, HoldsInner, Alike, InsideOk;
    TurnKeeps(s, SetPc(SetInner(s, l, None), p, y), c, p, None, None, None, Some(l));
  }

  lemma PlainTurn(s: State, c: nat, p: nat, y: Pc)
    requires Inv(s) && c < |s.cpus| && s.cpus[c].cur == Some(p) && p < |s.procs|
    requires Follows(s, p, y) && Moves(p, s.procs[p].pc, y, None, None, None, None)
    ensures Inv(SetPc(s, p, y))
  {
    hide Inv, HoldsLock, HoldsInner, Alike, InsideOk;
    TurnKeeps(s, SetPc(s, p, y), c, p, None, None, None, None);
  }

  // ------------------------------------------------------------------ a thread changes its own record

  /** A thread works on its own record, under its own lock where that matters. */
  ghost predicate OwnChange(s: State, p: nat, y: Proc)
    requires p < |s.procs|
  {
    var x := s.procs[p];
    && y.lock == x.lock && y.at == x.at && x.status != Used && y.status != Used
    && (forall q: nat :: HoldsLock(p, x.pc, q) <==> HoldsLock(p, y.pc, q))
    && (forall l: nat :: HoldsInner(x.pc, l) <==> HoldsInner(y.pc, l))
    && ScansFor(x.pc) == ScansFor(y.pc) == None && SpawnsFor(x.pc) == SpawnsFor(y.pc) == None
    && (forall l: nat :: Waits(x, l) <==> Waits(y, l)) && InsideOk(s, p, y.pc)
  }

  lemma OwnPlaces(s: State, p: nat, y: Proc)
    requires Places(s) && p < |s.procs| && y.at == s.procs[p].at && ProcOk(SetProc(s, p, y), p)
    ensures Places(SetProc(s, p, y))
  {
    var n := SetProc(s, p, y);
    forall d: nat | d < |s.cpus| ensures CpuOk(n, d) {
      assert CpuOk(s, d);
    }
    forall q: nat | q < |s.procs| && q != p ensures ProcOk(n, q) {
      assert ProcOk(s, q);
    }
  }

  lemma OwnSpawns(s: State, p: nat, y: Proc)
    requires Spawns(s) && p < |s.procs| && OwnChange(s, p, y)
    ensures Spawns(SetProc(s, p, y))
  {
  }

  lemma OwnSleep(s: State, p: nat, y: Proc)
    requires Holders(s) && Scanners(s) && Wakeups(s) && p < |s.procs| && OwnChange(s, p, y)
    ensures var n := SetProc(s, p, y); Holders(n) && Scanners(n) && Wakeups(n)
  {
    HoldersKept(s, SetProc(s, p, y));
    hide HoldsLock, HoldsInner, Waits, Holders;
  }

  lemma OwnKeeps(s: State, c: nat, p: nat, y: Proc)
    requires Inv(s) && c < |s.cpus| && s.cpus[c].cur == Some(p) && p < |s.procs|
    requires OwnChange(s, p, y) && ProcOk(SetProc(s, p, y), p)
    ensures Inv(SetProc(s, p, y))
  {
    hide Places, InnerLocks, ProcLocks, Spawns, Holders, Scanners, Wakeups, ProcOk, HoldsLock, HoldsInner;
    var n := SetProc(s, p, y);
    OwnPlaces(s, p, y);
    OwnSpawns(s, p, y);
    OwnSleep(s, p, y);
    LocksKept(s, n, c, p, None, None);
    InnersKept(s, n, c, p, None, None);
  }

  /** A thread leaves its CPU: the scheduler thread now holds the lock of the process. */
  function Left(s: State, c: nat, p: nat): State
    requires c < |s.cpus| && p < |s.procs| && s.procs[p].pc.Saved?
  {
    SetCpu(SetProc(s, p, s.procs[p].(pc := Resumed(s.procs[p].pc.k), at := Off)), c, s.cpus[c].(cur := None))
  }

  lemma LeftPlaces(s: State, c: nat, p: nat)
    requires Inv(s) && c < |s.cpus| && s.cpus[c].cur == Some(p) && p < |s.procs| && s.procs[p].pc.Saved?
    ensures Places(Left(s, c, p))
  {
    hide InnerLocks, ProcLocks, Spawns, Holders, Scanners, Wakeups;
    var n := Left(s, c, p);
    Here(s, c);
    forall d: nat | d < |s.cpus| ensures CpuOk(n, d) {
      assert CpuOk(s, d);
    }
    forall q: nat | q < |s.procs| ensures ProcOk(n, q) {
      assert ProcOk(s, q);
    }
  }

  lemma LeftLocks(s: State, c: nat, p: nat)
    requires Inv(s) && c < |s.cpus| && s.cpus[c].cur == Some(p) && p < |s.procs| && s.procs[p].pc.Saved?
    ensures ProcLocks(Left(s, c, p)) && InnerLocks(Left(s, c, p))
  {
    hide Spawns, Holders, Scanners, Wakeups;
    var n := Left(s, c, p);
    assert CpuOk(s, c);
    forall q: nat, d: nat | q < |s.procs|
      ensures n.procs[q].lock == Some(d) <==> d < |s.cpus| && CpuHoldsLock(n, d, q)
    {
      assert s.procs[q].lock == Some(d) <==> d < |s.cpus| && CpuHoldsLock(s, d, q);
      assert d < |s.cpus| ==> CpuOk(s, d);
    }
    forall l: nat, d: nat | l < |s.locks|
      ensures n.locks[l].inner == Some(d) <==> d < |s.cpus| && CpuHoldsInner(n, d, l)
    {
      assert s.locks[l].inner == Some(d) <==> d < |s.cpus| && CpuHoldsInner(s, d, l);
      assert d < |s.cpus| ==> CpuOk(s, d);
    }
  }

  lemma LeftSleep(s: State, c: nat, p: nat)
    requires Inv(s) && c < |s.cpus| && s.cpus[c].cur == Some(p) && p < |s.procs| && s.procs[p].pc.Saved?
    ensures var n := Left(s, c, p); Spawns(n) && Holders(n) && Scanners(n) && Wakeups(n)
  {
    hide Places, InnerLocks, ProcLocks;
    var n := Left(s, c, p);
    assert forall l: nat :: Waits(n.procs[p], l) <==> Waits(s.procs[p], l);
    assert Spawns(n);
    HoldersKept(s, n);
    hide Spawns, Spawning, Holders;
  }

  lemma LeftKeeps(s: State, c: nat, p: nat)
    requires Inv(s) && c < |s.cpus| && s.cpus[c].cur == Some(p) && p < |s.procs| && s.procs[p].pc.Saved?
    ensures Inv(Left(s, c, p))
  {
    hide Places, InnerLocks, ProcLocks, Spawns, Holders, Scanners, Wakeups, Left;
    LeftPlaces(s, c, p);
    LeftLocks(s, c, p);
    LeftSleep(s, c, p);
  }

  // ------------------------------------------------------------------ a thread changes a sleep lock

  /** Two threads that run are not both inside the inner lock of a sleep lock. */
  lemma OneInside(s: State, p: nat, r: nat, l: nat)
    requires Inv(s) && p < |s.procs| && r < |s.procs| && l < |s.locks| && s.procs[p].at.On? && s.procs[r].at.On?
    requires HoldsInner(s.procs[p].pc, l) && HoldsInner(s.procs[r].pc, l)
    ensures p == r
  {
    hide Spawns, Holders, Scanners, Wakeups, ProcLocks;
    assert ProcOk(s, p) && ProcOk(s, r);
    assert CpuHoldsInner(s, s.procs[p].at.c, l) && CpuHoldsInner(s, s.procs[r].at.c, l);
  }

  /** While a thread is inside the inner lock, no other one scans the waiters. */
  lemma NoScanner(s: State, p: nat, l: nat)
    requires Inv(s) && p < |s.procs| && l < |s.locks| && s.procs[p].at.On? && HoldsInner(s.procs[p].pc, l)
    requires ScansFor(s.procs[p].pc) == None
    ensures s.locks[l].scanner == None
  {
    hide Spawns, Holders, Wakeups, ProcLocks, InnerLocks, Places;
    if s.locks[l].scanner.Some? {
      var r := s.locks[l].scanner.value;
      assert Scans(s.procs[r], l);
      OneInside(s, p, r, l);
    }
  }

  /** The sleep lock and the record of the thread on CPU c change; no spin lock does. */
  function SetBoth(s: State, l: nat, z: SleepLocked, p: nat, y: Proc): State
    requires l < |s.locks| && p < |s.procs|
  {
    SetProc(s.(locks := s.locks[l := z]), p, y)
  }

  lemma BothPlaces(s: State, l: nat, z: SleepLocked, p: nat, y: Proc)
    requires Places(s) && l < |s.locks| && p < |s.procs| && y.at == s.procs[p].at && ProcOk(SetProc(s, p, y), p)
    ensures Places(SetBoth(s, l, z, p, y))
  {
    var n := SetBoth(s, l, z, p, y);
    forall d: nat | d < |s.cpus| ensures CpuOk(n, d) {
      assert CpuOk(s, d);
    }
    assert ProcOk(n, p);
    forall q: nat | q < |s.procs| && q != p ensures ProcOk(n, q) {
      assert ProcOk(s, q);
    }
  }

  lemma BothSpawns(s: State, l: nat, z: SleepLocked, p: nat, y: Proc)
    requires Spawns(s) && l < |s.locks| && p < |s.procs| && y.at == s.procs[p].at && y.status == s.procs[p].status
    requires SpawnsFor(y.pc) == None
    ensures Spawns(SetBoth(s, l, z, p, y))
  {
  }

  // acquiring

  function Got(s: State, p: nat, l: nat): State
    requires p < |s.procs| && l < |s.locks|
  {
    SetBoth(s, l, s.locks[l].(locked := true, holder := Some(p)), p, s.procs[p].(pc := Leave(l)))
  }

  lemma GotHolders(s: State, p: nat, l: nat)
    requires Holders(s) && p < |s.procs| && l < |s.locks| && !s.locks[l].locked
    ensures Holders(Got(s, p, l))
  {
    var n := Got(s, p, l);
    assert InsideOk(n, p, Leave(l));
    hide InsideOk;
    forall q: nat | q < |s.procs| && q != p && n.procs[q].at.On? ensures InsideOk(n, q, n.procs[q].pc) {
      InsideSame(s, n, q, n.procs[q].pc);
    }
  }

  lemma GotSleep(s: State, c: nat, p: nat, l: nat)
    requires Inv(s) && c < |s.cpus| && s.cpus[c].cur == Some(p) && p < |s.procs| && l < |s.locks|
    requires s.procs[p].pc == Check(l) && !s.locks[l].locked
    ensures var n := Got(s, p, l); Holders(n) && Scanners(n) && Wakeups(n)
  {
    hide Places, InnerLocks, ProcLocks, Spawns;
    Here(s, c);
    var n := Got(s, p, l);
    GotHolders(s, p, l);
    hide Holders, InsideOk;
    assert Scanners(n);
    assert forall k: nat :: !Waits(n.procs[p], k);
    hide Scans, Waits;
  }

  lemma GotKeeps(s: State, c: nat, p: nat, l: nat)
    requires Inv(s) && c < |s.cpus| && s.cpus[c].cur == Some(p) && p < |s.procs| && l < |s.locks|
    requires s.procs[p].pc == Check(l) && !s.locks[l].locked
    ensures Inv(Got(s, p, l))
  {
    hide Places, InnerLocks, ProcLocks, Spawns, Holders, Scanners, Wakeups;
    Here(s, c);
    GotSleep(s, c, p, l);
    var n := Got(s, p, l);
    BothPlaces(s, l, n.locks[l], p, n.procs[p]);
    BothSpawns(s, l, n.locks[l], p, n.procs[p]);
    LocksKept(s, n, c, p, None, None);
    InnersKept(s, n, c, p, None, None);
  }

  // releasing

  function Freed(s: State, p: nat, l: nat): State
    requires p < |s.procs| && l < |s.locks|
  {
    SetBoth(s, l, s.locks[l].(locked := false, holder := None, scanner := Some(p)), p,
            s.procs[p].(pc := Scan(l, 0)))
  }

  lemma FreedHolders(s: State, c: nat, p: nat, l: nat)
    requires Inv(s) && c < |s.cpus| && s.cpus[c].cur == Some(p) && p < |s.procs| && l < |s.locks|
    requires s.procs[p].pc == RelHeld(l)
    ensures Holders(Freed(s, p, l))
  {
    hide Places, InnerLocks, ProcLocks, Spawns, Scanners, Wakeups;
    Here(s, c);
    var n := Freed(s, p, l);
    assert Has(s, p, l) && InsideOk(n, p, Scan(l, 0));
    hide InsideOk;
    forall q: nat | q < |s.procs| && q != p && n.procs[q].at.On? ensures InsideOk(n, q, n.procs[q].pc) {
      InsideSame(s, n, q, n.procs[q].pc);
    }
  }

  lemma FreedSleep(s: State, c: nat, p: nat, l: nat)
    requires Inv(s) && c < |s.cpus| && s.cpus[c].cur == Some(p) && p < |s.procs| && l < |s.locks|
    requires s.procs[p].pc == RelHeld(l)
    ensures var n := Freed(s, p, l); Scanners(n) && Wakeups(n)
  {
    hide Places, InnerLocks, ProcLocks, Spawns, Holders;
    Here(s, c);
    NoScanner(s, p, l);
    var n := Freed(s, p, l);
    assert forall k: nat :: !Waits(n.procs[p], k);
    assert forall k: nat :: Scans(n.procs[p], k) <==> k == l;
    assert forall k: nat :: !Scans(s.procs[p], k);
    hide Scans, Waits;
  }

  lemma FreedKeeps(s: State, c: nat, p: nat, l: nat)
    requires Inv(s) && c < |s.cpus| && s.cpus[c].cur == Some(p) && p < |s.procs| && l < |s.locks|
    requires s.procs[p].pc == RelHeld(l)
    ensures Inv(Freed(s, p, l))
  {
    hide Places, InnerLocks, ProcLocks, Spawns, Holders, Scanners, Wakeups;
    Here(s, c);
    FreedHolders(s, c, p, l);
    FreedSleep(s, c, p, l);
    var n := Freed(s, p, l);
    BothPlaces(s, l, n.locks[l], p, n.procs[p]);
    BothSpawns(s, l, n.locks[l], p, n.procs[p]);
    LocksKept(s, n, c, p, None, None);
    InnersKept(s, n, c, p, None, None);
  }

  // the end of a scan

  function Swept(s: State, p: nat, l: nat): State
    requires p < |s.procs| && l < |s.locks|
  {
    SetBoth(s, l, s.locks[l].(inner := None, scanner := None), p, s.procs[p].(pc := User))
  }

  lemma SweptSleep(s: State, c: nat, p: nat, l: nat)
    requires Inv(s) && c < |s.cpus| && s.cpus[c].cur == Some(p) && p < |s.procs| && l < |s.locks|
    requires s.procs[p].pc == Scan(l, |s.procs|)
    ensures var n := Swept(s, p, l); Holders(n) && Scanners(n) && Wakeups(n)
  {
    hide Places, InnerLocks, ProcLocks, Spawns;
    Here(s, c);
    var n := Swept(s, p, l);
    assert Scans(s.procs[p], l);
    HoldersKept(s, n);
    hide Holders;
    assert forall k: nat :: !Waits(n.procs[p], k) && !Scans(n.procs[p], k) && (Scans(s.procs[p], k) <==> k == l);
    hide Scans, Waits;
  }

  lemma SweptKeeps(s: State, c: nat, p: nat, l: nat)
    requires Inv(s) && c < |s.cpus| && s.cpus[c].cur == Some(p) && p < |s.procs| && l < |s.locks|
    requires s.procs[p].pc == Scan(l, |s.procs|)
    ensures Inv(Swept(s, p, l))
  {
    hide Places, InnerLocks, ProcLocks, Spawns, Holders, Scanners, Wakeups;
    Here(s, c);
    SweptSleep(s, c, p, l);
    var n := Swept(s, p, l);
    BothPlaces(s, l, n.locks[l], p, n.procs[p]);
    BothSpawns(s, l, n.locks[l], p, n.procs[p]);
    LocksKept(s, n, c, p, None, None);
    InnersKept(s, n, c, p, None, Some(l));
  }

  // the scan passes over the scanning process itself

  lemma SkipKeeps(s: State, c: nat, p: nat, l: nat)
    requires Inv(s) && c < |s.cpus| && s.cpus[c].cur == Some(p) && p < |s.procs| && l < |s.locks|
    requires s.procs[p].pc == Scan(l, p)
    ensures Inv(SetPc(s, p, Scan(l, p + 1)))
  {
    hide InnerLocks, ProcLocks, Spawns, Holders, Scanners, Wakeups, Places;
    Here(s, c);
    var n := SetPc(s, p, Scan(l, p + 1));
    assert ProcOk(n, p);
    OwnPlaces(s, p, n.procs[p]);
    SkipSleep(s, p, l);
    hide ProcOk;
    LocksKept(s, n, c, p, None, None);
    InnersKept(s, n, c, p, None, None);
  }

  lemma SkipSleep(s: State, p: nat, l: nat)
    requires Spawns(s) && Holders(s) && Scanners(s) && Wakeups(s) && p < |s.procs| && l < |s.locks|
    requires s.procs[p].pc == Scan(l, p) && s.procs[p].at.On? && s.procs[p].status == Running
    ensures var n := SetPc(s, p, Scan(l, p + 1)); Spawns(n) && Holders(n) && Scanners(n) && Wakeups(n)
  {
    var n := SetPc(s, p, Scan(l, p + 1));
    PcSpawns(s, p, Scan(l, p + 1));
    PcHolders(s, p, Scan(l, p + 1));
    hide Spawns, Holders;
    assert Scans(s.procs[p], l);
    assert forall k: nat :: !Waits(n.procs[p], k) && (Scans(n.procs[p], k) <==> Scans(s.procs[p], k));
    hide Waits, Scans;
  }

  lemma PcSpawns(s: State, p: nat, y: Pc)
    requires Spawns(s) && p < |s.procs| && SpawnsFor(y) == None
    ensures Spawns(SetPc(s, p, y))
  {
  }

  lemma PcHolders(s: State, p: nat, y: Pc)
    requires Holders(s) && p < |s.procs| && InsideOk(s, p, y)
    ensures Holders(SetPc(s, p, y))
  {
    HoldersKept(s, SetPc(s, p, y));
  }

  // ------------------------------------------------------------------ a thread changes another process

  /** A process whose lock another CPU holds is not between changing its status and leaving
      its own CPU, and nobody is loading it. */
  lemma Frozen(s: State, c: nat, p: nat, q: nat)
    requires Inv(s) && c < |s.cpus| && s.cpus[c].cur == Some(p) && p < |s.procs| && q < |s.procs| && q != p
    requires HoldsLock(p, s.procs[p].pc, q)
    ensures ProcOk(s, q) && !s.procs[q].at.Loading?
    ensures s.procs[q].at.On? ==> s.procs[q].status == Running && !HoldsLock(q, s.procs[q].pc, q)
  {
    hide InnerLocks, Spawns, Holders, Scanners, Wakeups;
    assert CpuHoldsLock(s, c, q);
    assert ProcOk(s, q);
    var x := s.procs[q];
    if x.at.On? && HoldsLock(q, x.pc, q) {
      OneHolder(s, c, x.at.c, q);
    } else if x.at.Loading? {
      assert CpuHoldsLock(s, x.at.c, q);
      OneHolder(s, c, x.at.c, q);
    }
  }

  /** Thread p goes on and changes process q, whose lock it holds. */
  function SetOther(s: State, q: nat, z: Proc, p: nat, y: Pc): State
    requires q < |s.procs| && p < |s.procs|
  {
    SetPc(SetProc(s, q, z), p, y)
  }

  lemma OtherPlaces(s: State, q: nat, z: Proc, p: nat, y: Pc)
    requires Places(s) && q < |s.procs| && p < |s.procs| && q != p && z.at == s.procs[q].at
    requires ProcOk(SetProc(s, q, z), q) && ProcOk(SetPc(s, p, y), p)
    ensures Places(SetOther(s, q, z, p, y))
  {
    hide Places;
    OwnPlaces(s, q, z);
    var t := SetProc(s, q, z);
    assert ProcOk(SetPc(t, p, y), p);
    OwnPlaces(t, p, t.procs[p].(pc := y));
  }

  /** What may happen to another process: it keeps its lock and its sleep locks; it is not
      made to wait, and if it runs its thread stays where it is. */
  predicate Gentle(x: Proc, z: Proc) {
    && z.lock == x.lock && z.at == x.at
    && (x.at.On? ==> z.pc == x.pc) && (z.status == Sleeping ==> x.status == Sleeping && z.chan == x.chan)
  }

  lemma OtherLocks(s: State, c: nat, q: nat, z: Proc, p: nat, y: Pc)
    requires Inv(s) && c < |s.cpus| && s.cpus[c].cur == Some(p) && p < |s.procs| && q < |s.procs| && q != p
    requires Gentle(s.procs[q], z) && Moves(p, s.procs[p].pc, y, None, None, None, None)
    ensures ProcLocks(SetOther(s, q, z, p, y)) && InnerLocks(SetOther(s, q, z, p, y))
  {
    hide Places, InnerLocks, ProcLocks, Spawns, Holders, Scanners, Wakeups, HoldsLock, HoldsInner;
    var n := SetOther(s, q, z, p, y);
    LocksKept(s, n, c, p, None, None);
    InnersKept(s, n, c, p, None, None);
  }

  lemma OtherSleep(s: State, q: nat, z: Proc, p: nat, y: Pc)
    requires Holders(s) && Scanners(s) && p < |s.procs| && q < |s.procs| && q != p && s.procs[p].at.On?
    requires Gentle(s.procs[q], z) && ScansFor(y) == ScansFor(s.procs[p].pc) && InsideOk(s, p, y)
    ensures Holders(SetOther(s, q, z, p, y)) && Scanners(SetOther(s, q, z, p, y))
  {
    var n := SetOther(s, q, z, p, y);
    HoldersKept(s, n);
    hide Holders, InsideOk;
    assert forall k: nat ::
        (Scans(n.procs[p], k) <==> Scans(s.procs[p], k)) && (Scans(n.procs[q], k) <==> Scans(s.procs[q], k));
    hide Scans;
  }

  // a scan wakes a waiter

  function Woken(x: Proc, l: nat): Proc {
    if x.status == Sleeping && x.chan == Some(l) then x.(status := Runnable) else x
  }

  lemma WokenWaits(s: State, c: nat, p: nat, l: nat, i: nat)
    requires Inv(s) && c < |s.cpus| && s.cpus[c].cur == Some(p) && p < |s.procs| && s.procs[p].pc == ScanHeld(l, i)
    requires i < |s.procs| && i != p && l < |s.locks|
    ensures !Waits(Woken(s.procs[i], l), l)
    ensures forall k: nat :: Waits(Woken(s.procs[i], l), k) ==> Waits(s.procs[i], k)
  {
    hide InnerLocks, ProcLocks, Spawns, Holders, Scanners, Wakeups, Places;
    Here(s, c);
    Frozen(s, c, p, i);
    if s.procs[i].at.On? && WaitsFor(s.procs[i].pc) == Some(l) && !s.procs[i].pc.SleepSet? {
      OneInside(s, p, i, l);
    }
  }

  lemma WokenWakeups(s: State, c: nat, p: nat, l: nat, i: nat)
    requires Inv(s) && c < |s.cpus| && s.cpus[c].cur == Some(p) && p < |s.procs| && s.procs[p].pc == ScanHeld(l, i)
    requires i < |s.procs| && i != p && l < |s.locks|
    ensures Wakeups(SetOther(s, i, Woken(s.procs[i], l), p, ScanDrop(l, i)))
  {
    hide InnerLocks, ProcLocks, Spawns, Holders, Places;
    Here(s, c);
    WokenWaits(s, c, p, l, i);
    var n := SetOther(s, i, Woken(s.procs[i], l), p, ScanDrop(l, i));
    assert Scans(s.procs[p], l);
    assert forall k: nat :: !Waits(n.procs[p], k);
    assert forall k: nat | k < |s.locks| && s.locks[k].scanner == Some(p) :: k == l by {
      assert forall k: nat | k < |s.locks| :: s.locks[k].scanner == Some(p) ==> Scans(s.procs[p], k);
    }
    hide Waits, Scans, Woken;
    assert forall r: nat | r < |s.procs| && r != p && r != i :: n.procs[r] == s.procs[r];
    assert n.procs[i].pc == s.procs[i].pc by { assert Woken(s.procs[i], l).pc == s.procs[i].pc; }
  }

  lemma WokenSpawns(s: State, p: nat, l: nat, i: nat)
    requires Spawns(s) && p < |s.procs| && i < |s.procs| && i != p && s.procs[p].pc == ScanHeld(l, i)
    ensures Spawns(SetOther(s, i, Woken(s.procs[i], l), p, ScanDrop(l, i)))
  {
  }

  lemma WokenKeeps(s: State, c: nat, p: nat, l: nat, i: nat)
    requires Inv(s) && c < |s.cpus| && s.cpus[c].cur == Some(p) && p < |s.procs| && s.procs[p].pc == ScanHeld(l, i)
    requires i < |s.procs| && i != p && l < |s.locks|
    ensures Inv(SetOther(s, i, Woken(s.procs[i], l), p, ScanDrop(l, i)))
  {
    hide Places, InnerLocks, ProcLocks, Spawns, Holders, Scanners, Wakeups;
    Here(s, c);
    Frozen(s, c, p, i);
    var z, y := Woken(s.procs[i], l), ScanDrop(l, i);
    OtherPlaces(s, i, z, p, y);
    hide ProcOk;
    OtherLocks(s, c, i, z, p, y);
    OtherSleep(s, i, z, p, y);
    WokenSpawns(s, p, l, i);
    WokenWakeups(s, c, p, l, i);
  }

  // kill, wait and fork

  /** What the deed's thread knows about the other process. Only a process that has left its
      CPU is reaped. */
  lemma DeedIsGentle(s: State, c: nat, p: nat, deed: Deed, q: nat)
    requires Inv(s) && c < |s.cpus| && s.cpus[c].cur == Some(p) && p < |s.procs| && s.procs[p].pc == OtherHeld(deed, q)
    requires q < |s.procs| && q != p
    ensures Gentle(s.procs[q], Done(s.procs[q], deed)) && ProcOk(SetProc(s, q, Done(s.procs[q], deed)), q)
    ensures deed == Reap && s.procs[q].status == Zombie ==> s.procs[q].at == Off
    ensures deed == Ready ==> s.procs[q].status == Used
    ensures s.procs[q].at.On? ==> Done(s.procs[q], deed).pc == s.procs[q].pc
    ensures Done(s.procs[q], deed).at == s.procs[q].at
  {
    hide Places, InnerLocks, ProcLocks, Holders, Scanners, Wakeups;
    Here(s, c);
    Frozen(s, c, p, q);
    if deed == Ready {
      assert Spawning(s.procs[p], q);
    }
  }

  lemma DeedSpawns(s: State, c: nat, p: nat, deed: Deed, q: nat)
    requires Inv(s) && c < |s.cpus| && s.cpus[c].cur == Some(p) && p < |s.procs| && s.procs[p].pc == OtherHeld(deed, q)
    requires q < |s.procs| && q != p
    ensures var ready := deed == Spawn && s.procs[q].status == Unused;
            Spawns(SetOther(s, q, Done(s.procs[q], deed), p, OtherDrop(q, ready)))
  {
    hide Places, InnerLocks, ProcLocks, Holders, Scanners, Wakeups, ProcOk, Gentle;
    Here(s, c);
    DeedIsGentle(s, c, p, deed, q);
    var ready := deed == Spawn && s.procs[q].status == Unused;
    var n := SetOther(s, q, Done(s.procs[q], deed), p, OtherDrop(q, ready));
    assert deed == Ready ==> Spawning(s.procs[p], q);
    assert forall r: nat, k: nat | r < |s.procs| ::
        Spawning(n.procs[r], k) <==> if r == p then ready && k == q else Spawning(s.procs[r], k);
    hide Spawning, SpawnsFor;
  }

  lemma DeedWakeups(s: State, c: nat, p: nat, deed: Deed, q: nat)
    requires Inv(s) && c < |s.cpus| && s.cpus[c].cur == Some(p) && p < |s.procs| && s.procs[p].pc == OtherHeld(deed, q)
    requires q < |s.procs| && q != p
    ensures var ready := deed == Spawn && s.procs[q].status == Unused;
            Wakeups(SetOther(s, q, Done(s.procs[q], deed), p, OtherDrop(q, ready)))
  {
    hide Places, InnerLocks, ProcLocks, Holders, Spawns;
    Here(s, c);
    DeedIsGentle(s, c, p, deed, q);
    var n := SetOther(s, q, Done(s.procs[q], deed), p, OtherDrop(q, deed == Spawn && s.procs[q].status == Unused));
    assert forall k: nat :: !Waits(n.procs[p], k) && (Waits(n.procs[q], k) ==> Waits(s.procs[q], k));
    assert forall k: nat :: !Scans(s.procs[p], k) && (Scans(s.procs[q], k) ==> n.procs[q].pc == s.procs[q].pc);
    hide Waits, Scans, Done, ProcOk;
  }

  lemma DeedKeeps(s: State, c: nat, p: nat, deed: Deed, q: nat)
    requires Inv(s) && c < |s.cpus| && s.cpus[c].cur == Some(p) && p < |s.procs| && s.procs[p].pc == OtherHeld(deed, q)
    requires q < |s.procs| && q != p
    ensures Inv(SetOther(s, q, Done(s.procs[q], deed), p, OtherDrop(q, deed == Spawn && s.procs[q].status == Unused)))
  {
    hide Places, InnerLocks, ProcLocks, Spawns, Holders, Scanners, Wakeups, Done;
    Here(s, c);
    DeedIsGentle(s, c, p, deed, q);
    var z, y := Done(s.procs[q], deed), OtherDrop(q, deed == Spawn && s.procs[q].status == Unused);
    OtherPlaces(s, q, z, p, y);
    hide ProcOk;
    OtherLocks(s, c, q, z, p, y);
    OtherSleep(s, q, z, p, y);
    DeedSpawns(s, c, p, deed, q);
    DeedWakeups(s, c, p, deed, q);
  }

  // ------------------------------------------------------------------ all steps

  lemma LockStepKeeps(s: State, c: nat, start: Pc)
    requires Inv(s) && ProcEnabled(s, c, start)
    requires Acquires(s.cpus[c].cur.value, s.procs[s.cpus[c].cur.value].pc, |s.procs|).Some?
    ensures Inv(ProcStep(s, c, start))
  {
    hide Inv;
    Here(s, c);
    var p := s.cpus[c].cur.value;
    match s.procs[p].pc
    case YieldLock => LockTurn(s, c, p, p, YieldHeld);
    case SleepLock(l) => LockTurn(s, c, p, p, SleepBoth(l));
    case ExitLock => LockTurn(s, c, p, p, ExitHeld);
    case OtherLock(deed, q) => LockTurn(s, c, p, q, OtherHeld(deed, q));
    case Scan(l, i) => LockTurn(s, c, p, i, ScanHeld(l, i));
  }

  predicate Unlocks(pc: Pc) {
    pc.SleepDone? || pc == Resumed(Plain) || pc.ScanDrop? || pc.OtherDrop?
  }

  lemma UnlockStepKeeps(s: State, c: nat, start: Pc)
    requires Inv(s) && ProcEnabled(s, c, start) && Unlocks(s.procs[s.cpus[c].cur.value].pc)
    ensures Inv(ProcStep(s, c, start))
  {
    hide Inv;
    Here(s, c);
    var p := s.cpus[c].cur.value;
    match s.procs[p].pc
    case SleepDone(l) => UnlockTurn(s, c, p, p, WantInner(l));
    case Resumed(_) => UnlockTurn(s, c, p, p, User);
    case ScanDrop(l, i) => UnlockTurn(s, c, p, i, Scan(l, i + 1));
    case OtherDrop(q, ready) => UnlockTurn(s, c, p, q, if ready then OtherLock(Ready, q) else User);
  }

  predicate Inners(pc: Pc) {
    pc.User? || pc.WantInner? || pc.RelLock? || pc.Leave? || pc.SleepBoth? || pc.Check?
  }

  lemma InnerStepKeeps(s: State, c: nat, start: Pc)
    requires Inv(s) && ProcEnabled(s, c, start) && Inners(s.procs[s.cpus[c].cur.value].pc)
    ensures Inv(ProcStep(s, c, start))
  {
    hide Inv;
    Here(s, c);
    var p := s.cpus[c].cur.value;
    match s.procs[p].pc
    case User => StartKeeps(s, c, p, start);
    case WantInner(l) => InnerTurn(s, c, p, l, Check(l));
    case RelLock(l) => InnerTurn(s, c, p, l, RelHeld(l));
    case Leave(l) => OuterTurn(s, c, p, l, User);
    case SleepBoth(l) => OuterTurn(s, c, p, l, SleepSet(l));
    case Check(l) =>
      if s.locks[l].locked {
        TakenKeeps(s, c, p, l);
      } else {
        GotKeeps(s, c, p, l);
      }
  }

  lemma StartKeeps(s: State, c: nat, p: nat, start: Pc)
    requires Inv(s) && c < |s.cpus| && s.cpus[c].cur == Some(p) && p < |s.procs| && s.procs[p].pc == User
    requires MayStart(s, p, start)
    ensures Inv(SetPc(s, p, start))
  {
    hide Inv;
    PlainTurn(s, c, p, start);
  }

  /** A thread that finds the sleep lock taken starts to wait; the lock is still taken, since
      the thread is inside the inner lock. */
  lemma TakenKeeps(s: State, c: nat, p: nat, l: nat)
    requires Inv(s) && c < |s.cpus| && s.cpus[c].cur == Some(p) && p < |s.procs| && l < |s.locks|
    requires s.procs[p].pc == Check(l) && s.locks[l].locked
    ensures Inv(SetPc(s, p, SleepLock(l)))
  {
    hide Places, InnerLocks, ProcLocks;
    Here(s, c);
    var n := SetPc(s, p, SleepLock(l));
    assert ProcOk(n, p);
    OwnPlaces(s, p, n.procs[p]);
    hide ProcOk;
    LocksKept(s, n, c, p, None, None);
    InnersKept(s, n, c, p, None, None);
    TakenSleep(s, p, l);
    hide Spawns, Holders, Scanners, Wakeups;
  }

  lemma TakenSleep(s: State, p: nat, l: nat)
    requires Spawns(s) && Holders(s) && Scanners(s) && Wakeups(s) && p < |s.procs| && l < |s.locks|
    requires s.procs[p].pc == Check(l) && s.locks[l].locked && s.procs[p].at.On? && s.procs[p].status == Running
    ensures var n := SetPc(s, p, SleepLock(l)); Spawns(n) && Holders(n) && Scanners(n) && Wakeups(n)
  {
    var n := SetPc(s, p, SleepLock(l));
    PcSpawns(s, p, SleepLock(l));
    PcHolders(s, p, SleepLock(l));
    hide Spawns, Holders;
    assert forall k: nat :: (Waits(n.procs[p], k) <==> k == l) && !Scans(n.procs[p], k) && !Scans(s.procs[p], k);
    hide Waits, Scans;
  }

  predicate Owns(pc: Pc) {
    pc.YieldHeld? || pc.Switching? || pc.Saved? || (pc.Resumed? && pc.k.AfterSleep?) || pc.SleepSet? || pc.ExitHeld?
  }

  lemma OwnStepKeeps(s: State, c: nat, start: Pc)
    requires Inv(s) && ProcEnabled(s, c, start) && Owns(s.procs[s.cpus[c].cur.value].pc)
    ensures Inv(ProcStep(s, c, start))
  {
    hide Inv;
    Here(s, c);
    var p := s.cpus[c].cur.value;
    var x := s.procs[p];
    match x.pc
    case YieldHeld => OwnKeeps(s, c, p, x.(status := Runnable, pc := Switching(Plain)));
    case Switching(k) => OwnKeeps(s, c, p, x.(saved := true, pc := Saved(k)));
    case Saved(k) => LeftKeeps(s, c, p);
    case Resumed(k) => OwnKeeps(s, c, p, x.(chan := None, pc := SleepDone(k.l)));
    case SleepSet(l) => OwnKeeps(s, c, p, x.(chan := Some(l), status := Sleeping, pc := Switching(AfterSleep(l))));
    case ExitHeld => OwnKeeps(s, c, p, x.(status := Zombie, pc := Switching(Dead)));
  }

  lemma SharedStepKeeps(s: State, c: nat, start: Pc)
    requires Inv(s) && ProcEnabled(s, c, start)
    requires var p := s.cpus[c].cur.value;
             var pc := s.procs[p].pc;
             pc.RelHeld? || pc.ScanHeld? || pc.OtherHeld? || (pc.Scan? && (pc.i == |s.procs| || pc.i == p))
    ensures Inv(ProcStep(s, c, start))
  {
    hide Inv;
    Here(s, c);
    var p := s.cpus[c].cur.value;
    match s.procs[p].pc
    case RelHeld(l) => FreedKeeps(s, c, p, l);
    case Scan(l, i) =>
      if i == p {
        SkipKeeps(s, c, p, l);
      } else {
        SweptKeeps(s, c, p, l);
      }
    case ScanHeld(l, i) => WokenKeeps(s, c, p, l, i);
    case OtherHeld(deed, q) =>
      if q == p {
        PlainTurn(s, c, p, OtherDrop(p, false));
        assert Done(s.procs[p], deed) == s.procs[p];
        assert s.procs[p := s.procs[p]] == s.procs;
      } else {
        DeedKeeps(s, c, p, deed, q);
      }
  }

  lemma ProcKeeps(s: State, c: nat, start: Pc)
    requires Inv(s) && ProcEnabled(s, c, start)
    ensures Inv(ProcStep(s, c, start))
  {
    hide Inv, ProcStep;
    var p := s.cpus[c].cur.value;
    var pc := s.procs[p].pc;
    if Acquires(p, pc, |s.procs|).Some? {
      LockStepKeeps(s, c, start);
    } else if Unlocks(pc) {
      UnlockStepKeeps(s, c, start);
    } else if Inners(pc) {
      InnerStepKeeps(s, c, start);
    } else if Owns(pc) {
      OwnStepKeeps(s, c, start);
    } else {
      SharedStepKeeps(s, c, start);
    }
  }

  /** The invariant holds at the end of every run. */
  lemma {:induction false} RunKeeps(s: State, es: seq<Event>)
    requires Inv(s) && Runs(s, es)
    ensures Inv(Final(s, es))
    decreases |es|
  {
    if es != [] {
      hide Inv, SchedStep, ProcStep;
      if SchedEnabled(s, es[0].c) {
        SchedKeeps(s, es[0].c);
      } else {
        ProcKeeps(s, es[0].c, es[0].start);
      }
      RunKeeps(Step(s, es[0]), es[1..]);
    }
  }

  // ------------------------------------------------------------------ the promises

  /** A CPU that is about to resume a process finds its context complete, and no CPU executes
      that process. */
  lemma ResumesCompleteContext(s: State, c: nat)
    requires Inv(s) && c < |s.cpus| && s.cpus[c].cur == None && s.cpus[c].pc.Load?
    ensures var p := s.cpus[c].pc.i;
            && p < |s.procs| && s.procs[p].saved && s.procs[p].pc != Resumed(Dead)
            && forall d: nat | d < |s.cpus| :: s.cpus[d].cur != Some(p)
  {
    hide InnerLocks, ProcLocks, Spawns, Holders, Scanners, Wakeups;
    assert CpuOk(s, c);
    var p := s.cpus[c].pc.i;
    assert ProcOk(s, p);
    forall d: nat | d < |s.cpus| ensures s.cpus[d].cur != Some(p) {
      assert CpuOk(s, d);
    }
  }

  /** A zombie is only freed when no CPU executes it. */
  lemma ReapsOffCpu(s: State, c: nat, p: nat, q: nat)
    requires Inv(s) && c < |s.cpus| && s.cpus[c].cur == Some(p) && p < |s.procs| && s.procs[p].pc == OtherHeld(Reap, q)
    requires q < |s.procs| && s.procs[q].status == Zombie
    ensures forall d: nat | d < |s.cpus| :: s.cpus[d].cur != Some(q)
  {
    hide InnerLocks, ProcLocks, Spawns, Holders, Scanners, Wakeups;
    Here(s, c);
    if q != p {
      DeedIsGentle(s, c, p, Reap, q);
    }
    forall d: nat | d < |s.cpus| ensures s.cpus[d].cur != Some(q) {
      assert CpuOk(s, d);
    }
  }

  // ------------------------------------------------------------------ sleep locks over a run

  /** Which process has acquired which sleep lock and not released it, as the events of a run tell:
      a process enters when it returns from acquiring and leaves when it calls for the release. */
  function Noted(s: State, e: Event, entered: set<(nat, nat)>): set<(nat, nat)>
    requires Enabled(s, e)
  {
    if SchedEnabled(s, e.c) then entered
    else
      var p := s.cpus[e.c].cur.value;
      match s.procs[p].pc
      case Leave(l) => entered + {(p, l)}
      case User => if e.start.RelLock? then entered - {(p, e.start.l)} else entered
      case _ => entered
  }

  ghost function Entered(s: State, es: seq<Event>, entered: set<(nat, nat)>): set<(nat, nat)>
    requires Runs(s, es)
    decreases |es|
  {
    if es == [] then entered else Entered(Step(s, es[0]), es[1..], Noted(s, es[0], entered))
  }

  /** Every process that has entered holds the lock and has not begun to release it. */
  ghost predicate EnteredOk(s: State, entered: set<(nat, nat)>) {
    forall p, l | (p, l) in entered ::
      p < |s.procs| && Has(s, p, l) && s.procs[p].pc != RelLock(l) && s.procs[p].pc != RelHeld(l)
  }

  lemma EnteredKeeps(s: State, e: Event, entered: set<(nat, nat)>)
    requires Inv(s) && Enabled(s, e) && EnteredOk(s, entered)
    ensures EnteredOk(Step(s, e), Noted(s, e, entered))
  {
    hide Inv;
    if !SchedEnabled(s, e.c) {
      Here(s, e.c);
      EnteredTurn(s, e.c, e.start, entered);
    }
  }

  lemma EnteredTurn(s: State, c: nat, start: Pc, entered: set<(nat, nat)>)
    requires !SchedEnabled(s, c) && ProcEnabled(s, c, start) && EnteredOk(s, entered)
    requires InsideOk(s, s.cpus[c].cur.value, s.procs[s.cpus[c].cur.value].pc)
    ensures EnteredOk(ProcStep(s, c, start), Noted(s, Event(c, start), entered))
  {
    hide ProcStep, Has;
    var n, r := ProcStep(s, c, start), s.cpus[c].cur.value;
    forall p, l | (p, l) in Noted(s, Event(c, start), entered)
      ensures p < |n.procs| && Has(n, p, l) && n.procs[p].pc != RelLock(l) && n.procs[p].pc != RelHeld(l)
    {
      assert (p, l) in entered || (p == r && s.procs[p].pc == Leave(l));
      TurnHas(s, c, start, p, l);
      TurnPc(s, c, start, p, l);
    }
  }

  /** Only its holder takes a sleep lock away from it. */
  lemma TurnHas(s: State, c: nat, start: Pc, p: nat, l: nat)
    requires ProcEnabled(s, c, start) && Has(s, p, l)
    requires InsideOk(s, s.cpus[c].cur.value, s.procs[s.cpus[c].cur.value].pc)
    requires s.cpus[c].cur == Some(p) ==> s.procs[p].pc != RelHeld(l)
    ensures Has(ProcStep(s, c, start), p, l)
  {
    hide HasNone, MayStart, Done, Acquires;
    var r := s.cpus[c].cur.value;
    if s.procs[r].pc.RelHeld? {
      assert Has(s, r, s.procs[r].pc.l);
    }
  }

  /** Only a call of its own brings a process to the release of a sleep lock. */
  lemma TurnPc(s: State, c: nat, start: Pc, p: nat, l: nat)
    requires ProcEnabled(s, c, start) && p < |s.procs|
    ensures |ProcStep(s, c, start).procs| == |s.procs|
    ensures var x, y := s.procs[p].pc, ProcStep(s, c, start).procs[p].pc;
            && (y == RelLock(l) ==> x == y || (s.cpus[c].cur == Some(p) && x == User && start == y))
            && (y == RelHeld(l) ==> x == y || x == RelLock(l))
  {
    hide Has, HasNone, Acquires;
    if s.cpus[c].cur == Some(p) {
    } else {
    }
  }

  lemma {:induction false} EnteredHas(s: State, es: seq<Event>, entered: set<(nat, nat)>)
    requires Inv(s) && Runs(s, es) && EnteredOk(s, entered)
    ensures EnteredOk(Final(s, es), Entered(s, es, entered))
    decreases |es|
  {
    if es != [] {
      var n := Step(s, es[0]);
      RunKeeps(s, [es[0]]);
      EnteredKeeps(s, es[0], entered);
      EnteredHas(n, es[1..], Noted(s, es[0], entered));
    }
  }

  /** Over every run: a process that has acquired a sleep lock and not released it is the recorded
      holder, so there is at most one, and a process about to return from acquiring already is. */
  lemma MutualExclusion(s: State, es: seq<Event>, p: nat, r: nat, l: nat)
    requires Init(s) && Runs(s, es)
    ensures (p, l) in Entered(s, es, {}) ==> Has(Final(s, es), p, l)
    ensures (p, l) in Entered(s, es, {}) && (r, l) in Entered(s, es, {}) ==> p == r
    ensures p < |Final(s, es).procs| && Final(s, es).procs[p].at.On? && Final(s, es).procs[p].pc == Leave(l) ==>
              Has(Final(s, es), p, l) && (p != r ==> (r, l) !in Entered(s, es, {}))
  {
    hide Places, InnerLocks, ProcLocks, Spawns, Scanners, Wakeups;
    InitIsSafe(s);
    RunKeeps(s, es);
    EnteredHas(s, es, {});
  }

  /** Whenever a sleep lock is free and nobody is inside its inner lock, no process sleeps for
      it or has found it taken and is about to sleep. */
  lemma NoLostWakeup(s: State, p: nat, l: nat)
    requires Inv(s) && p < |s.procs| && l < |s.locks| && s.locks[l].inner == None && !s.locks[l].locked
    ensures !Waits(s.procs[p], l)
  {
    hide Places, InnerLocks, Spawns, Holders, ProcLocks, Scanners, Waits;
    ScannerIsInside(s, l);
  }

  lemma ScannerIsInside(s: State, l: nat)
    requires Inv(s) && l < |s.locks|
    ensures s.locks[l].scanner.Some? ==> s.locks[l].inner.Some?
  {
    hide Spawns, Holders, ProcLocks, Wakeups;
    if s.locks[l].scanner.Some? {
      var r := s.locks[l].scanner.value;
      assert Scans(s.procs[r], l);
      assert ProcOk(s, r);
      assert CpuHoldsInner(s, s.procs[r].at.c, l);
    }
  }

  /** The thread on CPU c is about to free the zombie q. */
  predicate Reaps(t: State, c: nat, q: nat)
    requires c < |t.cpus| && q < |t.procs|
  {
    && t.cpus[c].cur.Some? && t.cpus[c].cur.value < |t.procs|
    && t.procs[t.cpus[c].cur.value].pc == OtherHeld(Reap, q) && t.procs[q].status == Zombie
  }

  /** All promises, in every state that a run can reach. */
  lemma EveryRunIsSafe(s: State, es: seq<Event>)
    requires Init(s) && Runs(s, es)
    ensures var t := Final(s, es);
      && (forall p: nat | p < |t.procs| && t.procs[p].status == Running && t.procs[p].lock == None ::
            exists c: nat ::
              && c < |t.cpus| && t.cpus[c].proc == Some(p)
              && forall d: nat | d < |t.cpus| && t.cpus[d].proc == Some(p) :: d == c)
      && (forall c: nat | c < |t.cpus| && t.cpus[c].cur == None && t.cpus[c].pc.Load? ::
            t.cpus[c].pc.i < |t.procs| && t.procs[t.cpus[c].pc.i].saved)
      && (forall c: nat, q: nat | c < |t.cpus| && q < |t.procs| && Reaps(t, c, q) ::
          forall d: nat | d < |t.cpus| :: t.cpus[d].cur != Some(q))
      && (forall p: nat, r: nat, l: nat | (p, l) in Entered(s, es, {}) && (r, l) in Entered(s, es, {}) ::
            p == r && Has(t, p, l))
      && (forall p: nat, l: nat | p < |t.procs| && l < |t.locks| && t.locks[l].inner == None && !t.locks[l].locked ::
          !Waits(t.procs[p], l))
  {
    hide Inv, Waits;
    InitIsSafe(s);
    RunKeeps(s, es);
    var t := Final(s, es);
    forall p: nat | p < |t.procs| && t.procs[p].status == Running && t.procs[p].lock == None
      ensures exists c: nat ::
                && c < |t.cpus| && t.cpus[c].proc == Some(p)
                && forall d: nat | d < |t.cpus| && t.cpus[d].proc == Some(p) :: d == c
    {
      RunningIsOnOneCpu(t, p);
    }
    forall c: nat | c < |t.cpus| && t.cpus[c].cur == None && t.cpus[c].pc.Load?
      ensures t.cpus[c].pc.i < |t.procs| && t.procs[t.cpus[c].pc.i].saved
    {
      ResumesCompleteContext(t, c);
    }
    forall c: nat, q: nat | c < |t.cpus| && q < |t.procs| && Reaps(t, c, q)
      ensures forall d: nat | d < |t.cpus| :: t.cpus[d].cur != Some(q)
    {
      ReapsOffCpu(t, c, t.cpus[c].cur.value, q);
    }
    forall p: nat, r: nat, l: nat | (p, l) in Entered(s, es, {}) && (r, l) in Entered(s, es, {})
      ensures p == r && Has(t, p, l)
    {
      MutualExclusion(s, es, p, r, l);
    }
    forall p: nat, l: nat | p < |t.procs| && l < |t.locks| && t.locks[l].inner == None && !t.locks[l].locked
      ensures !Waits(t.procs[p], l)
    {
      NoLostWakeup(t, p, l);
    }
  }
}
