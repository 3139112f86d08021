/** Scheduling, sleeping, waking and sleep locks as interleaved steps of any number of CPUs
    and processes. One step touches shared state once: it takes or releases one spin lock, or
    works under the locks its thread holds. A spin lock records the CPU that holds it. */
module Scheduling {
  import opened Basics

  datatype Status = Unused | Used | Runnable | Running | Sleeping | Zombie

  /** What a process does when it is switched in again: go on, go on after sleeping for a
      sleep lock, or nothing, because it has exited. */
  datatype Resume = Plain | AfterSleep(l: nat) | Dead

  /** What a process may do to another one under that one's lock. */
  datatype Deed = Kill | Reap | Spawn | Ready

  /** Where the kernel thread of a process is. */
  datatype Pc =
    | User
    | YieldLock | YieldHeld
    | Switching(k: Resume) | Saved(k: Resume) | Resumed(k: Resume)
    | SleepDone(l: nat) | WantInner(l: nat) | Check(l: nat) | Leave(l: nat)
    | SleepLock(l: nat) | SleepBoth(l: nat) | SleepSet(l: nat)
    | RelLock(l: nat) | RelHeld(l: nat)
    | Scan(l: nat, i: nat) | ScanHeld(l: nat, i: nat) | ScanDrop(l: nat, i: nat)
    | OtherLock(deed: Deed, q: nat) | OtherHeld(deed: Deed, q: nat) | OtherDrop(q: nat, ready: bool)
    | ExitLock | ExitHeld

  /** Where the scheduler thread of a CPU is: about to lock process i, about to look at it,
      to load its context, just switched back to, about to unlock it. */
  datatype SchedPc = Pick(i: nat) | Look(i: nat) | Load(i: nat) | Back(i: nat) | Drop(i: nat)

  /** Where a process executes; an auxiliary variable. */
  datatype Where = Off | Loading(c: nat) | On(c: nat)

  /** `saved` tells whether the context of the process is complete in memory. */
  datatype Proc = Proc(status: Status, lock: Option<nat>, chan: Option<nat>, saved: bool, pc: Pc, at: Where)

  /** `cur` is the process whose thread executes on the CPU, none for the scheduler thread;
      `proc` is the variable of that name. */
  datatype Cpu = Cpu(cur: Option<nat>, proc: Option<nat>, pc: SchedPc)

  /** `scanner` is the process that is waking the waiters of the lock; it is auxiliary. */
  datatype SleepLocked = SleepLocked(inner: Option<nat>, locked: bool, holder: Option<nat>, scanner: Option<nat>)

  datatype State = State(procs: seq<Proc>, cpus: seq<Cpu>, locks: seq<SleepLocked>)

  // ------------------------------------------------------------------ elementary updates

  function SetProc(s: State, p: nat, x: Proc): State
    requires p < |s.procs|
  {
    s.(procs := s.procs[p := x])
  }

  function SetPc(s: State, p: nat, pc: Pc): State
    requires p < |s.procs|
  {
    SetProc(s, p, s.procs[p].(pc := pc))
  }

  function SetLock(s: State, q: nat, holder: Option<nat>): State
    requires q < |s.procs|
  {
    SetProc(s, q, s.procs[q].(lock := holder))
  }

  function SetInner(s: State, l: nat, holder: Option<nat>): State
    requires l < |s.locks|
  {
    s.(locks := s.locks[l := s.locks[l].(inner := holder)])
  }

  function SetCpu(s: State, c: nat, x: Cpu): State
    requires c < |s.cpus|
  {
    s.(cpus := s.cpus[c := x])
  }

  // ------------------------------------------------------------------ the scheduler thread

  predicate SchedEnabled(s: State, c: nat) {
    && c < |s.cpus| && s.cpus[c].cur == None && s.cpus[c].pc.i < |s.procs|
    && (s.cpus[c].pc.Pick? ==> s.procs[s.cpus[c].pc.i].lock == None)
  }

  function SchedStep(s: State, c: nat): State
    requires SchedEnabled(s, c)
  {
    var i, x := s.cpus[c].pc.i, s.cpus[c];
    match x.pc
    case Pick(_) => SetCpu(SetLock(s, i, Some(c)), c, x.(pc := Look(i)))
    case Look(_) =>
      if s.procs[i].status == Runnable then
        SetCpu(SetProc(s, i, s.procs[i].(status := Running, at := Loading(c))), c, x.(proc := Some(i), pc := Load(i)))
      else
        SetCpu(s, c, x.(pc := Drop(i)))
    case Load(_) =>
      SetCpu(SetProc(s, i, s.procs[i].(saved := false, at := On(c))), c, x.(cur := Some(i), pc := Back(i)))
    case Back(_) => SetCpu(s, c, x.(proc := None, pc := Drop(i)))
    case Drop(_) => SetCpu(SetLock(s, i, None), c, x.(pc := Pick((i + 1) % |s.procs|)))
  }

  // ------------------------------------------------------------------ process threads

  /** sleep_lock_holding, for process p. */
  predicate Has(s: State, p: nat, l: nat) {
    l < |s.locks| && s.locks[l].locked && s.locks[l].holder == Some(p)
  }

  predicate HasNone(s: State, p: nat) {
    forall l: nat | l < |s.locks| :: !Has(s, p, l)
  }

  /** What a process in user mode may begin; the kernel checks what is checked here. */
  predicate MayStart(s: State, p: nat, pc: Pc)
    requires p < |s.procs|
  {
    match pc
    case YieldLock => true
    case WantInner(l) => l < |s.locks| && !Has(s, p, l)
    case RelLock(l) => Has(s, p, l)
    case OtherLock(deed, q) => q < |s.procs| && (deed == Kill || ((deed == Reap || deed == Spawn) && q != p))
    case ExitLock => HasNone(s, p)
    case _ => false
  }

  /** The process lock that a step acquires, if any. */
  function Acquires(p: nat, pc: Pc, n: nat): Option<nat> {
    match pc
    case YieldLock => Some(p)
    case SleepLock(_) => Some(p)
    case ExitLock => Some(p)
    case OtherLock(_, q) => Some(q)
    case Scan(_, i) => if i < n && i != p then Some(i) else None
    case _ => None
  }

  predicate PcInRange(s: State, p: nat, pc: Pc) {
    match pc
    case Resumed(k) => k.AfterSleep? ==> k.l < |s.locks|
    case Switching(k) => k.AfterSleep? ==> k.l < |s.locks|
    case Saved(k) => k.AfterSleep? ==> k.l < |s.locks|
    case SleepDone(l) => l < |s.locks|
    case WantInner(l) => l < |s.locks|
    case Check(l) => l < |s.locks|
    case Leave(l) => l < |s.locks|
    case SleepLock(l) => l < |s.locks|
    case SleepBoth(l) => l < |s.locks|
    case SleepSet(l) => l < |s.locks|
    case RelLock(l) => l < |s.locks|
    case RelHeld(l) => l < |s.locks|
    case Scan(l, i) => l < |s.locks| && i <= |s.procs|
    case ScanHeld(l, i) => l < |s.locks| && i < |s.procs| && i != p
    case ScanDrop(l, i) => l < |s.locks| && i < |s.procs| && i != p
    case OtherLock(deed, q) => q < |s.procs| && (deed != Kill ==> q != p)
    case OtherHeld(deed, q) => q < |s.procs| && (deed != Kill ==> q != p)
    case OtherDrop(q, ready) => q < |s.procs| && (ready ==> q != p)
    case _ => true
  }

  predicate ProcEnabled(s: State, c: nat, start: Pc) {
    && c < |s.cpus| && s.cpus[c].cur.Some?
    && var p := s.cpus[c].cur.value;
       && p < |s.procs| && PcInRange(s, p, s.procs[p].pc)
       && var pc := s.procs[p].pc;
          && (pc == User ==> MayStart(s, p, start))
          && pc != Resumed(Dead)
          && (Acquires(p, pc, |s.procs|).Some? ==> s.procs[Acquires(p, pc, |s.procs|).value].lock == None)
          && (pc.WantInner? || pc.RelLock? ==> s.locks[pc.l].inner == None)
  }

  /** What the thread does to another process under that one's lock. */
  function Done(x: Proc, deed: Deed): Proc {
    match deed
    case Kill => if x.status == Sleeping then x.(status := Runnable) else x
    case Reap => if x.status == Zombie then x.(status := Unused, chan := None) else x
    case Spawn =>
      if x.status == Unused then x.(status := Used, saved := true, pc := Resumed(Plain), chan := None) else x
    case Ready => x.(status := Runnable)
  }

  /** One step of the process thread on CPU c. */
  function ProcStep(s: State, c: nat, start: Pc): State
    requires ProcEnabled(s, c, start)
  {
    var p := s.cpus[c].cur.value;
    var x := s.procs[p];
    match x.pc
    case User => SetPc(s, p, start)
    case YieldLock => SetPc(SetLock(s, p, Some(c)), p, YieldHeld)
    case YieldHeld => SetProc(s, p, x.(status := Runnable, pc := Switching(Plain)))
    case Switching(k) => SetProc(s, p, x.(saved := true, pc := Saved(k)))
    case Saved(k) => SetCpu(SetProc(s, p, x.(pc := Resumed(k), at := Off)), c, s.cpus[c].(cur := None))
    case Resumed(k) =>
      if k.AfterSleep? then SetProc(s, p, x.(chan := None, pc := SleepDone(k.l)))
      else SetPc(SetLock(s, p, None), p, User)
    case SleepDone(l) => SetPc(SetLock(s, p, None), p, WantInner(l))
    case WantInner(l) => SetPc(SetInner(s, l, Some(c)), p, Check(l))
    case Check(l) =>
      if s.locks[l].locked then SetPc(s, p, SleepLock(l))
      else
        SetProc(s.(locks := s.locks[l := s.locks[l].(locked := true, holder := Some(p))]), p,
                x.(pc := Leave(l)))
    case Leave(l) => SetPc(SetInner(s, l, None), p, User)
    case SleepLock(l) => SetPc(SetLock(s, p, Some(c)), p, SleepBoth(l))
    case SleepBoth(l) => SetPc(SetInner(s, l, None), p, SleepSet(l))
    case SleepSet(l) => SetProc(s, p, x.(chan := Some(l), status := Sleeping, pc := Switching(AfterSleep(l))))
    case RelLock(l) => SetPc(SetInner(s, l, Some(c)), p, RelHeld(l))
    case RelHeld(l) =>
      SetProc(s.(locks := s.locks[l := s.locks[l].(locked := false, holder := None, scanner := Some(p))]), p,
              x.(pc := Scan(l, 0)))
    case Scan(l, i) =>
      if i == |s.procs| then SetPc(s.(locks := s.locks[l := s.locks[l].(inner := None, scanner := None)]), p, User)
      else if i == p then SetPc(s, p, Scan(l, i + 1))
      else SetPc(SetLock(s, i, Some(c)), p, ScanHeld(l, i))
    case ScanHeld(l, i) =>
      var y := s.procs[i];
      var z := if y.status == Sleeping && y.chan == Some(l) then y.(status := Runnable) else y;
      SetPc(SetProc(s, i, z), p, ScanDrop(l, i))
    case ScanDrop(l, i) => SetPc(SetLock(s, i, None), p, Scan(l, i + 1))
    case OtherLock(deed, q) => SetPc(SetLock(s, q, Some(c)), p, OtherHeld(deed, q))
    case OtherHeld(deed, q) =>
      SetPc(SetProc(s, q, Done(s.procs[q], deed)), p, OtherDrop(q, deed == Spawn && s.procs[q].status == Unused))
    case OtherDrop(q, ready) => SetPc(SetLock(s, q, None), p, if ready then OtherLock(Ready, q) else User)
    case ExitLock => SetPc(SetLock(s, p, Some(c)), p, ExitHeld)
    case ExitHeld => SetProc(s, p, x.(status := Zombie, pc := Switching(Dead)))
  }

  // ------------------------------------------------------------------ runs

  /** A step of CPU c; `start` is what a process in user mode begins. */
  datatype Event = Event(c: nat, start: Pc)

  predicate Enabled(s: State, e: Event) {
    SchedEnabled(s, e.c) || ProcEnabled(s, e.c, e.start)
  }

  function Step(s: State, e: Event): State
    requires Enabled(s, e)
  {
    if SchedEnabled(s, e.c) then SchedStep(s, e.c) else ProcStep(s, e.c, e.start)
  }

  ghost predicate Runs(s: State, es: seq<Event>)
    decreases |es|
  {
    es == [] || (Enabled(s, es[0]) && Runs(Step(s, es[0]), es[1..]))
  }

  ghost function Final(s: State, es: seq<Event>): State
    requires Runs(s, es)
    decreases |es|
  {
    if es == [] then s else Final(Step(s, es[0]), es[1..])
  }

  /** At the start every CPU is at the beginning of its scheduler loop, all locks are free and
      one process can run for the first time. */
  predicate Init(s: State) {
    && |s.procs| > 0
    && (forall c | 0 <= c < |s.cpus| :: s.cpus[c] == Cpu(None, None, Pick(0)))
    && (forall p | 0 <= p < |s.procs| ::
          s.procs[p] == Proc(if p == 0 then Runnable else Unused, None, None, true, Resumed(Plain), Off))
    && (forall l | 0 <= l < |s.locks| :: s.locks[l] == SleepLocked(None, false, None, None))
  }
}
