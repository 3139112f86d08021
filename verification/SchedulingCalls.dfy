/** What the calls of the scheduler and of the sleep locks do: a CPU that runs undisturbed
    takes each call from its first step to its last. */
module SchedulingCalls {
  import opened Basics
  import opened Scheduling
  import opened SchedulingSafety

  /** A run of the given CPUs leads from s to t; x and y tell who has entered which sleep lock. */
  ghost predicate Goes(s: State, x: set<(nat, nat)>, t: State, y: set<(nat, nat)>, cpus: set<nat>) {
    exists es: seq<Event> :: Trace(s, x, t, y, cpus, es)
  }

  ghost predicate Trace(s: State, x: set<(nat, nat)>, t: State, y: set<(nat, nat)>, cpus: set<nat>, es: seq<Event>) {
    && Runs(s, es) && Final(s, es) == t && Entered(s, es, x) == y
    && forall e | e in es :: e.c in cpus
  }

  lemma Stays(s: State, x: set<(nat, nat)>, cpus: set<nat>)
    ensures Goes(s, x, s, x, cpus)
  {
    assert Trace(s, x, s, x, cpus, []);
  }

  lemma Once(s: State, x: set<(nat, nat)>, e: Event, cpus: set<nat>)
    requires Enabled(s, e) && e.c in cpus
    ensures Goes(s, x, Step(s, e), Noted(s, e, x), cpus)
  {
    hide Enabled, Step, Noted;
    var es := [e];
    assert es[0] == e && es[1..] == [];
    assert Runs(Step(s, e), []) && Final(Step(s, e), []) == Step(s, e);
    assert Entered(Step(s, e), [], Noted(s, e, x)) == Noted(s, e, x);
    assert Trace(s, x, Step(s, e), Noted(s, e, x), cpus, es);
  }

  lemma {:induction false} Joined(s: State, x: set<(nat, nat)>, es: seq<Event>, fs: seq<Event>)
    requires Runs(s, es) && Runs(Final(s, es), fs)
    ensures Runs(s, es + fs) && Final(s, es + fs) == Final(Final(s, es), fs)
    ensures Entered(s, es + fs, x) == Entered(Final(s, es), fs, Entered(s, es, x))
    decreases |es|
  {
    hide Enabled, Step, Noted;
    if es == [] {
      assert es + fs == fs;
    } else {
      assert (es + fs)[1..] == es[1..] + fs;
      Joined(Step(s, es[0]), Noted(s, es[0], x), es[1..], fs);
    }
  }

  lemma Then(s: State, x: set<(nat, nat)>, t: State, y: set<(nat, nat)>, u: State, z: set<(nat, nat)>, cpus: set<nat>)
    requires Goes(s, x, t, y, cpus) && Goes(t, y, u, z, cpus)
    ensures Goes(s, x, u, z, cpus)
  {
    hide Runs, Final, Entered;
    var es :| Trace(s, x, t, y, cpus, es);
    var fs :| Trace(t, y, u, z, cpus, fs);
    Joined(s, x, es, fs);
    assert Trace(s, x, u, z, cpus, es + fs);
  }

  // ------------------------------------------------------------------ single steps

  /** The thread of process p executes on CPU c and is at the given point. */
  predicate Is(s: State, c: nat, p: nat, pc: Pc) {
    c < |s.cpus| && s.cpus[c].cur == Some(p) && p < |s.procs| && s.procs[p].pc == pc
  }

  /** One more step of the process thread on CPU c. */
  lemma Turn(s: State, x: set<(nat, nat)>, t: State, y: set<(nat, nat)>, c: nat, start: Pc, u: State)
    requires Goes(s, x, t, y, {c}) && ProcEnabled(t, c, start) && u == ProcStep(t, c, start)
    ensures Goes(s, x, u, Noted(t, Event(c, start), y), {c})
  {
    hide ProcStep, Noted, PcInRange, Acquires, MayStart;
    Once(t, y, Event(c, start), {c});
    Then(s, x, t, y, u, Noted(t, Event(c, start), y), {c});
  }

  /** One more step of the scheduler thread on CPU c. */
  lemma Sched(s: State, x: set<(nat, nat)>, t: State, y: set<(nat, nat)>, c: nat, u: State)
    requires Goes(s, x, t, y, {c}) && SchedEnabled(t, c) && u == SchedStep(t, c)
    ensures Goes(s, x, u, y, {c})
  {
    hide SchedStep;
    Once(t, y, Event(c, User), {c});
    Then(s, x, t, y, u, y, {c});
  }

  /** Another process's entry and the point of the thread p. */
  function Both(s: State, q: nat, z: Proc, p: nat, pc: Pc): State
    requires q < |s.procs| && p < |s.procs| && q != p
  {
    s.(procs := s.procs[q := z][p := s.procs[p].(pc := pc)])
  }

  lemma BothTwice(s: State, q: nat, a: Proc, b: Proc, p: nat, u: Pc, v: Pc)
    requires q < |s.procs| && p < |s.procs| && q != p
    ensures Both(Both(s, q, a, p, u), q, b, p, v) == Both(s, q, b, p, v)
  {
  }

  /** One more step, which works on the entry of another process. */
  lemma OtherTurn(s: State, x: set<(nat, nat)>, t: State, y: set<(nat, nat)>, c: nat, p: nat, q: nat, z: Proc, pc: Pc)
    requires Goes(s, x, t, y, {c}) && q < |t.procs| && p < |t.procs| && q != p && Is(t, c, p, t.procs[p].pc)
    requires ProcEnabled(t, c, User) && !t.procs[p].pc.User? && !t.procs[p].pc.Leave?
    requires ProcStep(t, c, User) == SetPc(SetProc(t, q, z), p, pc)
    ensures Goes(s, x, Both(t, q, z, p, pc), y, {c})
    ensures var n := Both(t, q, z, p, pc);
            Is(n, c, p, pc) && |n.procs| == |t.procs| && n.procs[q] == z && n.locks == t.locks
  {
    hide Goes, ProcStep, ProcEnabled;
    assert SetPc(SetProc(t, q, z), p, pc) == Both(t, q, z, p, pc);
    Turn(s, x, t, y, c, User, Both(t, q, z, p, pc));
  }

  // ------------------------------------------------------------------ the scheduler

  function Next(s: State, i: nat): SchedPc
    requires |s.procs| > 0
  {
    Pick((i + 1) % |s.procs|)
  }

  /** Process i runs on CPU c, where it was switched out before. */
  function Loaded(s: State, c: nat, i: nat): State
    requires c < |s.cpus| && i < |s.procs|
  {
    State(s.procs[i := s.procs[i].(status := Running, lock := Some(c), saved := false, at := On(c))],
          s.cpus[c := Cpu(Some(i), Some(i), Back(i))], s.locks)
  }

  /** scheduler(): a runnable process is loaded and runs, with its lock in the hands of this CPU. */
  lemma Dispatch(s: State, x: set<(nat, nat)>, c: nat, i: nat)
    requires SchedEnabled(s, c) && s.cpus[c].pc == Pick(i) && s.procs[i].status == Runnable
    ensures Goes(s, x, Loaded(s, c, i), x, {c})
  {
    Stays(s, x, {c});
    hide Goes;
    var p, d := s.procs[i], s.cpus[c];
    var s1 := State(s.procs[i := p.(lock := Some(c))], s.cpus[c := d.(pc := Look(i))], s.locks);
    Sched(s, x, s, x, c, s1);
    var q := p.(status := Running, lock := Some(c), at := Loading(c));
    var s2 := State(s.procs[i := q], s.cpus[c := Cpu(None, Some(i), Load(i))], s.locks);
    Sched(s, x, s1, x, c, s2);
    Sched(s, x, s2, x, c, Loaded(s, c, i));
  }

  /** scheduler(): a process that is not runnable is passed over. */
  lemma PassOver(s: State, x: set<(nat, nat)>, c: nat, i: nat)
    requires SchedEnabled(s, c) && s.cpus[c].pc == Pick(i) && s.procs[i].status != Runnable
    ensures Goes(s, x, s.(cpus := s.cpus[c := s.cpus[c].(pc := Next(s, i))]), x, {c})
  {
    Stays(s, x, {c});
    hide Goes;
    var p, d := s.procs[i].(lock := Some(c)), s.cpus[c];
    var s1 := State(s.procs[i := p], s.cpus[c := d.(pc := Look(i))], s.locks);
    Sched(s, x, s, x, c, s1);
    var s2 := State(s.procs[i := p], s.cpus[c := d.(pc := Drop(i))], s.locks);
    Sched(s, x, s1, x, c, s2);
    Sched(s, x, s2, x, c, s.(cpus := s.cpus[c := d.(pc := Next(s, i))]));
  }

  /** sched() and the rest of the scheduler's round: the process leaves the CPU with its context
      saved and its lock free. */
  lemma SwitchOut(s: State, x: set<(nat, nat)>, c: nat, p: nat, k: Resume)
    requires Is(s, c, p, Switching(k)) && PcInRange(s, p, Switching(k)) && s.cpus[c].pc == Back(p)
    ensures Goes(s, x, State(s.procs[p := s.procs[p].(lock := None, saved := true, pc := Resumed(k), at := Off)],
                             s.cpus[c := Cpu(None, None, Next(s, p))], s.locks), x, {c})
  {
    Stays(s, x, {c});
    hide Goes;
    var r, d := s.procs[p].(saved := true), s.cpus[c];
    var s1 := s.(procs := s.procs[p := r.(pc := Saved(k))]);
    Turn(s, x, s, x, c, User, s1);
    var q := r.(pc := Resumed(k), at := Off);
    var s2 := State(s.procs[p := q], s.cpus[c := d.(cur := None)], s.locks);
    Turn(s, x, s1, x, c, User, s2);
    var s3 := State(s.procs[p := q], s.cpus[c := Cpu(None, None, Drop(p))], s.locks);
    Sched(s, x, s2, x, c, s3);
    Sched(s, x, s3, x, c, State(s.procs[p := q.(lock := None)], s.cpus[c := Cpu(None, None, Next(s, p))], s.locks));
  }

  // ------------------------------------------------------------------ calls of a process on itself

  /** The process p with a new status after it has left the CPU c. */
  function Gone(s: State, c: nat, p: nat, status: Status, k: Resume): State
    requires Is(s, c, p, User)
  {
    State(s.procs[p := s.procs[p].(status := status, lock := None, saved := true, pc := Resumed(k), at := Off)],
          s.cpus[c := Cpu(None, None, Next(s, p))], s.locks)
  }

  /** yield(): the process is runnable again and off the CPU. */
  lemma Yield(s: State, x: set<(nat, nat)>, c: nat, p: nat)
    requires Is(s, c, p, User) && s.procs[p].lock == None && s.cpus[c].pc == Back(p)
    ensures Goes(s, x, Gone(s, c, p, Runnable, Plain), x, {c})
  {
    Stays(s, x, {c});
    hide Goes;
    var r := s.procs[p];
    var s1 := SetPc(s, p, YieldLock);
    Turn(s, x, s, x, c, YieldLock, s1);
    var s2 := SetProc(s, p, r.(lock := Some(c), pc := YieldHeld));
    Turn(s, x, s1, x, c, User, s2);
    var s3 := SetProc(s, p, r.(status := Runnable, lock := Some(c), pc := Switching(Plain)));
    Turn(s, x, s2, x, c, User, s3);
    Left(s, x, s3, x, c, p, Plain, Gone(s, c, p, Runnable, Plain));
  }

  /** Joins the part before sched() to the part behind it. */
  lemma Left(s: State, x: set<(nat, nat)>, t: State, y: set<(nat, nat)>, c: nat, p: nat, k: Resume, u: State)
    requires Goes(s, x, t, y, {c})
    requires Is(t, c, p, Switching(k)) && PcInRange(t, p, Switching(k)) && t.cpus[c].pc == Back(p)
    requires u == State(t.procs[p := t.procs[p].(lock := None, saved := true, pc := Resumed(k), at := Off)],
                        t.cpus[c := Cpu(None, None, Next(t, p))], t.locks)
    ensures Goes(s, x, u, y, {c})
  {
    hide Goes;
    SwitchOut(t, y, c, p, k);
    Then(s, x, t, y, u, y, {c});
  }

  /** exit(): the process is a zombie that will not run again. */
  lemma Exit(s: State, x: set<(nat, nat)>, c: nat, p: nat)
    requires Is(s, c, p, User) && s.procs[p].lock == None && s.cpus[c].pc == Back(p) && HasNone(s, p)
    ensures Goes(s, x, Gone(s, c, p, Zombie, Dead), x, {c})
  {
    Stays(s, x, {c});
    hide Goes;
    var r := s.procs[p];
    var s1 := SetPc(s, p, ExitLock);
    Turn(s, x, s, x, c, ExitLock, s1);
    var s2 := SetProc(s, p, r.(lock := Some(c), pc := ExitHeld));
    Turn(s, x, s1, x, c, User, s2);
    var s3 := SetProc(s, p, r.(status := Zombie, lock := Some(c), pc := Switching(Dead)));
    Turn(s, x, s2, x, c, User, s3);
    Left(s, x, s3, x, c, p, Dead, Gone(s, c, p, Zombie, Dead));
  }

  // ------------------------------------------------------------------ sleep locks

  /** The lock l taken by process p. */
  function Taken(s: State, p: nat, l: nat): State
    requires l < |s.locks|
  {
    s.(locks := s.locks[l := s.locks[l].(locked := true, holder := Some(p))])
  }

  /** The rest of sleep_lock_acquire, from where it takes the inner lock, if the lock is free. */
  lemma TakeFree(s: State, x: set<(nat, nat)>, t: State, y: set<(nat, nat)>, c: nat, p: nat, l: nat)
    requires Goes(s, x, t, y, {c}) && Is(t, c, p, WantInner(l)) && l < |t.locks|
    requires t.locks[l].inner == None && !t.locks[l].locked
    ensures Goes(s, x, SetPc(Taken(t, p, l), p, User), y + {(p, l)}, {c})
  {
    hide Goes;
    var z := t.locks[l].(inner := Some(c));
    var s1 := SetPc(t.(locks := t.locks[l := z]), p, Check(l));
    Turn(s, x, t, y, c, User, s1);
    var s2 := SetPc(t.(locks := t.locks[l := z.(locked := true, holder := Some(p))]), p, Leave(l));
    Turn(s, x, s1, y, c, User, s2);
    Turn(s, x, s2, y, c, User, SetPc(Taken(t, p, l), p, User));
  }

  /** sleep_lock_acquire on a free lock: the process holds it and nothing else has changed. */
  lemma Acquire(s: State, x: set<(nat, nat)>, c: nat, p: nat, l: nat)
    requires Is(s, c, p, User) && l < |s.locks| && s.locks[l].inner == None && !s.locks[l].locked
    ensures Goes(s, x, Taken(s, p, l), x + {(p, l)}, {c})
  {
    Stays(s, x, {c});
    hide Goes;
    var s1 := SetPc(s, p, WantInner(l));
    Turn(s, x, s, x, c, WantInner(l), s1);
    TakeFree(s, x, s1, x, c, p, l);
    assert SetPc(Taken(s1, p, l), p, User) == Taken(s, p, l);
  }

  /** sleep_on, called with the inner lock held. */
  lemma Sleep(s: State, x: set<(nat, nat)>, t: State, y: set<(nat, nat)>, c: nat, p: nat, l: nat)
    requires Goes(s, x, t, y, {c}) && Is(t, c, p, SleepLock(l)) && l < |t.locks|
    requires t.procs[p].lock == None && t.cpus[c].pc == Back(p)
    ensures var r := t.procs[p].(status := Sleeping, chan := Some(l), saved := true, pc := Resumed(AfterSleep(l)));
            Goes(s, x, State(t.procs[p := r.(at := Off)], t.cpus[c := Cpu(None, None, Next(t, p))],
                             t.locks[l := t.locks[l].(inner := None)]), y, {c})
  {
    hide Goes;
    var r := t.procs[p];
    var s1 := SetProc(t, p, r.(lock := Some(c), pc := SleepBoth(l)));
    Turn(s, x, t, y, c, User, s1);
    var s2 := SetProc(SetInner(t, l, None), p, r.(lock := Some(c), pc := SleepSet(l)));
    Turn(s, x, s1, y, c, User, s2);
    var q := r.(status := Sleeping, lock := Some(c), chan := Some(l), pc := Switching(AfterSleep(l)));
    var s3 := SetProc(SetInner(t, l, None), p, q);
    Turn(s, x, s2, y, c, User, s3);
    var u := s3.procs[p := q.(lock := None, saved := true, pc := Resumed(AfterSleep(l)), at := Off)];
    Left(s, x, s3, y, c, p, AfterSleep(l), State(u, s3.cpus[c := Cpu(None, None, Next(s3, p))], s3.locks));
    assert u == t.procs[p := u[p]];
  }

  /** sleep_lock_acquire on a lock that another process holds: the caller sleeps for it, off the
      CPU, and has let go of the inner lock. */
  lemma Wait(s: State, x: set<(nat, nat)>, c: nat, p: nat, l: nat)
    requires Is(s, c, p, User) && s.procs[p].lock == None && s.cpus[c].pc == Back(p)
    requires l < |s.locks| && s.locks[l].inner == None && s.locks[l].locked && !Has(s, p, l)
    ensures var t := Gone(s, c, p, Sleeping, AfterSleep(l));
            Goes(s, x, SetProc(t, p, t.procs[p].(chan := Some(l))), x, {c})
  {
    Stays(s, x, {c});
    hide Goes;
    var s1 := SetPc(s, p, WantInner(l));
    Turn(s, x, s, x, c, WantInner(l), s1);
    var s2 := SetPc(SetInner(s, l, Some(c)), p, Check(l));
    Turn(s, x, s1, x, c, User, s2);
    var s3 := SetPc(SetInner(s, l, Some(c)), p, SleepLock(l));
    Turn(s, x, s2, x, c, User, s3);
    Sleep(s, x, s3, x, c, p, l);
    var t := Gone(s, c, p, Sleeping, AfterSleep(l));
    assert s3.locks[l := s3.locks[l].(inner := None)] == s.locks;
    assert s3.procs[p := t.procs[p].(chan := Some(l))] == t.procs[p := t.procs[p].(chan := Some(l))];
  }

  /** A process that was woken goes on: it takes the lock if that is free. */
  lemma Retake(s: State, x: set<(nat, nat)>, c: nat, p: nat, l: nat)
    requires Is(s, c, p, Resumed(AfterSleep(l)))
    requires l < |s.locks| && s.locks[l].inner == None && !s.locks[l].locked
    ensures Goes(s, x, SetProc(Taken(s, p, l), p, s.procs[p].(lock := None, chan := None, pc := User)),
                 x + {(p, l)}, {c})
  {
    Stays(s, x, {c});
    hide Goes;
    var r := s.procs[p].(chan := None);
    var s1 := SetProc(s, p, r.(pc := SleepDone(l)));
    Turn(s, x, s, x, c, User, s1);
    var s2 := SetProc(s, p, r.(lock := None, pc := WantInner(l)));
    Turn(s, x, s1, x, c, User, s2);
    TakeFree(s, x, s2, x, c, p, l);
    assert SetPc(Taken(s2, p, l), p, User) == SetProc(Taken(s, p, l), p, r.(lock := None, pc := User));
  }

  /** A process that gave up the CPU goes on in user mode. */
  lemma GoOn(s: State, x: set<(nat, nat)>, c: nat, p: nat)
    requires Is(s, c, p, Resumed(Plain))
    ensures Goes(s, x, SetProc(s, p, s.procs[p].(lock := None, pc := User)), x, {c})
  {
    Stays(s, x, {c});
    hide Goes;
    Turn(s, x, s, x, c, User, SetProc(s, p, s.procs[p].(lock := None, pc := User)));
  }

  // ------------------------------------------------------------------ releasing

  /** The processes below i, except p, are awake if they slept for l. */
  function Roused(ps: seq<Proc>, p: nat, l: nat, i: nat): (r: seq<Proc>)
    ensures |r| == |ps|
    ensures forall q: nat | q < |ps| ::
      r[q] == if q < i && q != p && ps[q].status == Sleeping && ps[q].chan == Some(l)
              then ps[q].(status := Runnable) else ps[q]
  {
    seq(|ps|, q requires 0 <= q < |ps| =>
      if q < i && q != p && ps[q].status == Sleeping && ps[q].chan == Some(l)
      then ps[q].(status := Runnable) else ps[q])
  }

  /** The scan at process i. */
  function Scanning(s: State, p: nat, l: nat, i: nat): State
    requires p < |s.procs|
  {
    s.(procs := Roused(s.procs, p, l, i)[p := s.procs[p].(pc := Scan(l, i))])
  }

  /** One round of wake_up's loop. */
  lemma Rouse(s: State, x: set<(nat, nat)>, t: State, y: set<(nat, nat)>, c: nat, p: nat, l: nat, i: nat)
    requires p < |t.procs| && i < |t.procs| && l < |t.locks| && Goes(s, x, Scanning(t, p, l, i), y, {c})
    requires c < |t.cpus| && t.cpus[c].cur == Some(p) && (i != p ==> t.procs[i].lock == None)
    ensures Goes(s, x, Scanning(t, p, l, i + 1), y, {c})
  {
    hide Goes;
    var a, b := Scanning(t, p, l, i), Scanning(t, p, l, i + 1);
    if i == p {
      assert a.procs[p := b.procs[p]] == b.procs;
      Turn(s, x, a, y, c, User, b);
    } else {
      RouseOther(s, x, a, y, c, p, l, i);
      assert b.procs == a.procs[i := Woken(t.procs[i], l)][p := b.procs[p]];
    }
  }

  lemma RouseHeld(s: State, x: set<(nat, nat)>, t: State, y: set<(nat, nat)>, c: nat, p: nat, l: nat, i: nat, q: Proc)
    requires Goes(s, x, t, y, {c}) && Is(t, c, p, ScanHeld(l, i)) && l < |t.locks| && i < |t.procs| && i != p
    requires t.procs[i] == q.(lock := Some(c))
    ensures var n := Both(t, i, Woken(q, l).(lock := Some(c)), p, ScanDrop(l, i));
      && Goes(s, x, n, y, {c}) && Is(n, c, p, ScanDrop(l, i)) && |n.procs| == |t.procs| && n.locks == t.locks
      && n.procs[i] == Woken(q, l).(lock := Some(c))
  {
    hide Goes, Both, MayStart;
    OtherTurn(s, x, t, y, c, p, i, Woken(q, l).(lock := Some(c)), ScanDrop(l, i));
  }

  lemma RouseDrop(s: State, x: set<(nat, nat)>, t: State, y: set<(nat, nat)>, c: nat, p: nat, l: nat, i: nat, z: Proc)
    requires Goes(s, x, t, y, {c}) && Is(t, c, p, ScanDrop(l, i)) && l < |t.locks| && i < |t.procs| && i != p
    requires t.procs[i] == z.(lock := Some(c)) && z.lock == None
    ensures Goes(s, x, Both(t, i, z, p, Scan(l, i + 1)), y, {c})
  {
    hide Goes, Both, MayStart;
    OtherTurn(s, x, t, y, c, p, i, z, Scan(l, i + 1));
  }

  lemma RouseOther(s: State, x: set<(nat, nat)>, t: State, y: set<(nat, nat)>, c: nat, p: nat, l: nat, i: nat)
    requires Goes(s, x, t, y, {c}) && Is(t, c, p, Scan(l, i)) && l < |t.locks|
    requires i < |t.procs| && i != p && t.procs[i].lock == None
    ensures Goes(s, x, Both(t, i, Woken(t.procs[i], l), p, Scan(l, i + 1)), y, {c})
  {
    hide Goes, Both, MayStart;
    var q, w := t.procs[i], Woken(t.procs[i], l);
    OtherTurn(s, x, t, y, c, p, i, q.(lock := Some(c)), ScanHeld(l, i));
    var s1 := Both(t, i, q.(lock := Some(c)), p, ScanHeld(l, i));
    RouseHeld(s, x, s1, y, c, p, l, i, q);
    BothTwice(t, i, q.(lock := Some(c)), w.(lock := Some(c)), p, ScanHeld(l, i), ScanDrop(l, i));
    var s2 := Both(t, i, w.(lock := Some(c)), p, ScanDrop(l, i));
    RouseDrop(s, x, s2, y, c, p, l, i, w);
    BothTwice(t, i, w.(lock := Some(c)), w, p, ScanDrop(l, i), Scan(l, i + 1));
  }

  lemma {:induction false} RouseAll(s: State, x: set<(nat, nat)>, t: State, y: set<(nat, nat)>, c: nat, p: nat, l: nat,
                                    i: nat)
    requires p < |t.procs| && i <= |t.procs| && l < |t.locks| && Goes(s, x, Scanning(t, p, l, i), y, {c})
    requires c < |t.cpus| && t.cpus[c].cur == Some(p)
    requires forall q | 0 <= q < |t.procs| && q != p :: t.procs[q].lock == None
    ensures Goes(s, x, Scanning(t, p, l, |t.procs|), y, {c})
    decreases |t.procs| - i
  {
    hide Goes, Scanning;
    if i < |t.procs| {
      Rouse(s, x, t, y, c, p, l, i);
      RouseAll(s, x, t, y, c, p, l, i + 1);
    }
  }

  /** sleep_lock_release: the lock is free, every process that slept for it is runnable, and
      nothing else has changed. */
  lemma Release(s: State, x: set<(nat, nat)>, c: nat, p: nat, l: nat)
    requires Is(s, c, p, User) && Has(s, p, l) && s.locks[l].inner == None && s.locks[l].scanner == None
    requires forall q | 0 <= q < |s.procs| && q != p :: s.procs[q].lock == None
    ensures Goes(s, x, State(Roused(s.procs, p, l, |s.procs|), s.cpus,
                             s.locks[l := SleepLocked(None, false, None, None)]), x - {(p, l)}, {c})
  {
    Stays(s, x, {c});
    hide Goes;
    var y := x - {(p, l)};
    var s1 := SetPc(s, p, RelLock(l));
    Turn(s, x, s, x, c, RelLock(l), s1);
    var s2 := SetPc(SetInner(s, l, Some(c)), p, RelHeld(l));
    Turn(s, x, s1, y, c, User, s2);
    var t := s.(locks := s.locks[l := SleepLocked(Some(c), false, None, Some(p))]);
    assert Roused(t.procs, p, l, 0) == t.procs;
    Turn(s, x, s2, y, c, User, Scanning(t, p, l, 0));
    RouseAll(s, x, t, y, c, p, l, 0);
    Swept(s, x, t, y, c, p, l);
    assert t.locks[l := SleepLocked(None, false, None, None)] == s.locks[l := SleepLocked(None, false, None, None)];
  }

  lemma Swept(s: State, x: set<(nat, nat)>, t: State, y: set<(nat, nat)>, c: nat, p: nat, l: nat)
    requires Is(t, c, p, User) && l < |t.locks| && Goes(s, x, Scanning(t, p, l, |t.procs|), y, {c})
    ensures Goes(s, x, State(Roused(t.procs, p, l, |t.procs|), t.cpus,
                             t.locks[l := t.locks[l].(inner := None, scanner := None)]), y, {c})
  {
    hide Goes;
    var ps := Roused(t.procs, p, l, |t.procs|);
    var u := State(ps, t.cpus, t.locks[l := t.locks[l].(inner := None, scanner := None)]);
    assert ps[p := ps[p].(pc := User)] == ps;
    Turn(s, x, Scanning(t, p, l, |t.procs|), y, c, User, u);
  }

  // ------------------------------------------------------------------ calls on another process

  lemma DoneLock(r: Proc, deed: Deed)
    ensures Done(r, deed).lock == r.lock
  {
  }

  /** The entry is changed while its lock is held. */
  lemma DealHeld(s: State, x: set<(nat, nat)>, t: State, c: nat, p: nat, deed: Deed, q: nat, r: Proc)
    requires Goes(s, x, t, x, {c}) && Is(t, c, p, OtherHeld(deed, q)) && q < |t.procs| && q != p
    requires t.procs[q] == r.(lock := Some(c))
    ensures var ready := deed == Spawn && r.status == Unused;
      var n := Both(t, q, Done(r, deed).(lock := Some(c)), p, OtherDrop(q, ready));
      && Goes(s, x, n, x, {c}) && Is(n, c, p, OtherDrop(q, ready)) && |n.procs| == |t.procs|
      && n.procs[q] == Done(r, deed).(lock := Some(c))
  {
    hide Goes, Both, MayStart;
    var ready := deed == Spawn && r.status == Unused;
    assert Done(t.procs[q], deed) == Done(r, deed).(lock := Some(c));
    hide Done;
    OtherTurn(s, x, t, x, c, p, q, Done(r, deed).(lock := Some(c)), OtherDrop(q, ready));
  }

  lemma DealDrop(s: State, x: set<(nat, nat)>, t: State, c: nat, p: nat, q: nat, ready: bool, z: Proc)
    requires Goes(s, x, t, x, {c}) && Is(t, c, p, OtherDrop(q, ready)) && q < |t.procs| && q != p
    requires t.procs[q] == z.(lock := Some(c)) && z.lock == None
    ensures Goes(s, x, Both(t, q, z, p, if ready then OtherLock(Ready, q) else User), x, {c})
  {
    hide Goes, Both, MayStart;
    OtherTurn(s, x, t, x, c, p, q, z, if ready then OtherLock(Ready, q) else User);
  }

  /** Taking the lock of another process, changing its entry, and giving the lock back. */
  lemma Deal(s: State, x: set<(nat, nat)>, t: State, c: nat, p: nat, deed: Deed, q: nat)
    requires Goes(s, x, t, x, {c}) && Is(t, c, p, OtherLock(deed, q)) && q < |t.procs| && q != p
    requires t.procs[q].lock == None
    ensures var ready := deed == Spawn && t.procs[q].status == Unused;
      Goes(s, x, Both(t, q, Done(t.procs[q], deed), p, if ready then OtherLock(Ready, q) else User), x, {c})
  {
    hide Goes, Both, Done, MayStart;
    var r, z, ready := t.procs[q], Done(t.procs[q], deed), deed == Spawn && t.procs[q].status == Unused;
    var pc := if ready then OtherLock(Ready, q) else User;
    OtherTurn(s, x, t, x, c, p, q, r.(lock := Some(c)), OtherHeld(deed, q));
    var s1 := Both(t, q, r.(lock := Some(c)), p, OtherHeld(deed, q));
    DealHeld(s, x, s1, c, p, deed, q, r);
    BothTwice(t, q, r.(lock := Some(c)), z.(lock := Some(c)), p, OtherHeld(deed, q), OtherDrop(q, ready));
    var s2 := Both(t, q, z.(lock := Some(c)), p, OtherDrop(q, ready));
    DoneLock(r, deed);
    DealDrop(s, x, s2, c, p, q, ready, z);
    BothTwice(t, q, z.(lock := Some(c)), z, p, OtherDrop(q, ready), pc);
  }

  /** The same from user mode. */
  lemma Begin(s: State, x: set<(nat, nat)>, c: nat, p: nat, deed: Deed, q: nat)
    requires Is(s, c, p, User) && q < |s.procs| && q != p && s.procs[q].lock == None && deed != Ready
    ensures var ready := deed == Spawn && s.procs[q].status == Unused;
      Goes(s, x, Both(s, q, Done(s.procs[q], deed), p, if ready then OtherLock(Ready, q) else User), x, {c})
  {
    Stays(s, x, {c});
    hide Goes;
    var t := SetPc(s, p, OtherLock(deed, q));
    Turn(s, x, s, x, c, OtherLock(deed, q), t);
    Deal(s, x, t, c, p, deed, q);
    var ready := deed == Spawn && t.procs[q].status == Unused;
    var pc := if ready then OtherLock(Ready, q) else User;
    assert Both(t, q, Done(s.procs[q], deed), p, pc) == Both(s, q, Done(s.procs[q], deed), p, pc);
  }

  /** kill(): a sleeping process becomes runnable, any other one stays as it is. */
  lemma Kill(s: State, x: set<(nat, nat)>, c: nat, p: nat, q: nat)
    requires Is(s, c, p, User) && q < |s.procs| && q != p && s.procs[q].lock == None
    ensures var r := s.procs[q];
            Goes(s, x, SetProc(s, q, r.(status := if r.status == Sleeping then Runnable else r.status)), x, {c})
  {
    hide Goes;
    Begin(s, x, c, p, Deed.Kill, q);
    assert Both(s, q, Done(s.procs[q], Deed.Kill), p, User) == SetProc(s, q, Done(s.procs[q], Deed.Kill));
  }

  /** wait(): a zombie's entry is free again. */
  lemma Reap(s: State, x: set<(nat, nat)>, c: nat, p: nat, q: nat)
    requires Is(s, c, p, User) && q < |s.procs| && q != p && s.procs[q].lock == None && s.procs[q].status == Zombie
    ensures Goes(s, x, SetProc(s, q, s.procs[q].(status := Unused, chan := None)), x, {c})
  {
    hide Goes;
    Begin(s, x, c, p, Deed.Reap, q);
    assert Both(s, q, Done(s.procs[q], Deed.Reap), p, User) == SetProc(s, q, Done(s.procs[q], Deed.Reap));
  }

  /** fork(): an unused entry becomes a runnable process that goes on in user mode. */
  lemma Fork(s: State, x: set<(nat, nat)>, c: nat, p: nat, q: nat)
    requires Is(s, c, p, User) && q < |s.procs| && q != p && s.procs[q].lock == None && s.procs[q].status == Unused
    ensures var r := s.procs[q].(status := Runnable, chan := None, saved := true, pc := Resumed(Plain));
            Goes(s, x, SetProc(s, q, r), x, {c})
  {
    hide Goes;
    Begin(s, x, c, p, Spawn, q);
    var r := s.procs[q].(status := Used, chan := None, saved := true, pc := Resumed(Plain));
    var s1 := Both(s, q, r, p, OtherLock(Ready, q));
    Deal(s, x, s1, c, p, Ready, q);
    BothTwice(s, q, r, r.(status := Runnable), p, OtherLock(Ready, q), User);
    assert Both(s, q, r.(status := Runnable), p, User) == SetProc(s, q, r.(status := Runnable));
  }

  // ------------------------------------------------------------------ one run from the start

  lemma Widen(s: State, x: set<(nat, nat)>, t: State, y: set<(nat, nat)>, c: nat, u: State, z: set<(nat, nat)>)
    requires Goes(s, x, t, y, {0, 1}) && Goes(t, y, u, z, {c}) && c < 2
    ensures Goes(s, x, u, z, {0, 1})
  {
    hide Runs, Final, Entered;
    var es :| Trace(t, y, u, z, {c}, es);
    assert Trace(t, y, u, z, {0, 1}, es);
    Then(s, x, t, y, u, z, {0, 1});
  }

  /** Two processes, two CPUs and the lock 0. */
  function Pair(s: State, p: Proc, q: Proc, c: Cpu, d: Cpu, z: SleepLocked): State
    requires |s.locks| > 0
  {
    State([p, q], [c, d], s.locks[0 := z])
  }

  const FREE := SleepLocked(None, false, None, None)
  const IDLE := Proc(Unused, None, None, true, Resumed(Plain), Off)

  function Runner(c: nat): Proc {
    Proc(Running, None, None, false, User, On(c))
  }

  function Busy(p: nat): Cpu {
    Cpu(Some(p), Some(p), Back(p))
  }

  function Idle(i: nat): Cpu {
    Cpu(None, None, Pick(i))
  }

  function HeldBy(p: nat): SleepLocked {
    SleepLocked(None, true, Some(p), None)
  }

  const SLEEPER := Proc(Sleeping, None, Some(0), true, Resumed(AfterSleep(0)), Off)
  const READY := Proc(Runnable, None, None, true, Resumed(Plain), Off)

  /** Process 0 runs on CPU 0 and forks process 1. */
  lemma FirstRuns(s: State)
    requires Init(s) && |s.procs| == 2 && |s.cpus| == 2 && |s.locks| > 0
    ensures Goes(s, {}, Pair(s, Runner(0), READY, Busy(0), Idle(0), FREE), {}, {0, 1})
  {
    Stays(s, {}, {0, 1});
    hide Goes;
    assert s == Pair(s, READY, IDLE, Idle(0), Idle(0), FREE);
    Dispatch(s, {}, 0, 0);
    var s1 := Pair(s, Runner(0).(lock := Some(0), pc := Resumed(Plain)), IDLE, Busy(0), Idle(0), FREE);
    assert Loaded(s, 0, 0) == s1;
    Widen(s, {}, s, {}, 0, s1, {});
    GoOn(s1, {}, 0, 0);
    var s2 := Pair(s, Runner(0), IDLE, Busy(0), Idle(0), FREE);
    assert SetProc(s1, 0, Runner(0)) == s2;
    Widen(s, {}, s1, {}, 0, s2, {});
    Fork(s2, {}, 0, 0, 1);
    assert SetProc(s2, 1, READY) == Pair(s, Runner(0), READY, Busy(0), Idle(0), FREE);
    Widen(s, {}, s2, {}, 0, SetProc(s2, 1, READY), {});
  }

  /** It acquires the lock. */
  lemma FirstAcquires(s: State)
    requires Init(s) && |s.procs| == 2 && |s.cpus| == 2 && |s.locks| > 0
    ensures Goes(s, {}, Pair(s, Runner(0), READY, Busy(0), Idle(0), HeldBy(0)), {(0, 0)}, {0, 1})
  {
    FirstRuns(s);
    hide Goes, Init;
    var s1 := Pair(s, Runner(0), READY, Busy(0), Idle(0), FREE);
    Acquire(s1, {}, 0, 0, 0);
    assert {} + {(0, 0)} == {(0, 0)};
    assert Taken(s1, 0, 0) == Pair(s, Runner(0), READY, Busy(0), Idle(0), HeldBy(0));
    Widen(s, {}, s1, {}, 0, Taken(s1, 0, 0), {(0, 0)});
  }

  /** CPU 1 passes over process 0, which is running, and loads process 1. */
  lemma SecondLoaded(s: State, x: set<(nat, nat)>, q: Proc, z: SleepLocked)
    requires |s.locks| > 0 && q.status == Runnable && q.lock == None
    ensures var r := q.(status := Running, lock := Some(1), saved := false, at := On(1));
            Goes(Pair(s, Runner(0), q, Busy(0), Idle(0), z), x, Pair(s, Runner(0), r, Busy(0), Busy(1), z), x, {1})
  {
    hide Goes;
    var s1 := Pair(s, Runner(0), q, Busy(0), Idle(0), z);
    PassOver(s1, x, 1, 0);
    var s2 := Pair(s, Runner(0), q, Busy(0), Idle(1), z);
    assert s1.(cpus := s1.cpus[1 := s1.cpus[1].(pc := Next(s1, 0))]) == s2;
    Dispatch(s2, x, 1, 1);
    var r := q.(status := Running, lock := Some(1), saved := false, at := On(1));
    assert Loaded(s2, 1, 1) == Pair(s, Runner(0), r, Busy(0), Busy(1), z);
    Then(s1, x, s2, x, Loaded(s2, 1, 1), x, {1});
  }

  /** Process 1 runs on the other CPU, wants the lock and sleeps. */
  lemma SecondSleeps(s: State, x: set<(nat, nat)>)
    requires |s.locks| > 0
    ensures Goes(Pair(s, Runner(0), READY, Busy(0), Idle(0), HeldBy(0)), x,
                 Pair(s, Runner(0), SLEEPER, Busy(0), Idle(0), HeldBy(0)), x, {1})
  {
    hide Goes;
    var s1 := Pair(s, Runner(0), READY, Busy(0), Idle(0), HeldBy(0));
    SecondLoaded(s, x, READY, HeldBy(0));
    var s2 := Pair(s, Runner(0), Runner(1).(lock := Some(1), pc := Resumed(Plain)), Busy(0), Busy(1), HeldBy(0));
    GoOn(s2, x, 1, 1);
    var s3 := Pair(s, Runner(0), Runner(1), Busy(0), Busy(1), HeldBy(0));
    assert SetProc(s2, 1, Runner(1)) == s3;
    Then(s1, x, s2, x, s3, x, {1});
    Wait(s3, x, 1, 1, 0);
    var s4 := Pair(s, Runner(0), SLEEPER, Busy(0), Idle(0), HeldBy(0));
    assert SetProc(Gone(s3, 1, 1, Sleeping, AfterSleep(0)), 1, SLEEPER) == s4;
    Then(s1, x, s3, x, s4, x, {1});
  }

  /** Process 0 releases the lock, which wakes process 1. */
  lemma FirstReleases(s: State, x: set<(nat, nat)>)
    requires |s.locks| > 0
    ensures Goes(Pair(s, Runner(0), SLEEPER, Busy(0), Idle(0), HeldBy(0)), x,
                 Pair(s, Runner(0), SLEEPER.(status := Runnable), Busy(0), Idle(0), FREE), x - {(0, 0)}, {0})
  {
    hide Goes;
    var s1 := Pair(s, Runner(0), SLEEPER, Busy(0), Idle(0), HeldBy(0));
    Release(s1, x, 0, 0, 0);
    assert Roused(s1.procs, 0, 0, 2) == [Runner(0), SLEEPER.(status := Runnable)];
    assert State(Roused(s1.procs, 0, 0, 2), s1.cpus, s1.locks[0 := FREE])
        == Pair(s, Runner(0), SLEEPER.(status := Runnable), Busy(0), Idle(0), FREE);
  }

  /** Process 1 runs again and acquires the lock. */
  lemma SecondAcquires(s: State, x: set<(nat, nat)>)
    requires |s.locks| > 0
    ensures Goes(Pair(s, Runner(0), SLEEPER.(status := Runnable), Busy(0), Idle(0), FREE), x,
                 Pair(s, Runner(0), Runner(1), Busy(0), Busy(1), HeldBy(1)), x + {(1, 0)}, {1})
  {
    hide Goes;
    var q := SLEEPER.(status := Runnable);
    var s1 := Pair(s, Runner(0), q, Busy(0), Idle(0), FREE);
    SecondLoaded(s, x, q, FREE);
    var r := q.(status := Running, lock := Some(1), saved := false, at := On(1));
    var s2 := Pair(s, Runner(0), r, Busy(0), Busy(1), FREE);
    Retake(s2, x, 1, 1, 0);
    var s3 := Pair(s, Runner(0), Runner(1), Busy(0), Busy(1), HeldBy(1));
    assert SetProc(Taken(s2, 1, 0), 1, Runner(1)) == s3;
    Then(s1, x, s2, x, s3, x + {(1, 0)}, {1});
  }

  /** A run in which one process acquires a sleep lock, a second one sleeps for it, the first
      releases it and the second acquires it. */
  lemma HandOver(s: State)
    requires Init(s) && |s.procs| == 2 && |s.cpus| == 2 && |s.locks| > 0
    ensures exists t, u ::
      && Goes(s, {}, t, {(0, 0)}, {0, 1}) && Has(t, 0, 0)
      && |t.procs| == 2 && t.procs[1].status == Sleeping && t.procs[1].chan == Some(0)
      && Goes(s, {}, u, {(1, 0)}, {0, 1}) && Goes(t, {(0, 0)}, u, {(1, 0)}, {0, 1}) && Has(u, 1, 0)
  {
    hide Init, Goes;
    var x, y := {(0, 0)}, {(1, 0)};
    var s1 := Pair(s, Runner(0), READY, Busy(0), Idle(0), HeldBy(0));
    var t := Pair(s, Runner(0), SLEEPER, Busy(0), Idle(0), HeldBy(0));
    var s2 := Pair(s, Runner(0), SLEEPER.(status := Runnable), Busy(0), Idle(0), FREE);
    var u := Pair(s, Runner(0), Runner(1), Busy(0), Busy(1), HeldBy(1));
    FirstAcquires(s);
    SecondSleeps(s, x);
    Widen(s, {}, s1, x, 1, t, x);
    Stays(t, x, {0, 1});
    FirstReleases(s, x);
    assert x - {(0, 0)} == {};
    Widen(t, x, t, x, 0, s2, {});
    SecondAcquires(s, {});
    assert {} + {(1, 0)} == y;
    Widen(t, x, s2, {}, 1, u, y);
    Then(s, {}, t, x, u, y, {0, 1});
  }
}
