/** Runs of the log machine, told by their events alone. */
module LogRuns {
  import opened Blocks
  import opened DiskLayout
  import opened LogSpec
  import opened LogMachine

  // ---------- performing writes ----------

  lemma {:induction false} PerformJoined(d: Disk, a: seq<Tagged>, b: seq<Tagged>)
    ensures Perform(d, a + b) == Perform(Perform(d, a), b)
  {
    if b == [] {
      assert a + b == a;
    } else {
      var n := |b| - 1;
      assert (a + b)[..|a + b| - 1] == a + b[..n] && (a + b)[|a + b| - 1] == b[n];
      PerformJoined(d, a, b[..n]);
    }
  }

  lemma {:induction false} ReplayIsPerform(d: Disk, gs: seq<seq<Tagged>>)
    ensures Replay(d, gs) == Perform(d, Flat(gs))
  {
    hide Perform;
    if gs == [] {
      assert Perform(d, []) == d by {
        PerformNone(d);
      }
    } else {
      var n := |gs| - 1;
      ReplayIsPerform(d, gs[..n]);
      PerformJoined(d, Flat(gs[..n]), gs[n]);
    }
  }

  lemma PerformNone(d: Disk)
    ensures Perform(d, []) == d
  {
  }

  // ---------- joining runs ----------

  lemma {:induction false} RunsJoin(limit: nat, s: State, es: seq<Event>, fs: seq<Event>)
    requires Runs(limit, s, es) && Runs(limit, Final(limit, s, es), fs)
    ensures Runs(limit, s, es + fs) && Final(limit, s, es + fs) == Final(limit, Final(limit, s, es), fs)
    decreases |es|
  {
    hide Enabled, Exec;
    if es == [] {
      assert es + fs == fs;
    } else {
      assert (es + fs)[1..] == es[1..] + fs;
      RunsJoin(limit, Exec(limit, s, es[0]), es[1..], fs);
    }
  }

  lemma {:induction false} RunsSplit(limit: nat, s: State, es: seq<Event>, i: nat)
    requires Runs(limit, s, es) && i <= |es|
    ensures Runs(limit, s, es[..i]) && Runs(limit, Final(limit, s, es[..i]), es[i..])
    ensures Final(limit, Final(limit, s, es[..i]), es[i..]) == Final(limit, s, es)
    decreases i
  {
    hide Enabled, Exec;
    if i == 0 {
      assert es[..0] == [] && es[0..] == es;
    } else {
      assert es[..i][1..] == es[1..][..i - 1] && es[1..][i - 1..] == es[i..];
      RunsSplit(limit, Exec(limit, s, es[0]), es[1..], i - 1);
    }
  }

  lemma LoggedFirst(es: seq<Event>)
    requires es != []
    ensures Logged(es) == Logged([es[0]]) + Logged(es[1..])
  {
    LoggedOne(es[0]);
  }

  lemma LoggedOne(e: Event)
    ensures Logged([e]) == if e.LogBlock? then [Tagged(e.op, e.bno, e.data)] else []
  {
    var es := [e];
    assert es[1..] == [];
  }

  lemma {:induction false} LoggedJoin(es: seq<Event>, fs: seq<Event>)
    ensures Logged(es + fs) == Logged(es) + Logged(fs)
  {
    if es == [] {
      assert es + fs == fs;
    } else {
      assert (es + fs)[0] == es[0] && (es + fs)[1..] == es[1..] + fs;
      LoggedJoin(es[1..], fs);
      LoggedFirst(es);
      LoggedFirst(es + fs);
      hide Logged;
      var a, b, c := Logged([es[0]]), Logged(es[1..]), Logged(fs);
      assert a + (b + c) == a + b + c;
    }
  }

  // ---------- what is durable ----------

  /** No operation is under way and no commit. */
  predicate Idle(s: State) {
    s.phase.Running? && s.outstanding == 0
  }

  lemma IdleHasNothingOpen(root: Disk, s: State)
    requires Inv(root, s) && Idle(s)
    ensures s.pending == [] && s.hs == [] && SameHome(s.disk, s.mem)
  {
    hide Apply, CommitWrites, RecoveryWrites, HeaderOk, Recovered, Perform, Replay;
    PendingNeedsList(s.pending, s.hs);
  }

  lemma PendingNeedsList(ts: seq<Tagged>, hs: seq<Word>)
    requires forall i | 0 <= i < |ts| :: ts[i].bno in hs
    ensures ts != [] ==> hs != []
  {
    if ts != [] {
      assert ts[0].bno in hs;
    }
  }

  /** Durability: whenever the log is idle, the disk itself holds every write that was logged,
      performed in the order of the run. */
  lemma IdleIsDurable(limit: nat, s0: State, es: seq<Event>)
    requires Init(s0) && Runs(limit, s0, es) && Crash !in es && Idle(Final(limit, s0, es))
    ensures SameHome(Final(limit, s0, es).disk, Perform(s0.disk, Logged(es)))
  {
    hide Inv, Perform, Replay, Logged, Flat;
    var s := Final(limit, s0, es);
    InitInv(s0);
    RunKeeps(limit, s0.disk, s0, es);
    IdleHasNothingOpen(s0.disk, s);
    ReachableRecovers(limit, s0, es);
    CrashFreeKeepsAll(limit, s0, es);
    NoGroups();
    ReplayIsPerform(s0.disk, s.groups);
    PerformNone(Replay(s0.disk, s.groups));
    assert Flat([]) + [] + Logged(es) == Logged(es) && Flat(s.groups) + [] == Flat(s.groups);
  }

  lemma NoGroups()
    ensures Flat([]) == []
  {
  }

  lemma {:induction false} GroupsGrow(limit: nat, s: State, es: seq<Event>)
    requires Runs(limit, s, es)
    ensures s.groups <= Final(limit, s, es).groups
    decreases |es|
  {
    if es != [] {
      OneGroupMore(limit, s, es[0]);
      hide Enabled, Exec;
      GroupsGrow(limit, Exec(limit, s, es[0]), es[1..]);
    }
  }

  lemma OneGroupMore(limit: nat, s: State, e: Event)
    requires Enabled(limit, s, e)
    ensures s.groups <= Exec(limit, s, e).groups
  {
    hide CommitWrites, RecoveryWrites, HeaderOk;
  }

  lemma {:induction false} FlatGrows(gs: seq<seq<Tagged>>, hs: seq<seq<Tagged>>)
    requires gs <= hs
    ensures |Flat(gs)| <= |Flat(hs)|
    decreases |hs|
  {
    if gs != hs {
      FlatGrows(gs, hs[..|hs| - 1]);
    }
  }

  lemma {:induction false} FlatBelow(gs: seq<seq<Tagged>>, m: nat)
    requires forall g | 0 <= g < |gs| :: Below(gs[g], m)
    ensures Below(Flat(gs), m)
  {
    if gs != [] {
      var n := |gs| - 1;
      assert forall g | 0 <= g < n :: gs[..n][g] == gs[g];
      FlatBelow(gs[..n], m);
      assert Below(gs[n], m);
    }
  }

  lemma {:induction false} RunDivides(limit: nat, root: Disk, s: State, es: seq<Event>, m: nat) returns (n: nat)
    requires Inv(root, s) && Runs(limit, s, es) && Separate(s.groups) && Divides(s, m)
    ensures Divides(Final(limit, s, es), n)
    decreases |es|
  {
    hide Inv, Divides, Separate, Enabled, Exec;
    n := m;
    if es != [] {
      n := StepSeparates(limit, root, s, es[0], m);
      StepKeeps(limit, root, s, es[0]);
      n := RunDivides(limit, root, Exec(limit, s, es[0]), es[1..], n);
    }
  }

  /** `n` cuts the logged writes between whole operations. */
  ghost predicate WholeOps(ts: seq<Tagged>, n: nat) {
    n <= |ts| && forall a, b | 0 <= a < n && n <= b < |ts| :: ts[a].op != ts[b].op
  }

  /** Atomicity and durability told by events: stop a run anywhere, crash, recover, crash again
      during recovery as often as you like. The disk then holds a prefix of the writes that were
      logged, performed in order; the prefix has every operation whole or not at all, and has
      everything that was logged up to any moment `i` at which the log was idle. */
  lemma PrefixSurvives(limit: nat, s0: State, es: seq<Event>, rs: seq<Event>, i: nat) returns (n: nat)
    requires Init(s0) && Runs(limit, s0, es) && Crash !in es && !Final(limit, s0, es).phase.Panicked?
    requires Runs(limit, Final(limit, s0, es), [Crash] + rs) && OnlyRecovery(rs)
    requires Final(limit, Final(limit, s0, es), [Crash] + rs).phase.Running?
    requires i <= |es| && Runs(limit, s0, es[..i]) && Idle(Final(limit, s0, es[..i]))
    ensures |Logged(es[..i])| <= n && WholeOps(Logged(es), n)
    ensures SameHome(Final(limit, Final(limit, s0, es), [Crash] + rs).disk, Perform(s0.disk, Logged(es)[..n]))
  {
    hide Inv, Perform, Replay, Logged, Flat, Divides, Separate, OnlyRecovery, SameHome;
    var s := Final(limit, s0, es);
    n := |Flat(s.groups)|;
    CrashFreeKeepsAll(limit, s0, es);
    NoGroups();
    assert Logged(es) == Flat(s.groups) + s.pending;
    assert Logged(es)[..n] == Flat(s.groups);
    CrashAtomicity(limit, s0, es, rs);
    ReplayIsPerform(s0.disk, s.groups);
    IdleBefore(limit, s0, es, i);
    CutsWhole(limit, s0, es);
  }

  lemma IdleBefore(limit: nat, s0: State, es: seq<Event>, i: nat)
    requires Init(s0) && Runs(limit, s0, es) && Crash !in es
    requires i <= |es| && Runs(limit, s0, es[..i]) && Idle(Final(limit, s0, es[..i]))
    ensures |Logged(es[..i])| <= |Flat(Final(limit, s0, es).groups)|
  {
    hide Inv, Logged, Flat;
    var t := Final(limit, s0, es[..i]);
    InitInv(s0);
    RunKeeps(limit, s0.disk, s0, es[..i]);
    IdleHasNothingOpen(s0.disk, t);
    CrashFreeKeepsAll(limit, s0, es[..i]);
    NoGroups();
    assert Flat([]) + [] + Logged(es[..i]) == Logged(es[..i]) && Flat(t.groups) + [] == Flat(t.groups);
    RunsSplit(limit, s0, es, i);
    GroupsGrow(limit, t, es[i..]);
    FlatGrows(t.groups, Final(limit, s0, es).groups);
  }

  lemma CutsWhole(limit: nat, s0: State, es: seq<Event>)
    requires Init(s0) && Runs(limit, s0, es)
    ensures var s := Final(limit, s0, es); WholeOps(Flat(s.groups) + s.pending, |Flat(s.groups)|)
  {
    hide Inv, Flat, Runs, Final;
    InitInv(s0);
    var m := RunDivides(limit, s0.disk, s0, es, 0);
    FlatBelow(Final(limit, s0, es).groups, m);
  }

  // ---------- the log goes on ----------

  function CommitSteps(n: nat): seq<Event> {
    seq(n, _ => CommitStep) + [EndCommit]
  }

  /** A commit that is not disturbed ends, and the log is idle again. */
  lemma {:induction false} CommitEnds(limit: nat, s: State, n: nat)
    requires s.phase.Committing? && s.phase.k + n == |Writes(s.phase.mem0, s.phase.list)|
    ensures Runs(limit, s, CommitSteps(n))
    ensures Final(limit, s, CommitSteps(n)).phase.Running?
    ensures Final(limit, s, CommitSteps(n)).outstanding == s.outstanding
    decreases n
  {
    hide CommitWrites, Writes;
    var es := CommitSteps(n);
    if n == 0 {
      assert es == [EndCommit];
      assert es[1..] == [];
    } else {
      assert es[0] == CommitStep && es[1..] == CommitSteps(n - 1);
      CommitEnds(limit, Exec(limit, s, CommitStep), n - 1);
    }
  }

  function RecoverySteps(n: nat): seq<Event> {
    seq(n, _ => RecoverStep) + [EndRecovery]
  }

  /** So does a recovery. */
  lemma {:induction false} RecoveryEnds(limit: nat, s: State, n: nat)
    requires s.phase.Recovering? && HeaderOk(s.phase.disk0) && s.phase.k + n == |RecoveryWrites(s.phase.disk0)|
    ensures Runs(limit, s, RecoverySteps(n)) && Final(limit, s, RecoverySteps(n)).phase.Running?
    ensures OnlyRecovery(RecoverySteps(n))
    decreases n
  {
    hide RecoveryWrites, HeaderOk;
    var es := RecoverySteps(n);
    if n == 0 {
      assert es == [EndRecovery];
      assert es[1..] == [];
    } else {
      assert es[0] == RecoverStep && es[1..] == RecoverySteps(n - 1);
      RecoveryEnds(limit, Exec(limit, s, RecoverStep), n - 1);
    }
  }

  /** The events of one operation that logs one block, up to the end of its commit. */
  function OneWrite(b: Home, data: Block): seq<Event> {
    [BeginOp, LogBlock(0, b, data), EndOp(0)] + CommitSteps(4)
  }

  lemma OneOperation(limit: nat, s0: State, b: Home, data: Block)
    requires Init(s0) && limit >= 1 && IsHome(b)
    ensures var es := [BeginOp, LogBlock(0, b, data), EndOp(0)];
            && Runs(limit, s0, es)
            && var s := Final(limit, s0, es);
               s.phase.Committing? && s.phase.k == 0 && s.phase.list == [b] && s.outstanding == 0
  {
    hide CommitWrites, RecoveryWrites, HeaderOk;
    RunsAppend(limit, s0, [], BeginOp);
    var s1 := Exec(limit, s0, BeginOp);
    assert s1.active == map[0 := {}] && |{} + {b}| == 1;
    RunsAppend(limit, s0, [BeginOp], LogBlock(0, b, data));
    var s2 := Exec(limit, s1, LogBlock(0, b, data));
    assert s2.hs == [b] && s2.outstanding == 1;
    RunsAppend(limit, s0, [BeginOp] + [LogBlock(0, b, data)], EndOp(0));
    assert [] + [BeginOp] == [BeginOp];
    assert [BeginOp] + [LogBlock(0, b, data)] + [EndOp(0)] == [BeginOp, LogBlock(0, b, data), EndOp(0)];
  }

  /** It runs, and then the log is idle. */
  lemma OneWriteRuns(limit: nat, s0: State, b: Home, data: Block)
    requires Init(s0) && limit >= 1 && IsHome(b)
    ensures var es := OneWrite(b, data);
            && Runs(limit, s0, es) && Crash !in es && Idle(Final(limit, s0, es))
            && Logged(es) == [Tagged(0, b, data)]
  {
    hide Runs, Final, Init, CommitWrites, Logged;
    OneOperation(limit, s0, b, data);
    var es := [BeginOp, LogBlock(0, b, data), EndOp(0)];
    var s := Final(limit, s0, es);
    assert |Writes(s.phase.mem0, [b])| == 4 by {
      FourWrites(s.phase.mem0, b);
    }
    CommitEnds(limit, s, 4);
    RunsJoin(limit, s0, es, CommitSteps(4));
    LoggedJoin(es, CommitSteps(4));
    OneLogged(b, data);
  }

  lemma FourWrites(m: Disk, b: Home)
    requires IsHome(b)
    ensures |Writes(m, [b])| == 4
  {
  }

  lemma OneLogged(b: Home, data: Block)
    requires IsHome(b)
    ensures Logged([BeginOp, LogBlock(0, b, data), EndOp(0)]) == [Tagged(0, b, data)] && Logged(CommitSteps(4)) == []
  {
    var es := [BeginOp, LogBlock(0, b, data), EndOp(0)];
    LoggedFirst(es);
    LoggedFirst(es[1..]);
    assert es[1..][1..] == [EndOp(0)] && [EndOp(0)][1..] == [];
    assert [BeginOp][1..] == [] && [LogBlock(0, b, data)][1..] == [];
    NoneLogged(4);
  }

  lemma {:induction false} NoneLogged(n: nat)
    ensures Logged(CommitSteps(n)) == []
  {
    var es := CommitSteps(n);
    if n == 0 {
      assert es == [EndCommit] && es[1..] == [];
    } else {
      assert es[0] == CommitStep && es[1..] == CommitSteps(n - 1);
      NoneLogged(n - 1);
    }
  }

  /** Every block can be written for good: some run ends with it on the disk, and it is still there
      after a crash and a recovery. */
  lemma WriteSurvives(limit: nat, s0: State, b: Home, data: Block) returns (es: seq<Event>, rs: seq<Event>)
    requires Init(s0) && limit >= 1 && IsHome(b)
    ensures Runs(limit, s0, es) && Idle(Final(limit, s0, es)) && Final(limit, s0, es).disk[b] == data
    ensures OnlyRecovery(rs) && Runs(limit, Final(limit, s0, es), [Crash] + rs)
    ensures var t := Final(limit, Final(limit, s0, es), [Crash] + rs); t.phase.Running? && t.disk[b] == data
  {
    hide Runs, Final, Init, Logged, Perform, RecoveryWrites, HeaderOk, OneWrite, RecoverySteps;
    es := OneWrite(b, data);
    OneWriteRuns(limit, s0, b, data);
    IdleIsDurable(limit, s0, es);
    OnePerformed(s0.disk, b, data);
    var s := Final(limit, s0, es);
    ReachableRecovers(limit, s0, es);
    var c := Exec(limit, s, Crash);
    var n := |RecoveryWrites(s.disk)|;
    rs := RecoverySteps(n);
    RecoveryEnds(limit, c, n);
    CrashFirst(limit, s, rs);
    assert es[..|es|] == es;
    var k := PrefixSurvives(limit, s0, es, rs, |es|);
    assert Logged(es)[..k] == Logged(es);
  }

  lemma OnePerformed(d: Disk, b: Home, data: Block)
    requires IsHome(b)
    ensures Perform(d, [Tagged(0, b, data)]) == d[b := data]
  {
    var ts := [Tagged(0, b, data)];
    assert ts[..0] == [];
  }

  lemma CrashFirst(limit: nat, s: State, rs: seq<Event>)
    requires Enabled(limit, s, Crash) && Runs(limit, Exec(limit, s, Crash), rs)
    ensures Runs(limit, s, [Crash] + rs)
    ensures Final(limit, s, [Crash] + rs) == Final(limit, Exec(limit, s, Crash), rs)
  {
    hide Enabled, Exec;
    assert ([Crash] + rs)[1..] == rs;
  }
}
