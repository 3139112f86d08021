/** One file operation and the log together: a crash anywhere leaves all files as they were
    before the operation or as they are after it. */
module FileAtomicity {
  import opened Blocks
  import opened DiskLayout
  import opened LogSpec
  import opened LogMachine
  import opened LogRuns
  import opened Inodes
  import opened CrashSafety

  /** A kernel that mounts the disk finds the inodes and the contents of all files of f. */
  ghost predicate Shows(d: Disk, f: Fs) {
    && TableOf(d) == f.t && Sound(Fs(d, f.t, f.o))
    && forall n: nat | n < N_INODES :: Content(Fs(d, f.t, f.o), n) == Content(f, n)
  }

  lemma HomeShows(d: Disk, f: Fs)
    requires Sound(f) && Synced(f) && SameHome(d, f.d)
    ensures Shows(d, f)
  {
    hide GetInode, Owned, SlotOf;
    assert TableOf(f.d) == f.t;
    assert SameHome(f.d, d);
    SameOwners(f.d, d, f.o);
    forall i: nat | i < N_INODES ensures DiskInode(d, i) == DiskInode(f.d, i) {
      assert IsHome(InodeBlock(i));
    }
    assert TableOf(d) == f.t;
    forall n: nat | n < N_INODES ensures Content(Fs(d, f.t, f.o), n) == Content(f, n) {
      SameContent(d, f, n);
    }
  }

  lemma SameContent(d: Disk, f: Fs, n: nat)
    requires SameHome(d, f.d) && n < N_INODES
    ensures Content(Fs(d, f.t, f.o), n) == Content(f, n)
  {
    hide SlotOf, GetWord;
    forall x: nat | x < f.t[n].size ensures ByteAt(Fs(d, f.t, f.o), n, x) == ByteAt(f, n, x) {
    }
  }

  // ---------- the events of an operation ----------

  /** Begin, one log_write for each changed block, end, and the commit. */
  function Operation(bs: seq<Home>, e: Disk, n: nat): seq<Event> {
    Calls(bs, e) + CommitSteps(n)
  }

  function Calls(bs: seq<Home>, e: Disk): seq<Event> {
    [BeginOp] + Logs(0, bs, e) + [EndOp(0)]
  }

  /** What is logged, as writes. */
  function AsWrites(bs: seq<Home>, e: Disk): seq<Tagged> {
    if bs == [] then [] else [Tagged(0, bs[0], e[bs[0]])] + AsWrites(bs[1..], e)
  }

  lemma {:induction false} LogsLog(bs: seq<Home>, e: Disk)
    ensures Logged(Logs(0, bs, e)) == AsWrites(bs, e) && Crash !in Logs(0, bs, e) && CommitStep !in Logs(0, bs, e)
  {
    if bs != [] {
      var es := Logs(0, bs, e);
      assert es[1..] == Logs(0, bs[1..], e);
      LogsLog(bs[1..], e);
    }
  }

  lemma CallsLog(bs: seq<Home>, e: Disk)
    ensures Logged(Calls(bs, e)) == AsWrites(bs, e) && Crash !in Calls(bs, e) && CommitStep !in Calls(bs, e)
  {
    hide Logged, Logs, AsWrites;
    LogsLog(bs, e);
    LoggedJoin([BeginOp], Logs(0, bs, e));
    LoggedJoin([BeginOp] + Logs(0, bs, e), [EndOp(0)]);
    SilentEvents();
  }

  lemma SilentEvents()
    ensures Logged([BeginOp]) == Logged([EndOp(0)]) == []
  {
    assert [BeginOp][1..] == [] && [EndOp(0)][1..] == [];
  }

  lemma {:induction false} CommitLogsNothing(es: seq<Event>)
    requires forall x | x in es :: x.CommitStep? || x.EndCommit?
    ensures Logged(es) == []
  {
    if es != [] {
      assert es[0] in es;
      CommitLogsNothing(es[1..]);
    }
  }

  lemma LaterEvents(bs: seq<Home>, e: Disk, n: nat, k: nat)
    requires |Calls(bs, e)| < k <= |Operation(bs, e, n)|
    ensures var es := Operation(bs, e, n)[..k]; Crash !in es && Logged(es) == AsWrites(bs, e)
  {
    hide Logged, AsWrites, Calls;
    var calls, rest := Calls(bs, e), CommitSteps(n)[..k - |Calls(bs, e)|];
    assert Operation(bs, e, n)[..k] == calls + rest;
    assert forall x | x in rest :: x in CommitSteps(n);
    CommitLogsNothing(rest);
    CallsLog(bs, e);
    LoggedJoin(calls, rest);
  }

  /** Performing what is logged turns the old home blocks into the new ones. */
  lemma {:induction false} WritesPerform(d: Disk, bs: seq<Home>, e: Disk)
    requires LeftToLog(d, e, bs)
    ensures SameHome(Perform(d, AsWrites(bs, e)), e)
    decreases |bs|
  {
    hide Perform;
    if bs == [] {
      PerformNone(d);
    } else {
      var first := [Tagged(0, bs[0], e[bs[0]])];
      OnePerformed(d, bs[0], e[bs[0]]);
      PerformJoined(d, first, AsWrites(bs[1..], e));
      WritesPerform(d[bs[0] := e[bs[0]]], bs[1..], e);
    }
  }

  lemma {:induction false} WritesAreOneOp(bs: seq<Home>, e: Disk)
    ensures forall i | 0 <= i < |AsWrites(bs, e)| :: AsWrites(bs, e)[i].op == 0
  {
    if bs != [] {
      WritesAreOneOp(bs[1..], e);
    }
  }

  lemma OneOpIsWhole(ts: seq<Tagged>, n: nat)
    requires WholeOps(ts, n) && forall i | 0 <= i < |ts| :: ts[i].op == 0
    ensures n == 0 || n == |ts|
  {
    assert ts != [] ==> ts[0].op == 0;
    assert n < |ts| ==> ts[n].op == 0;
  }

  // ---------- an operation runs to its end ----------

  /** The state in the middle of an operation that has logged some blocks. */
  ghost predicate Logging(s: State, done: seq<Home>) {
    && s.phase.Running? && s.outstanding == 1 && !s.committing && s.hs == done
    && 0 in s.active && |s.active| == 1 && |s.active[0]| <= |done|
  }

  lemma LogsOne(limit: nat, s: State, done: seq<Home>, b: Home, data: Block)
    requires Logging(s, done) && b !in done && |done| < limit && HeaderList(done + [b])
    ensures Enabled(limit, s, LogBlock(0, b, data)) && Logging(Exec(limit, s, LogBlock(0, b, data)), done + [b])
  {
    hide CommitWrites, RecoveryWrites, HeaderOk, HeaderList;
    HeaderFits(done + [b]);
    assert |s.active[0] + {b}| <= |s.active[0]| + 1;
    assert s.active[0 := s.active[0] + {b}].Keys == s.active.Keys;
  }

  lemma HeaderFits(hs: seq<Word>)
    requires HeaderList(hs)
    ensures |hs| < LOG_SIZE
  {
  }

  lemma {:induction false} LogsRun(limit: nat, s: State, done: seq<Home>, bs: seq<Home>, e: Disk)
    requires Logging(s, done) && HeaderList(done + bs) && |done + bs| <= limit
    ensures Runs(limit, s, Logs(0, bs, e)) && Logging(Final(limit, s, Logs(0, bs, e)), done + bs)
    decreases |bs|
  {
    hide Enabled, Exec, Logging;
    if bs == [] {
      assert done + bs == done;
    } else {
      var b, rest := bs[0], bs[1..];
      assert done + [b] + rest == done + bs;
      Parts(done, bs);
      LogsOne(limit, s, done, b, e[b]);
      var t := Exec(limit, s, LogBlock(0, b, e[b]));
      LogsRun(limit, t, done + [b], rest, e);
      assert Logs(0, bs, e)[1..] == Logs(0, rest, e);
    }
  }

  lemma Parts(done: seq<Home>, bs: seq<Home>)
    requires HeaderList(done + bs) && bs != []
    ensures HeaderList(done + [bs[0]]) && bs[0] !in done
  {
    var all := done + bs;
    assert all[|done|] == bs[0];
    forall i | 0 <= i < |done| ensures done[i] == all[i] && done[i] != bs[0] {
    }
  }

  /** Every list of distinct home blocks that is not longer than the budget can be logged and
      committed in one operation. */
  lemma OperationRuns(limit: nat, d: Disk, bs: seq<Home>, e: Disk)
    requires HeaderOk(d) && HeaderOf(d[LOG_START]) == [] && HeaderList(bs) && 0 < |bs| <= limit
    ensures var es := Operation(bs, e, 2 * |bs| + 2);
            Runs(limit, Mounted(d), es) && Idle(Final(limit, Mounted(d), es))
  {
    hide Runs, Final, CommitWrites, HeaderOk, HeaderOf, Logging, CommitSteps;
    var s0 := Mounted(d);
    Begins(limit, d);
    var s1 := Exec(limit, s0, BeginOp);
    assert [] + bs == bs;
    LogsRun(limit, s1, [], bs, e);
    var s2 := Final(limit, s1, Logs(0, bs, e));
    FirstStep(limit, s0, BeginOp, Logs(0, bs, e));
    Ends(limit, s2, bs);
    RunsAppend(limit, s0, [BeginOp] + Logs(0, bs, e), EndOp(0));
    var s3 := Exec(limit, s2, EndOp(0));
    CommitEnds(limit, s3, 2 * |bs| + 2);
    RunsJoin(limit, s0, Calls(bs, e), CommitSteps(2 * |bs| + 2));
  }

  lemma Begins(limit: nat, d: Disk)
    ensures Enabled(limit, Mounted(d), BeginOp) && Logging(Exec(limit, Mounted(d), BeginOp), [])
  {
    hide CommitWrites, RecoveryWrites, HeaderOk;
  }

  lemma Ends(limit: nat, s: State, bs: seq<Home>)
    requires Logging(s, bs) && bs != []
    ensures Enabled(limit, s, EndOp(0))
    ensures var t := Exec(limit, s, EndOp(0));
            && t.phase.Committing? && t.phase.k == 0 && t.outstanding == 0
            && |Writes(t.phase.mem0, t.phase.list)| == 2 * |bs| + 2
  {
    hide RecoveryWrites, HeaderOk;
  }

  // ---------- crashes ----------

  /** Without a step of a commit nothing is committed. */
  lemma {:induction false} NoStepNoGroup(limit: nat, s: State, es: seq<Event>)
    requires Runs(limit, s, es) && CommitStep !in es
    ensures Final(limit, s, es).groups == s.groups
    decreases |es|
  {
    if es != [] {
      assert es[0] in es;
      SameGroups(limit, s, es[0]);
      hide Enabled, Exec;
      assert forall x | x in es[1..] :: x in es;
      NoStepNoGroup(limit, Exec(limit, s, es[0]), es[1..]);
    }
  }

  lemma SameGroups(limit: nat, s: State, e: Event)
    requires Enabled(limit, s, e) && !e.CommitStep?
    ensures Exec(limit, s, e).groups == s.groups
  {
    hide CommitWrites, RecoveryWrites, HeaderOk;
  }

  /** The first part of a run of the calls: the disk keeps the old home blocks. */
  lemma EarlyCrash(limit: nat, d: Disk, es: seq<Event>, rs: seq<Event>)
    requires HeaderOk(d) && HeaderOf(d[LOG_START]) == [] && Runs(limit, Mounted(d), es) && CommitStep !in es
    requires Runs(limit, Final(limit, Mounted(d), es), [Crash] + rs) && OnlyRecovery(rs)
    requires Final(limit, Final(limit, Mounted(d), es), [Crash] + rs).phase.Running?
    ensures SameHome(Final(limit, Final(limit, Mounted(d), es), [Crash] + rs).disk, d)
  {
    hide Runs, Final, OnlyRecovery, SameHome, HeaderOk, HeaderOf;
    NoStepNoGroup(limit, Mounted(d), es);
    CrashAtomicity(limit, Mounted(d), es, rs);
  }

  /** From the commit on: the old home blocks or the new ones. */
  lemma LateCrash(limit: nat, d: Disk, bs: seq<Home>, e: Disk, es: seq<Event>, rs: seq<Event>)
    requires HeaderOk(d) && HeaderOf(d[LOG_START]) == [] && LeftToLog(d, e, bs)
    requires Runs(limit, Mounted(d), es) && Crash !in es && Logged(es) == AsWrites(bs, e)
    requires !Final(limit, Mounted(d), es).phase.Panicked?
    requires Runs(limit, Final(limit, Mounted(d), es), [Crash] + rs) && OnlyRecovery(rs)
    requires Final(limit, Final(limit, Mounted(d), es), [Crash] + rs).phase.Running?
    ensures var t := Final(limit, Final(limit, Mounted(d), es), [Crash] + rs);
            && (SameHome(t.disk, d) || SameHome(t.disk, e))
            && (Idle(Final(limit, Mounted(d), es)) ==> SameHome(t.disk, e))
  {
    hide OnlyRecovery, HeaderOk, HeaderOf, Perform, AsWrites, Logged, LeftToLog;
    var s, t := Final(limit, Mounted(d), es), Final(limit, Final(limit, Mounted(d), es), [Crash] + rs);
    var i := if Idle(s) then |es| else 0;
    assert es[..0] == [] && es[..|es|] == es;
    var n := PrefixSurvives(limit, Mounted(d), es, rs, i);
    WritesAreOneOp(bs, e);
    var ts := Logged(es);
    OneOpIsWhole(ts, n);
    WritesPerform(d, bs, e);
    PerformNone(d);
    if n == |ts| {
      assert ts[..n] == ts;
      SameHomeTransitive(t.disk, Perform(d, ts), e);
    } else {
      assert ts[..n] == [];
    }
  }

  /** Atomicity at the level of files: take any operation that logs every block it has changed, stop
      it after any number of its events, crash, recover, crash again during recovery. The kernel
      then finds every file as it was before the operation, or every file as it is after it; and
      after it, if the operation's commit had ended. */
  lemma OperationIsAtomic(limit: nat, f: Fs, g: Fs, bs: seq<Home>, n: nat, k: nat, rs: seq<Event>)
    requires Sound(f) && Synced(f) && HeaderOk(f.d) && HeaderOf(f.d[LOG_START]) == []
    requires Sound(g) && Synced(g) && LeftToLog(f.d, g.d, bs)
    requires k <= |Operation(bs, g.d, n)| && Runs(limit, Mounted(f.d), Operation(bs, g.d, n)[..k])
    requires !Final(limit, Mounted(f.d), Operation(bs, g.d, n)[..k]).phase.Panicked?
    requires var s := Final(limit, Mounted(f.d), Operation(bs, g.d, n)[..k]);
             Runs(limit, s, [Crash] + rs) && OnlyRecovery(rs) && Final(limit, s, [Crash] + rs).phase.Running?
    ensures var s := Final(limit, Mounted(f.d), Operation(bs, g.d, n)[..k]);
            var t := Final(limit, s, [Crash] + rs);
            (Shows(t.disk, f) || Shows(t.disk, g)) && (k > |Calls(bs, g.d)| && Idle(s) ==> Shows(t.disk, g))
  {
    hide Sound, Synced, HeaderOk, HeaderOf, LeftToLog, Runs, Final, OnlyRecovery, Shows, Calls, CommitSteps, SameHome;
    var es, calls := Operation(bs, g.d, n)[..k], Calls(bs, g.d);
    var t := Final(limit, Final(limit, Mounted(f.d), es), [Crash] + rs);
    CallsLog(bs, g.d);
    if k <= |calls| {
      assert es == calls[..k];
      assert forall x | x in es :: x in calls;
      EarlyCrash(limit, f.d, es, rs);
      HomeShows(t.disk, f);
    } else {
      LaterEvents(bs, g.d, n, k);
      LateCrash(limit, f.d, bs, g.d, es, rs);
      if SameHome(t.disk, g.d) {
        HomeShows(t.disk, g);
      } else {
        HomeShows(t.disk, f);
      }
    }
  }
}
