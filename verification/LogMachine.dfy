/** The log under concurrent operations, commits and crashes, as a state machine whose
    steps are the critical sections of begin_op, log_write and end_op, the single block
    writes of commit and recovery, and a crash at any moment. */
module LogMachine {
  import opened Blocks
  import opened DiskLayout
  import opened LogSpec

  type Home = b: Word | IsHome(b) witness 0

  type Header = hs: seq<Word> | HeaderList(hs) witness []

  /** One logged block write, tagged with the operation that made it. */
  datatype Tagged = Tagged(op: nat, bno: Home, data: Block)

  /** What the committing or recovering process is doing. The disk and the cache at the
      start of a commit, and the disk at the start of a recovery, fix its list of writes. */
  datatype Phase =
    | Running
    | Committing(disk0: Disk, mem0: Disk, list: Header, k: nat)
    | Recovering(disk0: Disk, k: nat)
    | Panicked

  /** `mem` is the plain block store that the buffer cache presents; `active` gives, for
      each outstanding operation, the distinct blocks it has logged. `pending` and `groups`
      are history: the writes since the last commit, and those of every committed group. */
  datatype State = State(
    disk: Disk, mem: Disk, hs: Header, outstanding: int, committing: bool, phase: Phase,
    active: map<nat, set<Word>>, next: nat,
    pending: seq<Tagged>, groups: seq<seq<Tagged>>)

  datatype Event =
    | BeginOp
    | LogBlock(op: nat, bno: Home, data: Block)
    | EndOp(op: nat)
    | CommitStep
    | EndCommit
    | Crash
    | RecoverStep
    | EndRecovery

  function Writes(mem0: Disk, list: Header): (ws: seq<Write>)
    ensures InRange(ws)
  {
    if list == [] then [] else CommitWrites(mem0, list)
  }

  // ---------- steps ----------

  /** `limit` bounds the distinct blocks that one operation logs. */
  predicate Enabled(limit: nat, s: State, e: Event) {
    match e
    case BeginOp =>
      && (s.phase.Running? || s.phase.Committing?)
      && !s.committing && |s.hs| + (s.outstanding + 1) * MAX_OP_BLKS <= LOG_SIZE
    case LogBlock(op, bno, _) =>
      && (s.phase.Running? || s.phase.Committing?)
      && op in s.active && |s.active[op] + {bno}| <= limit
    case EndOp(op) => (s.phase.Running? || s.phase.Committing?) && op in s.active
    case CommitStep => s.phase.Committing? && s.phase.k < |Writes(s.phase.mem0, s.phase.list)|
    case EndCommit => s.phase.Committing? && s.phase.k == |Writes(s.phase.mem0, s.phase.list)|
    case Crash => HeaderOk(s.disk)
    case RecoverStep =>
      s.phase.Recovering? && HeaderOk(s.phase.disk0) && s.phase.k < |RecoveryWrites(s.phase.disk0)|
    case EndRecovery =>
      s.phase.Recovering? && HeaderOk(s.phase.disk0) && s.phase.k == |RecoveryWrites(s.phase.disk0)|
  }

  /** One block write of the commit; the write of the header makes the group count. */
  function CommitNext(s: State): State
    requires s.phase.Committing? && s.phase.k < |Writes(s.phase.mem0, s.phase.list)|
  {
    var Committing(disk0, mem0, list, k) := s.phase;
    var ws := Writes(mem0, list);
    var t := s.(disk := s.disk[ws[k].bno := ws[k].data],
                mem := s.mem[ws[k].bno := ws[k].data],
                phase := Committing(disk0, mem0, list, k + 1),
                hs := if k + 1 == |ws| then [] else s.hs);
    if k == |list| then t.(groups := s.groups + [s.pending], pending := []) else t
  }

  function Exec(limit: nat, s: State, e: Event): State
    requires Enabled(limit, s, e)
  {
    match e
    case BeginOp =>
      s.(outstanding := s.outstanding + 1, active := s.active[s.next := {}], next := s.next + 1)
    case LogBlock(op, bno, data) =>
      if |s.hs| >= LOG_SIZE - 1 || s.outstanding < 1 then s.(phase := Panicked)
      else
        s.(mem := s.mem[bno := data],
           hs := if bno in s.hs then s.hs else s.hs + [bno],
           active := s.active[op := s.active[op] + {bno}],
           pending := s.pending + [Tagged(op, bno, data)])
    case EndOp(op) =>
      var t := s.(outstanding := s.outstanding - 1, active := s.active - {op});
      if s.committing then t.(phase := Panicked)
      else if t.outstanding == 0 then
        t.(committing := true, phase := Committing(s.disk, s.mem, s.hs, 0))
      else t
    case CommitStep => CommitNext(s)
    case EndCommit => s.(committing := false, phase := Running)
    case Crash =>
      s.(mem := s.disk, hs := [], outstanding := 0, committing := false,
         phase := Recovering(s.disk, 0), active := map[], pending := [])
    case RecoverStep =>
      var Recovering(disk0, k) := s.phase;
      var w := RecoveryWrites(disk0)[k];
      s.(disk := s.disk[w.bno := w.data], mem := s.mem[w.bno := w.data],
         phase := Recovering(disk0, k + 1))
    case EndRecovery => s.(phase := Running)
  }

  predicate Runs(limit: nat, s: State, es: seq<Event>)
    decreases |es|
  {
    es == [] || (Enabled(limit, s, es[0]) && Runs(limit, Exec(limit, s, es[0]), es[1..]))
  }

  function Final(limit: nat, s: State, es: seq<Event>): State
    requires Runs(limit, s, es)
    decreases |es|
  {
    if es == [] then s else Final(limit, Exec(limit, s, es[0]), es[1..])
  }

  /** A freshly mounted disk with an empty log. */
  predicate Init(s: State) {
    && HeaderOk(s.disk) && HeaderOf(s.disk[LOG_START]) == []
    && s == State(s.disk, s.disk, [], 0, false, Running, map[], 0, [], [])
  }

  // ---------- the sequential meaning of the committed groups ----------

  function Perform(d: Disk, ts: seq<Tagged>): Disk {
    if ts == [] then d
    else
      var t := ts[|ts| - 1];
      Perform(d, ts[..|ts| - 1])[t.bno := t.data]
  }

  /** The disk after the committed groups, one after another. */
  function Replay(d: Disk, gs: seq<seq<Tagged>>): Disk {
    if gs == [] then d else Perform(Replay(d, gs[..|gs| - 1]), gs[|gs| - 1])
  }

  // ---------- invariant ----------

  ghost predicate PendingLogged(s: State) {
    && (forall i | 0 <= i < |s.pending| :: s.pending[i].bno in s.hs)
    && (forall op | op in s.active :: forall b | b in s.active[op] :: b in s.hs)
  }

  /** What the phase says about disk, cache and history. `root` is the disk at the start. */
  ghost predicate PhaseInv(root: Disk, s: State) {
    match s.phase
    case Running =>
      && Committable(s.disk, s.mem, s.hs)
      && SameHome(s.mem, Perform(Replay(root, s.groups), s.pending))
      && (s.outstanding == 0 ==> s.hs == [])
    case Committing(disk0, mem0, list, k) =>
      var ws := Writes(mem0, list);
      && Committable(disk0, mem0, list)
      && k <= |ws|
      && s.disk == Apply(disk0, ws[..k]) && s.mem == Apply(mem0, ws[..k])
      && s.hs == (if k < |ws| then list else [])
      && s.active == map[]
      && (k <= |list| ==> SameHome(disk0, Replay(root, s.groups)))
      && (if k <= |list| && list != [] then
            SameHome(mem0, Perform(Replay(root, s.groups), s.pending))
          else s.pending == [] && SameHome(mem0, Replay(root, s.groups)))
    case Recovering(disk0, k) =>
      && HeaderOk(disk0) && k <= |RecoveryWrites(disk0)|
      && s.disk == Apply(disk0, RecoveryWrites(disk0)[..k])
      && s.mem == s.disk && s.hs == [] && s.pending == []
      && s.active == map[]
      && SameHome(Recovered(disk0), Replay(root, s.groups))
    case Panicked => true
  }

  ghost predicate Inv(root: Disk, s: State) {
    && HeaderOk(s.disk)
    && SameHome(Recovered(s.disk), Replay(root, s.groups))
    && (!s.phase.Panicked? ==>
          && s.outstanding == |s.active|
          && s.committing == s.phase.Committing?
          && (forall op | op in s.active :: op < s.next)
          && PendingLogged(s))
    && PhaseInv(root, s)
  }

  // ---------- small facts ----------

  lemma {:induction false} SameStep(d: Disk, e: Disk, ws: seq<Write>, b: nat)
    requires InRange(ws) && b < N_BLKS && d[b] == e[b]
    ensures Apply(d, ws)[b] == Apply(e, ws)[b]
  {
    if ws != [] {
      SameStep(d, e, ws[..|ws| - 1], b);
    }
  }

  /** Commit makes the disk equal to the cache, block for block. */
  lemma CommitSyncs(d: Disk, m: Disk, list: Header)
    requires Committable(d, m, list)
    ensures Apply(d, Writes(m, list)) == Apply(m, Writes(m, list))
  {
    var ws := Writes(m, list);
    forall b: nat | b < N_BLKS ensures Apply(d, ws)[b] == Apply(m, ws)[b] {
      if b in list {
        var i :| 0 <= i < |list| && list[i] == b;
        var full := PutHeader(m[LOG_START], list);
        CommitInstalls(d, m, list, full, PutHeader(full, []), i);
        CommitInstalls(m, m, list, full, PutHeader(full, []), i);
      } else {
        SameStep(d, m, ws, b);
      }
    }
  }

  lemma EmptyHeaderRecovers(d: Disk)
    requires HeaderOk(d) && HeaderOf(d[LOG_START]) == []
    ensures SameHome(Recovered(d), d)
  {
    RecoversTo(d, [], d);
  }

  // ---------- every step keeps the invariant ----------

  lemma PerformLast(d: Disk, ts: seq<Tagged>)
    requires ts != []
    ensures var t := ts[|ts| - 1]; Perform(d, ts) == Perform(d, ts[..|ts| - 1])[t.bno := t.data]
  {
  }

  lemma ReplayLast(root: Disk, groups: seq<seq<Tagged>>)
    requires groups != []
    ensures Replay(root, groups) == Perform(Replay(root, groups[..|groups| - 1]), groups[|groups| - 1])
  {
  }

  lemma CommitStepKeeps(limit: nat, root: Disk, s: State)
    requires Inv(root, s) && Enabled(limit, s, CommitStep)
    ensures Inv(root, Exec(limit, s, CommitStep))
  {
    hide Apply, CommitWrites, RecoveryWrites, HeaderOk, HeaderOf, Recovered, SameHome, Perform, Replay, Committable;
    var Committing(disk0, mem0, list, k) := s.phase;
    var ws := Writes(mem0, list);
    var t := Exec(limit, s, CommitStep);
    ApplyNext(disk0, ws, k);
    ApplyNext(mem0, ws, k);
    CommitCrash(disk0, mem0, list, k);
    CommitCrash(disk0, mem0, list, k + 1);
    if k == |list| {
      assert t.groups[..|t.groups| - 1] == s.groups;
      ReplayLast(root, t.groups);
    }
    if k < |list| {
      SameHomeTransitive(Recovered(t.disk), disk0, Replay(root, t.groups));
    } else {
      SameHomeTransitive(Recovered(t.disk), mem0, Replay(root, t.groups));
    }
  }

  lemma EndCommitKeeps(limit: nat, root: Disk, s: State)
    requires Inv(root, s) && Enabled(limit, s, EndCommit)
    ensures Inv(root, Exec(limit, s, EndCommit))
  {
    var Committing(disk0, mem0, list, k) := s.phase;
    var ws := Writes(mem0, list);
    assert ws[..k] == ws;
    CommitSyncs(disk0, mem0, list);
    if list != [] {
      CommitFinished(disk0, mem0, list);
    }
  }

  lemma RecoverStepKeeps(limit: nat, root: Disk, s: State)
    requires Inv(root, s) && Enabled(limit, s, RecoverStep)
    ensures Inv(root, Exec(limit, s, RecoverStep))
  {
    hide Apply, CommitWrites, RecoveryWrites, HeaderOk, Recovered, SameHome, Perform, Replay;
    ApplyNext(s.phase.disk0, RecoveryWrites(s.phase.disk0), s.phase.k);
    RecoveryCrash(s.phase.disk0, s.phase.k + 1);
    var t := Exec(limit, s, RecoverStep);
    SameHomeTransitive(Recovered(t.disk), Recovered(s.phase.disk0), Replay(root, t.groups));
  }

  lemma EndRecoveryKeeps(limit: nat, root: Disk, s: State)
    requires Inv(root, s) && Enabled(limit, s, EndRecovery)
    ensures Inv(root, Exec(limit, s, EndRecovery))
  {
    var ws := RecoveryWrites(s.phase.disk0);
    assert ws[..s.phase.k] == ws;
    RecoveredAt(s.phase.disk0);
  }

  lemma CrashKeeps(limit: nat, root: Disk, s: State)
    requires Inv(root, s)
    ensures Enabled(limit, s, Crash) && Inv(root, Exec(limit, s, Crash))
  {
  }

  lemma BeginKeeps(limit: nat, root: Disk, s: State)
    requires Inv(root, s) && Enabled(limit, s, BeginOp)
    ensures Inv(root, Exec(limit, s, BeginOp))
  {
  }

  lemma StillCommittable(disk: Disk, mem: Disk, hs: seq<Word>, bno: Home, data: Block)
    requires |hs| < LOG_SIZE - 1 && IsHome(bno)
    ensures Committable(disk, mem, hs) ==>
              Committable(disk, mem[bno := data], if bno in hs then hs else hs + [bno])
  {
    hide HeaderOk, HeaderOf;
  }

  lemma SameHomeLogged(d: Disk, e: Disk, bno: Home, data: Block)
    ensures SameHome(d, e) ==> SameHome(d[bno := data], e[bno := data])
  {
  }

  lemma LogBlockKeeps(limit: nat, root: Disk, s: State, op: nat, bno: Home, data: Block)
    requires Inv(root, s) && Enabled(limit, s, LogBlock(op, bno, data))
    ensures Inv(root, Exec(limit, s, LogBlock(op, bno, data)))
  {
    hide Apply, CommitWrites, RecoveryWrites, HeaderOk, HeaderOf, Recovered, Replay, Perform, SameHome, Committable;
    var t := Exec(limit, s, LogBlock(op, bno, data));
    if !t.phase.Panicked? {
      StillCommittable(s.disk, s.mem, s.hs, bno, data);
      SameHomeLogged(s.mem, Perform(Replay(root, s.groups), s.pending), bno, data);
      assert t.pending[..|t.pending| - 1] == s.pending;
      PerformLast(Replay(root, s.groups), t.pending);
      assert t.active.Keys == s.active.Keys;
      assert forall b | b in s.hs :: b in t.hs;
    }
  }

  lemma EndOpKeeps(limit: nat, root: Disk, s: State, op: nat)
    requires Inv(root, s) && Enabled(limit, s, EndOp(op))
    ensures !s.committing
    ensures Inv(root, Exec(limit, s, EndOp(op)))
  {
    hide CommitWrites, RecoveryWrites, HeaderOk, HeaderOf, Recovered;
    var t := Exec(limit, s, EndOp(op));
    assert t.active.Keys == s.active.Keys - {op};
    if t.phase.Committing? {
      assert |t.active.Keys| == 0;
      assert t.active == map[];
      EmptyHeaderRecovers(s.disk);
      assert s.hs == [] ==> s.pending == [];
      assert Writes(s.mem, s.hs)[..0] == [];
    }
  }

  lemma StepKeeps(limit: nat, root: Disk, s: State, e: Event)
    requires Inv(root, s) && Enabled(limit, s, e)
    ensures Inv(root, Exec(limit, s, e))
  {
    hide Inv, Exec;
    match e
    case BeginOp => BeginKeeps(limit, root, s);
    case LogBlock(op, bno, data) => LogBlockKeeps(limit, root, s, op, bno, data);
    case EndOp(op) => EndOpKeeps(limit, root, s, op);
    case CommitStep => CommitStepKeeps(limit, root, s);
    case EndCommit => EndCommitKeeps(limit, root, s);
    case Crash => CrashKeeps(limit, root, s);
    case RecoverStep => RecoverStepKeeps(limit, root, s);
    case EndRecovery => EndRecoveryKeeps(limit, root, s);
  }

  lemma {:induction false} RunKeeps(limit: nat, root: Disk, s: State, es: seq<Event>)
    requires Inv(root, s) && Runs(limit, s, es)
    ensures Inv(root, Final(limit, s, es))
    decreases |es|
  {
    if es != [] {
      StepKeeps(limit, root, s, es[0]);
      RunKeeps(limit, root, Exec(limit, s, es[0]), es[1..]);
    }
  }

  lemma InitInv(s: State)
    requires Init(s)
    ensures Inv(s.disk, s)
  {
    EmptyHeaderRecovers(s.disk);
  }

  // ---------- crash atomicity over all runs ----------

  /** In every reachable state a crash is survivable: recovery would yield exactly the
      committed groups, performed in order on the initial disk; and what operations read
      from the cache is that, followed by the writes not yet committed. */
  lemma ReachableRecovers(limit: nat, s0: State, es: seq<Event>)
    requires Init(s0) && Runs(limit, s0, es)
    ensures var s := Final(limit, s0, es);
            && HeaderOk(s.disk)
            && SameHome(Recovered(s.disk), Replay(s0.disk, s.groups))
            && (s.phase.Running? ==> SameHome(s.mem, Perform(Replay(s0.disk, s.groups), s.pending)))
  {
    InitInv(s0);
    RunKeeps(limit, s0.disk, s0, es);
  }

  predicate OnlyRecovery(es: seq<Event>) {
    forall i | 0 <= i < |es| :: es[i].Crash? || es[i].RecoverStep? || es[i].EndRecovery?
  }

  lemma {:induction false} RecoveryKeepsGroups(limit: nat, s: State, es: seq<Event>)
    requires Runs(limit, s, es) && OnlyRecovery(es)
    ensures Final(limit, s, es).groups == s.groups
    ensures s.pending == [] ==> Final(limit, s, es).pending == []
    decreases |es|
  {
    if es != [] {
      RecoveryKeepsGroups(limit, Exec(limit, s, es[0]), es[1..]);
    }
  }

  /** Crash atomicity: stop any run anywhere, crash, and recover, crashing again during
      recovery any number of times. Once recovery ends, the home blocks on the disk are
      those of the groups committed before the first crash, and of nothing else. */
  lemma CrashAtomicity(limit: nat, s0: State, es: seq<Event>, rs: seq<Event>)
    requires Init(s0) && Runs(limit, s0, es)
    requires Runs(limit, Final(limit, s0, es), [Crash] + rs) && OnlyRecovery(rs)
    ensures var s := Final(limit, s0, es);
            var t := Final(limit, s, [Crash] + rs);
            t.phase.Running? ==> t.mem == t.disk && SameHome(t.disk, Replay(s0.disk, s.groups))
  {
    var s := Final(limit, s0, es);
    InitInv(s0);
    RunKeeps(limit, s0.disk, s0, es);
    var c := Exec(limit, s, Crash);
    assert ([Crash] + rs)[0] == Crash && ([Crash] + rs)[1..] == rs;
    StepKeeps(limit, s0.disk, s, Crash);
    RunKeeps(limit, s0.disk, c, rs);
    RecoveryKeepsGroups(limit, c, rs);
    RecoveryKeepsIdle(limit, c, rs);
  }

  lemma {:induction false} RecoveryKeepsIdle(limit: nat, s: State, es: seq<Event>)
    requires Runs(limit, s, es) && OnlyRecovery(es)
    requires s.hs == [] && s.mem == s.disk
    ensures Final(limit, s, es).mem == Final(limit, s, es).disk
    decreases |es|
  {
    if es != [] {
      RecoveryKeepsIdle(limit, Exec(limit, s, es[0]), es[1..]);
    }
  }

  // ---------- nothing is lost, duplicated or reordered without a crash ----------

  function Flat(gs: seq<seq<Tagged>>): seq<Tagged> {
    if gs == [] then [] else Flat(gs[..|gs| - 1]) + gs[|gs| - 1]
  }

  function Logged(es: seq<Event>): seq<Tagged> {
    if es == [] then []
    else
      (if es[0].LogBlock? then [Tagged(es[0].op, es[0].bno, es[0].data)] else []) + Logged(es[1..])
  }

  lemma StepKeepsAll(limit: nat, s: State, e: Event)
    requires Enabled(limit, s, e) && !e.Crash?
    ensures var t := Exec(limit, s, e);
            !t.phase.Panicked? ==>
              Flat(t.groups) + t.pending == Flat(s.groups) + s.pending + Logged([e])
  {
    hide CommitWrites, RecoveryWrites, HeaderOk;
    var t := Exec(limit, s, e);
    if e.CommitStep? && s.phase.k == |s.phase.list| {
      assert t.groups[..|t.groups| - 1] == s.groups;
    }
  }

  /** Without a crash, the committed groups followed by the open writes are exactly the
      writes that operations logged, in the order they logged them. */
  lemma {:induction false} CrashFreeKeepsAll(limit: nat, s: State, es: seq<Event>)
    requires Runs(limit, s, es) && Crash !in es
    ensures var t := Final(limit, s, es);
            !t.phase.Panicked? ==>
              Flat(t.groups) + t.pending == Flat(s.groups) + s.pending + Logged(es)
    decreases |es|
  {
    hide Exec, Flat;
    if es != [] {
      var m := Exec(limit, s, es[0]);
      StepKeepsAll(limit, s, es[0]);
      CrashFreeKeepsAll(limit, m, es[1..]);
      assert es[1..] != [] ==> es[1..][0] in es;
      if !m.phase.Panicked? {
        var before, first, rest := Flat(s.groups) + s.pending, Logged([es[0]]), Logged(es[1..]);
        assert Logged(es) == first + rest;
        assert (before + first) + rest == before + (first + rest);
      }
    }
  }

  // ---------- one group per operation ----------

  ghost predicate Below(ts: seq<Tagged>, n: nat) {
    forall i | 0 <= i < |ts| :: ts[i].op < n
  }

  /** Every operation of an earlier group is older than every one of a later group. */
  ghost predicate Separate(gs: seq<seq<Tagged>>) {
    forall g, h, i, j | 0 <= g < h < |gs| && 0 <= i < |gs[g]| && 0 <= j < |gs[h]| ::
      gs[g][i].op < gs[h][j].op
  }

  /** Some operation number `m` divides the committed groups from all that is still open. */
  ghost predicate Divides(s: State, m: nat) {
    && m <= s.next
    && (forall g | 0 <= g < |s.groups| :: Below(s.groups[g], m))
    && Below(s.pending, s.next)
    && (forall i | 0 <= i < |s.pending| :: m <= s.pending[i].op)
    && (forall op | op in s.active :: m <= op < s.next)
  }

  lemma StepSeparates(limit: nat, root: Disk, s: State, e: Event, m: nat) returns (n: nat)
    requires Inv(root, s) && Enabled(limit, s, e)
    requires Separate(s.groups) && Divides(s, m)
    ensures Separate(Exec(limit, s, e).groups) && Divides(Exec(limit, s, e), n)
  {
    hide Apply, CommitWrites, RecoveryWrites, HeaderOk, Recovered, SameHome, Committable, Perform, Replay;
    hide PendingLogged;
    n := if e.CommitStep? && s.phase.k == |s.phase.list| then s.next else m;
  }

  /** All the writes of one operation land in the same commit group: two groups never hold
      writes of the same operation, and an operation still open has none in any group. */
  lemma {:induction false} OneGroupPerOp(limit: nat, root: Disk, s: State, es: seq<Event>, m: nat)
    requires Inv(root, s) && Runs(limit, s, es)
    requires Separate(s.groups) && Divides(s, m)
    ensures var t := Final(limit, s, es);
            && Separate(t.groups)
            && (forall op, g, i | op in t.active && 0 <= g < |t.groups| && 0 <= i < |t.groups[g]| ::
                  t.groups[g][i].op != op)
    decreases |es|
  {
    if es == [] {
      forall op, g, i | op in s.active && 0 <= g < |s.groups| && 0 <= i < |s.groups[g]|
        ensures s.groups[g][i].op != op
      {
        assert Below(s.groups[g], m);
      }
    } else {
      var n := StepSeparates(limit, root, s, es[0], m);
      StepKeeps(limit, root, s, es[0]);
      OneGroupPerOp(limit, root, Exec(limit, s, es[0]), es[1..], n);
    }
  }

  // ---------- the commit protocol ----------

  /** While a commit is in progress no operation is outstanding, so end_op's panic cannot
      fire, no operation can begin, and no block can be logged: the header list is frozen. */
  lemma CommitIsExclusive(limit: nat, s0: State, es: seq<Event>, e: Event)
    requires Init(s0) && Runs(limit, s0, es)
    requires var s := Final(limit, s0, es); s.committing && Enabled(limit, s, e)
    ensures var s := Final(limit, s0, es);
            !s.phase.Panicked? ==>
              && s.outstanding == 0
              && (e.CommitStep? || e.EndCommit? || e.Crash?)
              && (e.CommitStep? && s.phase.k + 1 < |Writes(s.phase.mem0, s.phase.list)| ==>
                    Exec(limit, s, e).hs == s.hs)
  {
    InitInv(s0);
    RunKeeps(limit, s0.disk, s0, es);
  }

  // ---------- space in the log ----------

  /** Reservations not yet used, at `per` blocks for each operation numbered below `n`. */
  function Unused(active: map<nat, set<Word>>, per: int, n: nat): int {
    if n == 0 then 0
    else Unused(active, per, n - 1) + if n - 1 in active then per - |active[n - 1]| else 0
  }

  lemma {:induction false} UnusedUpdate(a: map<nat, set<Word>>, b: map<nat, set<Word>>, op: nat, per: int, n: nat)
    requires forall k: nat | k != op :: (k in a <==> k in b) && (k in a ==> a[k] == b[k])
    ensures Unused(b, per, n) - Unused(a, per, n) ==
            if op < n then (if op in b then per - |b[op]| else 0) - (if op in a then per - |a[op]| else 0)
            else 0
  {
    if n > 0 {
      UnusedUpdate(a, b, op, per, n - 1);
    }
  }

  ghost predicate WithinLimit(limit: nat, s: State) {
    && (forall op | op in s.active :: |s.active[op]| <= limit)
    && (forall op | op in s.active :: op < s.next)
  }

  /** The space promise, for a reservation of `per` blocks each and a capacity `cap`. */
  ghost predicate Fits(limit: nat, per: int, cap: int, s: State) {
    WithinLimit(limit, s) && |s.hs| + Unused(s.active, per, s.next) <= cap
  }

  lemma {:induction false} UnusedNone(per: int, n: nat)
    ensures Unused(map[], per, n) == 0
  {
    if n > 0 {
      UnusedNone(per, n - 1);
    }
  }

  lemma {:induction false} UnusedNonNegative(a: map<nat, set<Word>>, per: int, n: nat)
    requires forall op | op in a :: |a[op]| <= per
    ensures Unused(a, per, n) >= 0
    ensures forall op | op in a && op < n :: per - |a[op]| <= Unused(a, per, n)
  {
    if n > 0 {
      UnusedNonNegative(a, per, n - 1);
    }
  }

  lemma {:induction false} UnusedAtMost(a: map<nat, set<Word>>, per: nat, n: nat)
    ensures Unused(a, per, n) <= per * |set op | op in a && op < n|
  {
    var ops := set op | op in a && op < n;
    if n > 0 {
      UnusedAtMost(a, per, n - 1);
      var fewer := set op | op in a && op < n - 1;
      if n - 1 in a {
        assert ops == fewer + {n - 1};
        assert per * |ops| == per * |fewer| + per;
      } else {
        assert ops == fewer;
      }
    } else {
      assert ops == {};
    }
  }

  function Cap(per: nat): int {
    LOG_SIZE - 2 * (MAX_OP_BLKS - per)
  }

  /** Room for one more operation, counted in whole reservations. */
  lemma BeginRoom(used: nat, n: nat, per: nat)
    requires per <= MAX_OP_BLKS && used + (n + 1) * MAX_OP_BLKS <= LOG_SIZE && (n == 0 ==> used == 0)
    ensures used + per * n + per <= Cap(per)
  {
    var spare := MAX_OP_BLKS - per;
    assert (n + 1) * MAX_OP_BLKS == (n + 1) * per + (n + 1) * spare;
    assert (n + 1) * per == per * n + per;
    if n > 0 {
      assert (n + 1) * spare >= 2 * spare;
    }
  }

  lemma OpsInProgress(limit: nat, root: Disk, s: State)
    requires Inv(root, s) && Enabled(limit, s, BeginOp)
    ensures s.outstanding == |s.active| && (s.outstanding == 0 ==> s.hs == [])
    ensures (set op | op in s.active && op < s.next) == s.active.Keys
    ensures |s.hs| + (s.outstanding + 1) * MAX_OP_BLKS <= LOG_SIZE
  {
    hide Apply, CommitWrites, RecoveryWrites, HeaderOk, Recovered, SameHome, Perform, Replay;
  }

  lemma BeginFits(limit: nat, root: Disk, s: State, per: nat)
    requires Inv(root, s) && Enabled(limit, s, BeginOp)
    requires limit <= per <= MAX_OP_BLKS && WithinLimit(limit, s)
    ensures Fits(limit, per, Cap(per), Exec(limit, s, BeginOp))
  {
    hide Inv, Cap;
    var t := Exec(limit, s, BeginOp);
    OpsInProgress(limit, root, s);
    UnusedAtMost(s.active, per, s.next);
    UnusedUpdate(s.active, t.active, s.next, per, s.next);
    assert Unused(t.active, per, t.next) == Unused(s.active, per, s.next) + per;
    BeginRoom(|s.hs|, s.outstanding, per);
  }

  lemma LogBlockFits(limit: nat, root: Disk, s: State, op: nat, bno: Home, data: Block, per: nat)
    requires Inv(root, s) && Enabled(limit, s, LogBlock(op, bno, data))
    requires limit <= per <= MAX_OP_BLKS && Fits(limit, per, Cap(per), s)
    ensures Fits(limit, per, Cap(per), Exec(limit, s, LogBlock(op, bno, data)))
  {
    hide Apply, CommitWrites, RecoveryWrites, HeaderOk, Recovered, SameHome, Committable, Perform, Replay;
    var t := Exec(limit, s, LogBlock(op, bno, data));
    if !t.phase.Panicked? {
      UnusedUpdate(s.active, t.active, op, per, s.next);
      var used := s.active[op];
      if bno in used {
        assert used + {bno} == used;
      } else {
        assert |used + {bno}| == |used| + 1;
      }
    }
  }

  lemma StepFits(limit: nat, root: Disk, s: State, e: Event, per: nat)
    requires Inv(root, s) && Enabled(limit, s, e)
    requires limit <= per <= MAX_OP_BLKS && Fits(limit, per, Cap(per), s)
    ensures Fits(limit, per, Cap(per), Exec(limit, s, e))
  {
    hide Apply, CommitWrites, RecoveryWrites, HeaderOk, Recovered, SameHome, Committable, Perform, Replay;
    var t := Exec(limit, s, e);
    match e {
      case BeginOp => BeginFits(limit, root, s, per);
      case LogBlock(op, bno, data) => LogBlockFits(limit, root, s, op, bno, data, per);
      case EndOp(op) =>
        UnusedUpdate(s.active, t.active, op, per, s.next);
      case Crash => UnusedNone(per, s.next);
      case _ =>
    }
  }

  lemma {:induction false} RunFits(limit: nat, root: Disk, s: State, es: seq<Event>, per: nat)
    requires Inv(root, s) && Runs(limit, s, es)
    requires limit <= per <= MAX_OP_BLKS && Fits(limit, per, Cap(per), s)
    ensures Fits(limit, per, Cap(per), Final(limit, s, es))
    decreases |es|
  {
    if es != [] {
      StepFits(limit, root, s, es[0], per);
      StepKeeps(limit, root, s, es[0]);
      RunFits(limit, root, Exec(limit, s, es[0]), es[1..], per);
    }
  }

  /** If no operation logs more than MAX_OP_BLKS distinct blocks, the entries in use plus
      the unused reservations never exceed LOG_SIZE. */
  lemma ReservationsFit(limit: nat, s0: State, es: seq<Event>)
    requires Init(s0) && Runs(limit, s0, es) && limit <= MAX_OP_BLKS
    ensures var s := Final(limit, s0, es);
            |s.hs| + Unused(s.active, MAX_OP_BLKS, s.next) <= LOG_SIZE
  {
    InitInv(s0);
    RunFits(limit, s0.disk, s0, es, MAX_OP_BLKS);
  }

  lemma {:induction false} RunNeverPanics(limit: nat, root: Disk, s: State, es: seq<Event>)
    requires Inv(root, s) && Runs(limit, s, es) && !s.phase.Panicked?
    requires limit < MAX_OP_BLKS
    requires Fits(limit, MAX_OP_BLKS - 1, Cap(MAX_OP_BLKS - 1), s)
    ensures !Final(limit, s, es).phase.Panicked?
    decreases |es|
  {
    hide Apply, CommitWrites, RecoveryWrites, HeaderOk, HeaderOf, Recovered, Replay, Perform, Committable;
    if es != [] {
      StepFits(limit, root, s, es[0], MAX_OP_BLKS - 1);
      StepKeeps(limit, root, s, es[0]);
      UnusedNonNegative(s.active, MAX_OP_BLKS - 1, s.next);
      if es[0].EndOp? {
        EndOpKeeps(limit, root, s, es[0].op);
      }
      RunNeverPanics(limit, root, Exec(limit, s, es[0]), es[1..]);
    }
  }

  // ---------- exactly which budget keeps log_write from panicking ----------

  function FillEvents(n: nat): seq<Event>
    requires n <= LOG_SIZE
  {
    if n == 0 then [BeginOp, BeginOp, BeginOp]
    else FillEvents(n - 1) + [LogBlock((n - 1) / MAX_OP_BLKS, 100 + n - 1, Zeros())]
  }

  lemma {:induction false} RunsAppend(limit: nat, s: State, es: seq<Event>, e: Event)
    requires Runs(limit, s, es) && Enabled(limit, Final(limit, s, es), e)
    ensures Runs(limit, s, es + [e])
    ensures Final(limit, s, es + [e]) == Exec(limit, Final(limit, s, es), e)
    decreases |es|
  {
    if es == [] {
      assert [e][1..] == [];
    } else {
      RunsAppend(limit, Exec(limit, s, es[0]), es[1..], e);
      assert (es + [e])[1..] == es[1..] + [e];
    }
  }

  ghost predicate Filled(s: State, n: nat) {
    && s.phase.Running? && s.outstanding == 3 && s.active.Keys == {0, 1, 2}
    && s.hs == seq(n, i requires 0 <= i < n => 100 + i)
    && (forall op | op in s.active :: forall b | b in s.active[op] :: b < 100 + n)
    && |s.active[0]| == (if n < 10 then n else 10)
    && |s.active[1]| == (if n < 10 then 0 else if n < 20 then n - 10 else 10)
    && |s.active[2]| == (if n < 20 then 0 else n - 20)
  }

  lemma FillStep(s: State, n: nat)
    requires 0 < n < LOG_SIZE && Filled(s, n - 1)
    ensures var e := LogBlock((n - 1) / MAX_OP_BLKS, 100 + n - 1, Zeros());
            Enabled(MAX_OP_BLKS, s, e) && Filled(Exec(MAX_OP_BLKS, s, e), n)
  {
    hide Zeros, Writes, CommitWrites, RecoveryWrites, HeaderOk;
    var b: Word := 100 + n - 1;
    var op := (n - 1) / MAX_OP_BLKS;
    var e := LogBlock(op, b, Zeros());
    assert b !in s.active[op];
    assert |s.active[op] + {b}| == |s.active[op]| + 1;
    var t := Exec(MAX_OP_BLKS, s, e);
    assert t.active.Keys == s.active.Keys;
  }

  lemma {:induction false} FillRuns(s0: State, n: nat)
    requires Init(s0) && n < LOG_SIZE
    ensures Runs(MAX_OP_BLKS, s0, FillEvents(n))
    ensures Filled(Final(MAX_OP_BLKS, s0, FillEvents(n)), n)
  {
    hide Exec, Enabled, Zeros;
    if n == 0 {
      FillStarts(s0);
    } else {
      FillRuns(s0, n - 1);
      var es := FillEvents(n - 1);
      FillStep(Final(MAX_OP_BLKS, s0, es), n);
      RunsAppend(MAX_OP_BLKS, s0, es, LogBlock((n - 1) / MAX_OP_BLKS, 100 + n - 1, Zeros()));
    }
  }

  lemma FillStarts(s0: State)
    requires Init(s0)
    ensures Runs(MAX_OP_BLKS, s0, FillEvents(0))
    ensures Filled(Final(MAX_OP_BLKS, s0, FillEvents(0)), 0)
  {
  }

  lemma LooserStep(limit: nat, more: nat, s: State, e: Event)
    requires limit <= more && Enabled(limit, s, e)
    ensures Enabled(more, s, e) && Exec(more, s, e) == Exec(limit, s, e)
  {
    hide CommitWrites, RecoveryWrites, HeaderOk, Zeros;
  }

  /** A looser budget allows the same runs. */
  lemma {:induction false} LooserRuns(limit: nat, more: nat, s: State, es: seq<Event>)
    requires limit <= more && Runs(limit, s, es)
    ensures Runs(more, s, es) && Final(more, s, es) == Final(limit, s, es)
    decreases |es|
  {
    hide Exec, Enabled;
    if es != [] {
      LooserStep(limit, more, s, es[0]);
      LooserRuns(limit, more, Exec(limit, s, es[0]), es[1..]);
    }
  }

  /** log_write gives up one entry early, so the documented budget of MAX_OP_BLKS is one
      too many: no run of operations that log at most `limit` blocks can panic, if and only
      if `limit` is below MAX_OP_BLKS. */
  lemma PanicFreeIff(limit: nat, s0: State)
    requires Init(s0)
    ensures (forall es | Runs(limit, s0, es) :: !Final(limit, s0, es).phase.Panicked?)
            <==> limit < MAX_OP_BLKS
  {
    if limit < MAX_OP_BLKS {
      forall es | Runs(limit, s0, es) ensures !Final(limit, s0, es).phase.Panicked? {
        InitInv(s0);
        RunNeverPanics(limit, s0.disk, s0, es);
      }
    } else {
      FillRuns(s0, LOG_SIZE - 1);
      var es := FillEvents(LOG_SIZE - 1);
      var e := LogBlock(2, 100 + LOG_SIZE - 1, Zeros());
      RunsAppend(MAX_OP_BLKS, s0, es, e);
      LooserRuns(MAX_OP_BLKS, limit, s0, es + [e]);
      assert Final(limit, s0, es + [e]).phase.Panicked?;
    }
  }
}
