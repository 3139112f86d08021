/** The block writes that a commit and a recovery perform, in order, and what a crash
    between any two of them leaves on the disk. */
module LogSpec {
  import opened Blocks
  import opened DiskLayout

  datatype Write = Write(bno: nat, data: Block)

  predicate InRange(ws: seq<Write>) {
    forall i | 0 <= i < |ws| :: ws[i].bno < N_BLKS
  }

  /** The disk after the writes `ws`, each of them atomic. */
  function Apply(d: Disk, ws: seq<Write>): Disk
    requires InRange(ws)
  {
    if ws == [] then d
    else
      var w := ws[|ws| - 1];
      Apply(d, ws[..|ws| - 1])[w.bno := w.data]
  }

  // ---------- the log header ----------

  predicate HeaderList(hs: seq<Word>) {
    && |hs| < LOG_SIZE
    && (forall i | 0 <= i < |hs| :: IsHome(hs[i]))
    && (forall i, j | 0 <= i < j < |hs| :: hs[i] != hs[j])
  }

  /** The header block after `hs` is written over `b`: the count, then the entries. */
  function PutHeader(b: Block, hs: seq<Word>): (r: Block)
    requires |hs| <= LOG_SIZE
    ensures GetWord(r, 0) == |hs|
    ensures forall i | 0 <= i < |hs| :: GetWord(r, 1 + i) == hs[i]
  {
    PutEntries(PutWord(b, 0, |hs|), hs, |hs|)
  }

  function PutEntries(b: Block, hs: seq<Word>, k: nat): (r: Block)
    requires k <= |hs| <= LOG_SIZE
    ensures GetWord(r, 0) == GetWord(b, 0)
    ensures forall i | 0 <= i < k :: GetWord(r, 1 + i) == hs[i]
  {
    if k == 0 then b else PutWord(PutEntries(b, hs, k - 1), k, hs[k - 1])
  }

  function HeaderOf(b: Block): seq<Word>
    requires GetWord(b, 0) <= LOG_SIZE
  {
    seq(GetWord(b, 0), i requires 0 <= i < GetWord(b, 0) => GetWord(b, 1 + i))
  }

  /** The header block of `d` holds a list that recovery can install. */
  predicate HeaderOk(d: Disk) {
    GetWord(d[LOG_START], 0) < LOG_SIZE && HeaderList(HeaderOf(d[LOG_START]))
  }

  lemma HeaderRoundTrip(d: Disk, b: Block, hs: seq<Word>)
    requires HeaderList(hs) && d[LOG_START] == PutHeader(b, hs)
    ensures HeaderOk(d) && HeaderOf(d[LOG_START]) == hs
  {
    var r := PutHeader(b, hs);
    assert forall i | 0 <= i < |hs| :: HeaderOf(r)[i] == GetWord(r, 1 + i);
    assert HeaderOf(r) == hs;
  }

  // ---------- the two write lists ----------

  /** A commit copies the logged blocks into the log, writes the header, installs the
      blocks at home and clears the header. `mem` is what the buffer cache holds. */
  function CommitWrites(mem: Disk, hs: seq<Word>): (ws: seq<Write>)
    requires HeaderList(hs)
    ensures |ws| == 2 * |hs| + 2
    ensures InRange(ws)
  {
    var header := PutHeader(mem[LOG_START], hs);
    CommitList(mem, hs, header, PutHeader(header, []))
  }

  /** The commit's writes, with the full and the cleared header block given. */
  function CommitList(mem: Disk, hs: seq<Word>, full: Block, cleared: Block): (ws: seq<Write>)
    requires HeaderList(hs)
    ensures InRange(ws)
  {
    seq(2 * |hs| + 2, i requires 0 <= i < 2 * |hs| + 2 => CommitWrite(mem, hs, full, cleared, i))
  }

  function CommitWrite(mem: Disk, hs: seq<Word>, full: Block, cleared: Block, i: nat): (w: Write)
    requires HeaderList(hs) && i < 2 * |hs| + 2
    ensures w.bno < N_BLKS
  {
    var n := |hs|;
    if i < n then Write(LOG_START + 1 + i, mem[hs[i]])
    else if i == n then Write(LOG_START, full)
    else if i < 2 * n + 1 then Write(hs[i - n - 1], mem[hs[i - n - 1]])
    else Write(LOG_START, cleared)
  }

  /** Recovery installs the blocks that the header names and clears the header. */
  function RecoveryWrites(d: Disk): (ws: seq<Write>)
    requires HeaderOk(d)
    ensures InRange(ws)
  {
    RecoveryList(d, HeaderOf(d[LOG_START]), PutHeader(d[LOG_START], []))
  }

  function RecoveryList(d: Disk, hs: seq<Word>, cleared: Block): (ws: seq<Write>)
    requires HeaderList(hs)
    ensures InRange(ws)
  {
    seq(|hs| + 1, i requires 0 <= i <= |hs| =>
      if i < |hs| then Write(hs[i], d[LOG_START + 1 + i]) else Write(LOG_START, cleared))
  }

  /** The installing part of both: each named block takes the contents of its log block. */
  function InstallWrites(mem: Disk, hs: seq<Word>): (ws: seq<Write>)
    requires HeaderList(hs)
    ensures InRange(ws)
  {
    seq(|hs|, i requires 0 <= i < |hs| => Write(hs[i], mem[LOG_START + 1 + i]))
  }

  function Recovered(d: Disk): Disk
    requires HeaderOk(d)
  {
    Apply(d, RecoveryWrites(d))
  }

  // ---------- pointwise reading of Apply ----------

  lemma {:induction false} ApplyUntouched(d: Disk, ws: seq<Write>, b: nat)
    requires InRange(ws) && b < N_BLKS
    requires forall i | 0 <= i < |ws| :: ws[i].bno != b
    ensures Apply(d, ws)[b] == d[b]
  {
    if ws != [] {
      ApplyUntouched(d, ws[..|ws| - 1], b);
    }
  }

  lemma {:induction false} ApplyLast(d: Disk, ws: seq<Write>, k: nat)
    requires InRange(ws) && k < |ws|
    requires forall i | k < i < |ws| :: ws[i].bno != ws[k].bno
    ensures Apply(d, ws)[ws[k].bno] == ws[k].data
  {
    if k < |ws| - 1 {
      ApplyLast(d, ws[..|ws| - 1], k);
    }
  }

  lemma RecoveryListAt(d: Disk, hs: seq<Word>, cleared: Block)
    requires HeaderList(hs)
    ensures var e := Apply(d, RecoveryList(d, hs, cleared));
            && (forall i | 0 <= i < |hs| :: e[hs[i]] == d[LOG_START + 1 + i])
            && (forall b: nat | IsHome(b) && b !in hs :: e[b] == d[b])
            && e[LOG_START] == cleared
  {
    var ws := RecoveryList(d, hs, cleared);
    forall i | 0 <= i < |hs| ensures Apply(d, ws)[hs[i]] == d[LOG_START + 1 + i] {
      ApplyLast(d, ws, i);
    }
    forall b: nat | IsHome(b) && b !in hs ensures Apply(d, ws)[b] == d[b] {
      ApplyUntouched(d, ws, b);
    }
    ApplyLast(d, ws, |hs|);
  }

  lemma {:induction false} ApplyConcat(d: Disk, us: seq<Write>, vs: seq<Write>)
    requires InRange(us) && InRange(vs)
    ensures Apply(d, us + vs) == Apply(Apply(d, us), vs)
  {
    if vs == [] {
      assert us + vs == us;
    } else {
      var init := vs[..|vs| - 1];
      ApplyConcat(d, us, init);
      assert (us + vs)[..|us + vs| - 1] == us + init;
    }
  }

  lemma ApplyNext(d: Disk, ws: seq<Write>, k: nat)
    requires InRange(ws) && k < |ws|
    ensures Apply(d, ws[..k + 1]) == Apply(d, ws[..k])[ws[k].bno := ws[k].data]
  {
    assert ws[..k + 1][..k] == ws[..k];
  }

  /** What recovery makes of a disk: a block named by the header takes the contents of its
      log block, any other home block keeps its own, and the header becomes empty. */
  lemma RecoveredAt(d: Disk)
    requires HeaderOk(d)
    ensures var hs := HeaderOf(d[LOG_START]);
            && (forall i | 0 <= i < |hs| :: Recovered(d)[hs[i]] == d[LOG_START + 1 + i])
            && (forall b: nat | IsHome(b) && b !in hs :: Recovered(d)[b] == d[b])
            && HeaderOk(Recovered(d))
            && HeaderOf(Recovered(d)[LOG_START]) == []
  {
    RecoveryListAt(d, HeaderOf(d[LOG_START]), PutHeader(d[LOG_START], []));
    HeaderRoundTrip(Recovered(d), d[LOG_START], []);
  }

  lemma RecoversTo(e: Disk, hs: seq<Word>, want: Disk)
    requires HeaderOk(e) && HeaderOf(e[LOG_START]) == hs
    requires forall i | 0 <= i < |hs| :: e[LOG_START + 1 + i] == want[hs[i]]
    requires forall b: nat | IsHome(b) && b !in hs :: e[b] == want[b]
    ensures SameHome(Recovered(e), want)
  {
    RecoveredAt(e);
    forall b: nat | IsHome(b) ensures Recovered(e)[b] == want[b] {
      if b in hs {
        var i :| 0 <= i < |hs| && hs[i] == b;
      }
    }
  }

  lemma SameHomeTransitive(d: Disk, e: Disk, f: Disk)
    requires SameHome(d, e) && SameHome(e, f)
    ensures SameHome(d, f)
  {
  }

  // ---------- crashes ----------

  /** A crash after any `k` of recovery's own writes changes nothing that a later recovery
      produces, so recovery may be interrupted and restarted any number of times. */
  lemma RecoveryCrash(d: Disk, k: nat)
    requires HeaderOk(d) && k <= |RecoveryWrites(d)|
    ensures var e := Apply(d, RecoveryWrites(d)[..k]);
            HeaderOk(e) && SameHome(Recovered(e), Recovered(d))
  {
    var hs := HeaderOf(d[LOG_START]);
    var ws := RecoveryWrites(d);
    var e := Apply(d, ws[..k]);
    RecoveredAt(d);
    if k == |ws| {
      assert ws[..k] == ws;
      RecoversTo(e, [], e);
    } else {
      forall b: nat | b < N_BLKS && b !in hs ensures e[b] == d[b] {
        InstallKeeps(d, hs, PutHeader(d[LOG_START], []), k, b);
      }
      RecoversTo(e, hs, Recovered(d));
    }
  }

  lemma InstallKeeps(d: Disk, hs: seq<Word>, cleared: Block, k: nat, b: nat)
    requires HeaderList(hs) && k <= |hs|
    requires b < N_BLKS && b !in hs
    ensures Apply(d, RecoveryList(d, hs, cleared)[..k])[b] == d[b]
  {
    ApplyUntouched(d, RecoveryList(d, hs, cleared)[..k], b);
  }

  /** A state in which a commit may start: the header is empty and the cache differs from
      the disk only on logged blocks. */
  ghost predicate Committable(d: Disk, mem: Disk, hs: seq<Word>) {
    && HeaderList(hs)
    && HeaderOk(d) && HeaderOf(d[LOG_START]) == []
    && forall b: nat | b < N_BLKS && b !in hs :: mem[b] == d[b]
  }

  lemma CommitLogsBlock(d: Disk, mem: Disk, hs: seq<Word>, full: Block, cleared: Block, k: nat, i: nat)
    requires HeaderList(hs) && i < |hs| < k <= 2 * |hs| + 2
    ensures Apply(d, CommitList(mem, hs, full, cleared)[..k])[LOG_START + 1 + i] == mem[hs[i]]
  {
    ApplyLast(d, CommitList(mem, hs, full, cleared)[..k], i);
  }

  lemma CommitHeaderBlock(d: Disk, mem: Disk, hs: seq<Word>, full: Block, cleared: Block, k: nat)
    requires HeaderList(hs) && k <= 2 * |hs| + 2
    ensures Apply(d, CommitList(mem, hs, full, cleared)[..k])[LOG_START] ==
            if k <= |hs| then d[LOG_START] else if k < 2 * |hs| + 2 then full else cleared
  {
    var ws := CommitList(mem, hs, full, cleared)[..k];
    if k <= |hs| {
      ApplyUntouched(d, ws, LOG_START);
    } else if k < 2 * |hs| + 2 {
      ApplyLast(d, ws, |hs|);
    } else {
      ApplyLast(d, ws, k - 1);
    }
  }

  lemma CommitKeeps(d: Disk, mem: Disk, hs: seq<Word>, full: Block, cleared: Block, k: nat, b: nat)
    requires HeaderList(hs) && k <= 2 * |hs| + 2
    requires IsHome(b) && (b !in hs || k <= |hs| + 1)
    ensures Apply(d, CommitList(mem, hs, full, cleared)[..k])[b] == d[b]
  {
    ApplyUntouched(d, CommitList(mem, hs, full, cleared)[..k], b);
  }

  lemma CommitInstalls(d: Disk, mem: Disk, hs: seq<Word>, full: Block, cleared: Block, i: nat)
    requires HeaderList(hs) && i < |hs|
    ensures Apply(d, CommitList(mem, hs, full, cleared))[hs[i]] == mem[hs[i]]
  {
    ApplyLast(d, CommitList(mem, hs, full, cleared), |hs| + 1 + i);
  }

  lemma CommitCrashEarly(d: Disk, mem: Disk, hs: seq<Word>, k: nat)
    requires Committable(d, mem, hs)
    requires k <= |hs|
    ensures var e := Apply(d, CommitWrites(mem, hs)[..k]);
            HeaderOk(e) && SameHome(Recovered(e), d)
  {
    var full := PutHeader(mem[LOG_START], hs);
    var cleared := PutHeader(full, []);
    var e := Apply(d, CommitWrites(mem, hs)[..k]);
    CommitHeaderBlock(d, mem, hs, full, cleared, k);
    forall b: nat | IsHome(b) ensures e[b] == d[b] {
      CommitKeeps(d, mem, hs, full, cleared, k, b);
    }
    RecoversTo(e, [], d);
  }

  lemma CommitCrashInstalling(d: Disk, mem: Disk, hs: seq<Word>, k: nat)
    requires Committable(d, mem, hs)
    requires |hs| < k < |CommitWrites(mem, hs)|
    ensures var e := Apply(d, CommitWrites(mem, hs)[..k]);
            HeaderOk(e) && SameHome(Recovered(e), mem)
  {
    var full := PutHeader(mem[LOG_START], hs);
    var cleared := PutHeader(full, []);
    var e := Apply(d, CommitWrites(mem, hs)[..k]);
    CommitHeaderBlock(d, mem, hs, full, cleared, k);
    HeaderRoundTrip(e, mem[LOG_START], hs);
    forall b: nat | IsHome(b) && b !in hs ensures e[b] == mem[b] {
      CommitKeeps(d, mem, hs, full, cleared, k, b);
    }
    forall i | 0 <= i < |hs| ensures e[LOG_START + 1 + i] == mem[hs[i]] {
      CommitLogsBlock(d, mem, hs, full, cleared, k, i);
    }
    RecoversTo(e, hs, mem);
  }

  /** A finished commit leaves the cache's home blocks on the disk and the header empty. */
  lemma CommitFinished(d: Disk, mem: Disk, hs: seq<Word>)
    requires Committable(d, mem, hs)
    ensures var e := Apply(d, CommitWrites(mem, hs));
            SameHome(e, mem) && HeaderOk(e) && HeaderOf(e[LOG_START]) == []
  {
    var full := PutHeader(mem[LOG_START], hs);
    var cleared := PutHeader(full, []);
    var ws := CommitWrites(mem, hs);
    var e := Apply(d, ws);
    assert ws[..|ws|] == ws;
    CommitHeaderBlock(d, mem, hs, full, cleared, |ws|);
    HeaderRoundTrip(e, full, []);
    forall b: nat | IsHome(b) ensures e[b] == mem[b] {
      if b in hs {
        var i :| 0 <= i < |hs| && hs[i] == b;
        CommitInstalls(d, mem, hs, full, cleared, i);
      } else {
        CommitKeeps(d, mem, hs, full, cleared, |ws|, b);
      }
    }
  }

  /** Commit is atomic: a crash after any `k` of its writes recovers either to the home
      blocks as they were, or, once the header is written, to exactly those of the cache. */
  lemma CommitCrash(d: Disk, mem: Disk, hs: seq<Word>, k: nat)
    requires Committable(d, mem, hs)
    requires k <= |CommitWrites(mem, hs)|
    ensures var e := Apply(d, CommitWrites(mem, hs)[..k]);
            HeaderOk(e) && SameHome(Recovered(e), if k <= |hs| then d else mem)
  {
    var ws := CommitWrites(mem, hs);
    if k <= |hs| {
      CommitCrashEarly(d, mem, hs, k);
    } else if k < |ws| {
      CommitCrashInstalling(d, mem, hs, k);
    } else {
      assert ws[..k] == ws;
      CommitFinished(d, mem, hs);
      RecoversTo(Apply(d, ws), [], mem);
    }
  }
}
