/** Pipes: a ring of bytes with two wait channels. Each method is what runs under the lock of
    the pipe until it is released or the process goes to sleep. */
module Pipe {
  import opened Blocks

  const PIPE_SIZE := 1024

  function Occupied(r: nat, w: nat): nat
    requires r < PIPE_SIZE && w < PIPE_SIZE
  {
    if r <= w then w - r else w + PIPE_SIZE - r
  }

  /** The bytes in the ring, the oldest first. */
  function Ring(d: seq<Byte>, r: nat, w: nat): (s: seq<Byte>)
    requires |d| == PIPE_SIZE && r < PIPE_SIZE && w < PIPE_SIZE
    ensures |s| == Occupied(r, w) < PIPE_SIZE
  {
    seq(Occupied(r, w), k requires 0 <= k < Occupied(r, w) => d[(r + k) % PIPE_SIZE])
  }

  /** The test for a full ring, and what inserting does. */
  lemma RingInsert(d: seq<Byte>, r: nat, w: nat, x: Byte)
    requires |d| == PIPE_SIZE && r < PIPE_SIZE && w < PIPE_SIZE
    ensures (w + 1) % PIPE_SIZE == r <==> Occupied(r, w) == PIPE_SIZE - 1
    ensures (w + 1) % PIPE_SIZE != r ==> Ring(d[w := x], r, (w + 1) % PIPE_SIZE) == Ring(d, r, w) + [x]
  {
  }

  lemma RingRemove(d: seq<Byte>, r: nat, w: nat)
    requires |d| == PIPE_SIZE && r < PIPE_SIZE && w < PIPE_SIZE
    ensures r == w <==> Ring(d, r, w) == []
    ensures r != w ==> Ring(d, r, w) == [d[r]] + Ring(d, (r + 1) % PIPE_SIZE, w)
  {
  }

  lemma RingEmpty(d: seq<Byte>, r: nat, w: nat)
    requires |d| == PIPE_SIZE && r < PIPE_SIZE && w < PIPE_SIZE
    ensures r == w <==> Ring(d, r, w) == []
    ensures r == w ==> Occupied(r, w) == 0
  {
  }

  lemma SplitAt(a: seq<Byte>, b: seq<Byte>, k: nat)
    requires k <= |b|
    ensures a + b == a + b[..k] + b[k..]
  {
  }

  function Least(a: nat, b: nat): nat { if a < b then a else b }

  /** The number of bytes that leave a ring of `len` bytes for a reader of `n`. */
  function Taken(n: nat, len: nat, faultAt: nat): (k: nat)
    ensures k <= len
  {
    if faultAt < Least(n, len) then faultAt + 1 else Least(n, len)
  }

  /** How a section of pipe_read or pipe_write ends: asleep, returning -1, or returning. */
  datatype Outcome = Slept | Stopped | Finished

  /** A writer is stopped by a signal after it has put some bytes into the ring: it is seen to
      be killed after the first byte and before the last, and neither a full ring nor a failing
      copy ends the section before that. */
  predicate StopsMidway(readOpen: bool, occupied: nat, n: nat, killedAt: nat, faultAt: nat) {
    readOpen && 0 < killedAt < n && killedAt <= PIPE_SIZE - 1 - occupied && killedAt <= faultAt
  }

  /** The number of bytes that a section of pipe_write puts into the ring. */
  function Progress(readOpen: bool, occupied: nat, n: nat, killedAt: nat, faultAt: nat): (i: nat)
    requires occupied < PIPE_SIZE
    ensures i <= n
  {
    if readOpen then Least(Least(n, killedAt), Least(PIPE_SIZE - 1 - occupied, faultAt)) else 0
  }

  /** How it ends. */
  function Ending(readOpen: bool, occupied: nat, n: nat, killedAt: nat, faultAt: nat): Outcome
    requires occupied < PIPE_SIZE
  {
    var i := Progress(readOpen, occupied, n, killedAt, faultAt);
    if i == n then Finished else if !readOpen || i == killedAt then Stopped
    else if occupied + i == PIPE_SIZE - 1 then Slept else Finished
  }

  /** The places where a section of pipe_write can end, after `i` bytes. */
  lemma EndsStopped(readOpen: bool, occupied: nat, n: nat, killedAt: nat, faultAt: nat, i: nat)
    requires occupied + i < PIPE_SIZE && i < n && i <= killedAt && i <= faultAt && (i > 0 ==> readOpen)
    requires !readOpen || i >= killedAt
    ensures i == Progress(readOpen, occupied, n, killedAt, faultAt)
    ensures Ending(readOpen, occupied, n, killedAt, faultAt) == Stopped
    ensures StopsMidway(readOpen, occupied, n, killedAt, faultAt) <==> i > 0
  {
  }

  lemma EndsFull(readOpen: bool, occupied: nat, n: nat, killedAt: nat, faultAt: nat, i: nat)
    requires occupied + i == PIPE_SIZE - 1 && i < n && i < killedAt && i <= faultAt && readOpen
    ensures i == Progress(readOpen, occupied, n, killedAt, faultAt)
    ensures Ending(readOpen, occupied, n, killedAt, faultAt) == Slept
    ensures !StopsMidway(readOpen, occupied, n, killedAt, faultAt)
  {
  }

  lemma EndsFinished(readOpen: bool, occupied: nat, n: nat, killedAt: nat, faultAt: nat, i: nat)
    requires occupied + i < PIPE_SIZE && i <= n && i <= killedAt && i <= faultAt && (i > 0 ==> readOpen)
    requires i == n || (i == faultAt && i < killedAt && readOpen && occupied + i < PIPE_SIZE - 1)
    ensures i == Progress(readOpen, occupied, n, killedAt, faultAt)
    ensures Ending(readOpen, occupied, n, killedAt, faultAt) == Finished
    ensures !StopsMidway(readOpen, occupied, n, killedAt, faultAt)
  {
  }

  /** A pipe without its ring: the bytes in it, the open ends and the sleepers. */
  datatype Abstract =
    Abstract(contents: seq<Byte>, readOpen: bool, writeOpen: bool, readers: set<nat>, writers: set<nat>)

  /** One turn at the pipe: a section of pipe_write or pipe_read, closing an end, a signal. */
  datatype Turn =
    | Writes(p: nat, src: seq<Byte>, killedAt: nat, faultAt: nat)
    | Reads(p: nat, n: nat, killed: bool, faultAt: nat)
    | Closes(writable: bool)
    | Signals(p: nat)

  predicate Awake(a: Abstract, p: nat) { p !in a.readers && p !in a.writers }

  /** The bytes that a turn puts in; a process that sleeps takes no turn. */
  function Accepts(a: Abstract, t: Turn): seq<Byte>
    requires |a.contents| < PIPE_SIZE
  {
    if t.Writes? && Awake(a, t.p) then
      t.src[..Progress(a.readOpen, |a.contents|, |t.src|, t.killedAt, t.faultAt)]
    else
      []
  }

  /** The bytes that a turn takes out. */
  function Takes(a: Abstract, t: Turn): (s: seq<Byte>)
    ensures s <= a.contents
  {
    if t.Reads? && Awake(a, t.p) then a.contents[..Taken(t.n, |a.contents|, t.faultAt)] else []
  }

  /** The bytes that the reader gets: a byte whose copy fails has left the ring and is lost. */
  function Receives(a: Abstract, t: Turn): (s: seq<Byte>)
    ensures s <= Takes(a, t)
  {
    if t.Reads? && Awake(a, t.p) then Takes(a, t)[..Least(|Takes(a, t)|, t.faultAt)] else []
  }

  /** The turn stops a writer midway. */
  predicate Interrupts(a: Abstract, t: Turn) {
    t.Writes? && Awake(a, t.p) && StopsMidway(a.readOpen, |a.contents|, |t.src|, t.killedAt, t.faultAt)
  }

  /** What a turn makes of the pipe. */
  function After(a: Abstract, t: Turn): (b: Abstract)
    requires |a.contents| < PIPE_SIZE
    ensures |b.contents| < PIPE_SIZE
    ensures a.contents + Accepts(a, t) == Takes(a, t) + b.contents
  {
    match t
    case Writes(p, src, killedAt, faultAt) =>
      if !Awake(a, p) then a
      else
        var o := Ending(a.readOpen, |a.contents|, |src|, killedAt, faultAt);
        var b := a.(contents := a.contents + Accepts(a, t));
        if o == Stopped then b
        else if o == Slept then b.(readers := {}, writers := a.writers + {p})
        else b.(readers := {})
    case Reads(p, n, killed, faultAt) =>
      if !Awake(a, p) || (a.contents == [] && a.writeOpen && killed) then a
      else if a.contents == [] && a.writeOpen then a.(readers := a.readers + {p})
      else a.(contents := a.contents[Taken(n, |a.contents|, faultAt)..], writers := {})
    case Closes(writable) =>
      if writable then a.(writeOpen := false, readers := {}) else a.(readOpen := false, writers := {})
    case Signals(p) => a.(readers := a.readers - {p}, writers := a.writers - {p})
  }

  /** The pipe after some turns on a new one. */
  function Finally(turns: seq<Turn>): (a: Abstract)
    ensures |a.contents| < PIPE_SIZE
  {
    if turns == [] then Abstract([], true, true, {}, {}) else After(Finally(turns[..|turns| - 1]), turns[|turns| - 1])
  }

  /** All bytes that the turns put in, and all that they take out. */
  function AllIn(turns: seq<Turn>): seq<Byte> {
    if turns == [] then []
    else AllIn(turns[..|turns| - 1]) + Accepts(Finally(turns[..|turns| - 1]), turns[|turns| - 1])
  }

  function AllOut(turns: seq<Turn>): seq<Byte> {
    if turns == [] then []
    else AllOut(turns[..|turns| - 1]) + Takes(Finally(turns[..|turns| - 1]), turns[|turns| - 1])
  }

  function AllReceived(turns: seq<Turn>): seq<Byte> {
    if turns == [] then []
    else AllReceived(turns[..|turns| - 1]) + Receives(Finally(turns[..|turns| - 1]), turns[|turns| - 1])
  }

  /** Turn `k` stops a writer midway. */
  predicate InterruptsAt(turns: seq<Turn>, k: nat) {
    k < |turns| && Interrupts(Finally(turns[..k]), turns[k])
  }

  lemma OneMoreTurn(turns: seq<Turn>, t: Turn)
    ensures Finally(turns + [t]) == After(Finally(turns), t)
    ensures AllIn(turns + [t]) == AllIn(turns) + Accepts(Finally(turns), t)
    ensures AllOut(turns + [t]) == AllOut(turns) + Takes(Finally(turns), t)
    ensures AllReceived(turns + [t]) == AllReceived(turns) + Receives(Finally(turns), t)
  {
    hide After, Accepts, Takes, Receives;
    var all := turns + [t];
    assert all[..|all| - 1] == turns && all[|all| - 1] == t;
  }

  /** What is written into an empty pipe that has room for it comes out as it was, whatever
      happened before. */
  lemma RoundTrip(turns: seq<Turn>, p: nat, q: nat, s: seq<Byte>)
    requires var a := Finally(turns); a.contents == [] && a.readOpen && Awake(a, p) && q !in a.writers
    requires |s| < PIPE_SIZE
    ensures var all := turns + [Writes(p, s, |s|, |s|)] + [Reads(q, |s|, false, |s|)];
            && AllIn(all) == AllIn(turns) + s && AllOut(all) == AllOut(turns) + s
            && AllReceived(all) == AllReceived(turns) + s && Finally(all).contents == []
  {
    hide Finally, AllIn, AllOut, AllReceived, After, Accepts, Takes, Receives;
    var a, t, u := Finally(turns), Writes(p, s, |s|, |s|), Reads(q, |s|, false, |s|);
    OneMoreTurn(turns, t);
    OneMoreTurn(turns + [t], u);
    Fills(a, p, s);
    Empties(After(a, t), q);
  }

  lemma Fills(a: Abstract, p: nat, s: seq<Byte>)
    requires a.contents == [] && a.readOpen && Awake(a, p) && |s| < PIPE_SIZE
    ensures var t := Writes(p, s, |s|, |s|);
            && Accepts(a, t) == s && Takes(a, t) == Receives(a, t) == [] && After(a, t).contents == s
            && After(a, t).readers == {} && After(a, t).writers == a.writers
  {
  }

  lemma Empties(a: Abstract, q: nat)
    requires |a.contents| < PIPE_SIZE && Awake(a, q)
    ensures var t := Reads(q, |a.contents|, false, |a.contents|);
            && Takes(a, t) == Receives(a, t) == a.contents && Accepts(a, t) == [] == After(a, t).contents
  {
  }

  class Pipe {
    const data: array<Byte>
    var r: nat
    var w: nat
    var readOpen: bool
    var writeOpen: bool
    /** All bytes ever put in and taken out. */
    ghost var inserted: seq<Byte>
    ghost var removed: seq<Byte>
    /** The processes that sleep on the pipe. */
    var readers: set<nat>
    var writers: set<nat>

    ghost predicate InRange()
      reads this
    {
      data.Length == PIPE_SIZE && r < PIPE_SIZE && w < PIPE_SIZE
    }

    ghost function Contents(): seq<Byte>
      requires InRange()
      reads this, data
    {
      Ring(data[..], r, w)
    }

    ghost predicate Full()
      requires InRange()
      reads this
    {
      Occupied(r, w) == PIPE_SIZE - 1
    }

    /** Nothing is lost, repeated or reordered; a writer only sleeps while the ring is full,
        and then no reader sleeps. */
    ghost predicate Valid()
      reads this, data
    {
      && InRange()
      && inserted == removed + Contents()
      && (writers != {} ==> Full() && readers == {})
    }

    ghost function View(): Abstract
      requires InRange()
      reads this, data
    {
      Abstract(Contents(), readOpen, writeOpen, readers, writers)
    }

    /** A reader sleeps although there is something to read. */
    ghost predicate Stalled()
      requires InRange()
      reads this, data
    {
      readers != {} && r != w
    }

    constructor ()
      ensures Valid() && inserted == removed == [] && readers == writers == {} && readOpen && writeOpen && fresh(data)
      ensures r == w
    {
      data := new Byte[PIPE_SIZE](_ => 0);
      r, w := 0, 0;
      readOpen, writeOpen := true, true;
      inserted, removed, readers, writers := [], [], {}, {};
    }

    /** A section of pipe_write by process p, which has `src` left to write. The process is
        seen to be killed from byte `killedAt` on, and the copy of byte `faultAt` fails. */
    method Write(p: nat, src: seq<Byte>, killedAt: nat, faultAt: nat) returns (o: Outcome, i: nat)
      requires Valid() && p !in writers && p !in readers
      modifies this, data
      ensures Valid() && i <= |src| && inserted == old(inserted) + src[..i] && removed == old(removed)
      ensures readOpen == old(readOpen) && writeOpen == old(writeOpen)
      ensures o == Finished ==> (i == |src| || i == faultAt) && readers == {} && writers == old(writers)
      ensures o == Slept ==> i < |src| && Full() && readOpen && readers == {} && writers == old(writers) + {p}
      ensures o == Stopped ==>
                i < |src| && (!readOpen || i >= killedAt) && readers == old(readers) && writers == old(writers)
      ensures o == Stopped && i > 0 <==> StopsMidway(old(readOpen), old(Occupied(r, w)), |src|, killedAt, faultAt)
      ensures var room := PIPE_SIZE - 1 - |old(Contents())|;
              && (!old(readOpen) ==> i == 0) && i <= room && i <= killedAt && i <= faultAt
              && (old(readOpen) ==> i == |src| || i == room || i == killedAt || i == faultAt)
      ensures i == Progress(old(readOpen), old(Occupied(r, w)), |src|, killedAt, faultAt)
      ensures o == Ending(old(readOpen), old(Occupied(r, w)), |src|, killedAt, faultAt)
      ensures old(Stalled()) || (Stalled() <==> old(readers) != {} && o == Stopped && i > 0)
    {
      hide Ring, Progress, Ending, StopsMidway;
      RingEmpty(data[..], r, w);
      ghost var had := Occupied(r, w);
      assert |Contents()| == had;
      i := 0;
      o := Finished;
      while i < |src|
        invariant 0 <= i <= |src|
        invariant InRange() && inserted == removed + Contents() && inserted == old(inserted) + src[..i]
        invariant removed == old(removed) && readers == old(readers) && writers == old(writers)
        invariant readOpen == old(readOpen) && writeOpen == old(writeOpen)
        invariant writers != {} ==> Full() && i == 0
        invariant Occupied(r, w) == old(Occupied(r, w)) + i && i <= killedAt && i <= faultAt
        invariant i > 0 ==> readOpen
      {
        if !readOpen || i >= killedAt {
          EndsStopped(readOpen, had, |src|, killedAt, faultAt, i);
          return Stopped, i;
        }
        RingInsert(data[..], r, w, src[i]);
        if (w + 1) % PIPE_SIZE == r {
          readers := {};
          writers := writers + {p};
          EndsFull(readOpen, had, |src|, killedAt, faultAt, i);
          return Slept, i;
        }
        if i == faultAt {
          break;
        }
        Put(src[i]);
        i := i + 1;
      }
      EndsFinished(readOpen, had, |src|, killedAt, faultAt, i);
      readers := {};
    }

    /** Stores one byte. */
    method Put(x: Byte)
      requires InRange() && (w + 1) % PIPE_SIZE != r
      modifies data, `w, `inserted
      ensures InRange() && Contents() == old(Contents()) + [x] && inserted == old(inserted) + [x]
      ensures Occupied(r, w) == old(Occupied(r, w)) + 1
    {
      RingInsert(data[..], r, w, x);
      data[w] := x;
      w := (w + 1) % PIPE_SIZE;
      inserted := inserted + [x];
    }
  
    /** Takes the oldest byte. */
    method Get() returns (x: Byte)
      requires InRange() && r != w
      modifies `r, `removed
      ensures InRange() && old(Contents()) == [x] + Contents() && removed == old(removed) + [x]
    {
      RingRemove(data[..], r, w);
      x := data[r];
      r := (r + 1) % PIPE_SIZE;
      removed := removed + [x];
    }

    /** The loop of pipe_read. */
    method Drain(n: nat, faultAt: nat) returns (out: seq<Byte>)
      requires InRange()
      modifies `r, `removed
      ensures InRange()
      ensures var k := Taken(n, |old(Contents())|, faultAt);
              && out == old(Contents())[..Least(k, faultAt)]
              && Contents() == old(Contents())[k..] && removed == old(removed) + old(Contents())[..k]
    {
      ghost var all := Contents();
      out := [];
      while |out| < n
        invariant |out| <= n && |out| <= faultAt && |out| <= |all|
        invariant InRange() && out == all[..|out|] && Contents() == all[|out|..] && removed == old(removed) + out
      {
        RingRemove(data[..], r, w);
        if r == w {
          assert |out| == |all|;
          return;
        }
        var x := Get();
        assert all[..|out| + 1] == out + [x];
        if |out| == faultAt {
          return;
        }
        out := out + [x];
      }
    }

    /** A section of pipe_read by process p. The copy of byte `faultAt` to the reader fails;
        that byte has left the ring all the same. */
    method Read(p: nat, n: nat, killed: bool, faultAt: nat) returns (o: Outcome, out: seq<Byte>)
      requires Valid() && p !in writers && p !in readers
      modifies `r, `removed, `readers, `writers
      ensures Valid() && inserted == old(inserted)
      ensures o == Finished <==> old(r != w || !writeOpen)
      ensures o == Stopped <==> old(r == w && writeOpen) && killed
      ensures o != Finished ==> Contents() == old(Contents()) && removed == old(removed) && writers == old(writers)
      ensures readers == (old(readers) + if o == Slept then {p} else {}) && (o != Finished ==> out == [])
      ensures o == Finished ==>
                var k := Taken(n, |old(Contents())|, faultAt);
                && writers == {} && out == old(Contents())[..Least(k, faultAt)]
                && Contents() == old(Contents())[k..] && removed == old(removed) + old(Contents())[..k]
      ensures o == Finished ==>
                var had := old(Contents());
                var k := if n < |had| then n else |had|;
                if faultAt < k then out == had[..faultAt] && Contents() == had[faultAt + 1..]
                else out == had[..k] && Contents() == had[k..]
      ensures !old(Stalled()) ==> !Stalled()
    {
      hide Ring;
      RingEmpty(data[..], r, w);
      if r == w && writeOpen {
        if killed {
          return Stopped, [];
        }
        readers := readers + {p};
        return Slept, [];
      }
      out := Deliver(n, faultAt);
      o := Finished;
    }

    /** pipe_read once it need not wait: takes bytes and wakes the writers. */
    method Deliver(n: nat, faultAt: nat) returns (out: seq<Byte>)
      requires Valid()
      modifies `r, `removed, `writers
      ensures Valid() && writers == {} && (old(r) == old(w) ==> r == w)
      ensures var k := Taken(n, |old(Contents())|, faultAt);
              && out == old(Contents())[..Least(k, faultAt)]
              && Contents() == old(Contents())[k..] && removed == old(removed) + old(Contents())[..k]
    {
      hide Ring, Taken, Least, Occupied;
      ghost var all := Contents();
      RingEmpty(data[..], r, w);
      out := Drain(n, faultAt);
      RingEmpty(data[..], r, w);
      SplitAt(old(removed), all, Taken(n, |all|, faultAt));
      writers := {};
    }

    /** pipe_close of one end: everybody who sleeps for that end wakes up. */
    method Close(writable: bool)
      requires Valid()
      modifies `readOpen, `writeOpen, `readers, `writers
      ensures Valid()
      ensures writable ==> !writeOpen && readOpen == old(readOpen) && readers == {} && writers == old(writers)
      ensures !writable ==> !readOpen && writeOpen == old(writeOpen) && writers == {} && readers == old(readers)
      ensures !old(Stalled()) ==> !Stalled()
    {
      if writable {
        writeOpen := false;
        readers := {};
      } else {
        readOpen := false;
        writers := {};
      }
    }

    /** A signal makes a sleeping process runnable. */
    method Kill(p: nat)
      requires Valid()
      modifies `readers, `writers
      ensures Valid() && readers == old(readers) - {p} && writers == old(writers) - {p}
      ensures !old(Stalled()) ==> !Stalled()
    {
      readers := readers - {p};
      writers := writers - {p};
    }
  }

  lemma Prefix(turns: seq<Turn>, k: nat)
    requires k < |turns|
    ensures turns[..k + 1] == turns[..k] + [turns[k]]
  {
  }

  /** Any interleaving of any processes on one pipe, as the turns say. What was taken out and what
      is in the ring is always what was put in, in order; a reader and a writer never sleep at the
      same time; and a reader only sleeps with something to read after some writer was stopped
      midway. */
  method Run(turns: seq<Turn>) returns (pi: Pipe, midway: bool, received: seq<Byte>)
    ensures pi.Valid() && pi.View() == Finally(turns)
    ensures pi.inserted == AllIn(turns) && pi.removed == AllOut(turns) && received == AllReceived(turns)
    ensures pi.inserted == pi.removed + pi.Contents()
    ensures pi.writers == {} || (pi.readers == {} && pi.Full())
    ensures midway <==> exists k: nat :: InterruptsAt(turns, k)
    ensures pi.Stalled() ==> midway
  {
    hide After, Accepts, Takes, Receives, Interrupts, Finally, AllIn, AllOut, AllReceived, Ring, Occupied;
    pi := new Pipe();
    midway, received := false, [];
    Unused(pi);
    for k := 0 to |turns|
      invariant fresh(pi) && fresh(pi.data) && pi.Valid() && (pi.Stalled() ==> midway)
      invariant pi.View() == Finally(turns[..k]) && received == AllReceived(turns[..k])
      invariant pi.inserted == AllIn(turns[..k]) && pi.removed == AllOut(turns[..k])
      invariant midway <==> exists j: nat :: j < k && InterruptsAt(turns, j)
    {
      var stopped, got := Step(pi, turns[k]);
      midway, received := midway || stopped, received + got;
      Prefix(turns, k);
      OneMoreTurn(turns[..k], turns[k]);
      assert InterruptsAt(turns, k) <==> stopped;
    }
    assert turns[..|turns|] == turns;
  }

  lemma Unused(pi: Pipe)
    requires pi.InRange() && pi.r == pi.w && pi.readOpen && pi.writeOpen && pi.readers == pi.writers == {}
    ensures pi.View() == Finally([]) && AllIn([]) == AllOut([]) == AllReceived([]) == []
  {
    hide Ring;
    RingEmpty(pi.data[..], pi.r, pi.w);
  }

  /** One turn does what it should; the results tell whether a writer was stopped midway and what
      a reader got. */
  method Step(pi: Pipe, t: Turn) returns (stopped: bool, got: seq<Byte>)
    requires pi.Valid()
    modifies pi, pi.data
    ensures pi.Valid() && (pi.Stalled() ==> old(pi.Stalled()) || stopped)
    ensures pi.View() == After(old(pi.View()), t) && stopped == Interrupts(old(pi.View()), t)
    ensures pi.inserted == old(pi.inserted) + Accepts(old(pi.View()), t)
    ensures pi.removed == old(pi.removed) + Takes(old(pi.View()), t)
    ensures got == Receives(old(pi.View()), t)
  {
    stopped, got := false, [];
    match t
    case Writes(p, _, _, _) =>
      if p !in pi.readers && p !in pi.writers {
        stopped := StepWrite(pi, t);
      }
    case Reads(p, _, _, _) =>
      if p !in pi.readers && p !in pi.writers {
        got := StepRead(pi, t);
      }
    case Closes(writable) => pi.Close(writable);
    case Signals(p) => pi.Kill(p);
  }

  method StepWrite(pi: Pipe, t: Turn) returns (stopped: bool)
    requires pi.Valid() && t.Writes? && Awake(pi.View(), t.p)
    modifies pi, pi.data
    ensures pi.Valid() && (pi.Stalled() ==> old(pi.Stalled()) || stopped)
    ensures pi.View() == After(old(pi.View()), t) && stopped == Interrupts(old(pi.View()), t)
    ensures pi.inserted == old(pi.inserted) + Accepts(old(pi.View()), t) && pi.removed == old(pi.removed)
  {
    hide Ring, Ending, Progress, StopsMidway;
    RingEmpty(pi.data[..], pi.r, pi.w);
    var o, i := pi.Write(t.p, t.src, t.killedAt, t.faultAt);
    stopped := o == Stopped && i > 0;
    Appended(pi.removed, old(pi.Contents()), pi.Contents(), t.src[..i]);
  }

  method StepRead(pi: Pipe, t: Turn) returns (got: seq<Byte>)
    requires pi.Valid() && t.Reads? && Awake(pi.View(), t.p)
    modifies pi, pi.data
    ensures pi.Valid() && (pi.Stalled() ==> old(pi.Stalled()))
    ensures pi.View() == After(old(pi.View()), t) && pi.inserted == old(pi.inserted)
    ensures pi.removed == old(pi.removed) + Takes(old(pi.View()), t) && got == Receives(old(pi.View()), t)
  {
    hide Ring, Ending, Progress, StopsMidway;
    RingEmpty(pi.data[..], pi.r, pi.w);
    var o;
    o, got := pi.Read(t.p, t.n, t.killed, t.faultAt);
  }

  lemma Appended(front: seq<Byte>, s: seq<Byte>, t: seq<Byte>, more: seq<Byte>)
    requires front + t == front + s + more
    ensures t == s + more
  {
    assert (front + t)[|front|..] == t && (front + s + more)[|front|..] == s + more;
  }

  /** The situation does arise: a reader sleeps, a writer puts in one byte, is killed and
      returns without waking the reader. */
  method KilledWriterStallsReader() returns (pi: Pipe)
    ensures fresh(pi) && pi.Valid() && pi.Stalled()
  {
    pi := new Pipe();
    RingEmpty(pi.data[..], pi.r, pi.w);
    var o, _ := pi.Read(1, 1, false, 0);
    RingEmpty(pi.data[..], pi.r, pi.w);
    var o', i := pi.Write(2, [7, 7], 1, 2);
  }
}
