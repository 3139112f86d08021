/** The table of inodes in memory with its reference counts, and the walk along a path. */
module Paths {
  import opened Basics
  import opened Blocks
  import opened Strings
  import opened Inodes
  import opened FileSystem
  import opened Directory
  import opened DirectoryOps

  const N_INODE := 50
  const ROOT_INO := 1
  const SLASH: Byte := 47

  /** A slot of the table; it is unused when its count is 0. */
  datatype Slot = Slot(refs: nat, ino: nat)

  // ------------------------------------------------------------------ the table

  /** The inodes with a slot are those with references. */
  ghost predicate Keyed(refs: multiset<nat>, at: map<nat, nat>) {
    forall n: nat :: n in at <==> refs[n] > 0
  }

  lemma KeyedMore(refs: multiset<nat>, at: map<nat, nat>, n: nat, i: nat)
    requires Keyed(refs, at)
    ensures Keyed(refs + multiset{n}, at[n := i]) && (n in at <==> n in refs) && forall m | m in at :: refs[m] > 0
    ensures forall m: nat :: (refs + multiset{n})[m] == refs[m] + if m == n then 1 else 0
  {
  }

  lemma KeyedLess(refs: multiset<nat>, at: map<nat, nat>, n: nat)
    requires Keyed(refs, at) && n in refs
    ensures Keyed(refs - multiset{n}, if n in refs - multiset{n} then at else at - {n})
    ensures forall m: nat :: (refs - multiset{n})[m] == refs[m] - if m == n then 1 else 0
  {
  }

  /** One more reference needs at most one more slot. */
  lemma OneMoreSlot(refs: multiset<nat>, at: map<nat, nat>, now: map<nat, nat>, n: nat)
    requires Keyed(refs, at) && Keyed(refs + multiset{n}, now)
    ensures |now| <= |at| + 1
  {
    assert now.Keys == at.Keys + {n};
    assert |now.Keys| <= |at.Keys| + 1;
  }

  class InodeTable {
    const slots: array<Slot>
    /** The references by inode number, and the slot of each inode that has one. */
    ghost var refs: multiset<nat>
    ghost var at: map<nat, nat>

    /** No inode has two slots, and the slots hold exactly the counts. */
    ghost predicate Valid()
      reads this, slots
    {
      && slots.Length == N_INODE && Keyed(refs, at)
      && (forall n | n in at :: at[n] < N_INODE && slots[at[n]] == Slot(refs[n], n))
      && (forall i | 0 <= i < N_INODE && slots[i].refs > 0 :: slots[i].ino in at && at[slots[i].ino] == i)
    }

    /** A slot in use, for the given inode. */
    ghost predicate Held(i: nat, n: nat)
      reads this
    {
      n in at && at[n] == i
    }

    lemma InUse(i: nat)
      requires Valid() && i < N_INODE && slots[i].refs > 0
      ensures slots[i].ino in at && at[slots[i].ino] == i && slots[i].ino in refs && refs[slots[i].ino] == slots[i].refs
    {
    }

    lemma KeyedIs()
      requires Valid()
      ensures Keyed(refs, at)
    {
    }

    lemma HeldIs(i: nat, n: nat)
      requires Valid() && Held(i, n)
      ensures i < N_INODE == slots.Length && slots[i].refs > 0 && slots[i].ino == n && n in refs
    {
    }

    constructor ()
      ensures Valid() && refs == multiset{} && at == map[] && fresh(slots)
    {
      slots := new Slot[N_INODE](_ => Slot(0, 0));
      refs, at := multiset{}, map[];
    }

    /** The scan of iget: the slot of an inode, and the first unused slot seen before it. */
    method Find(n: nat) returns (hit: nat, empty: nat)
      requires Valid()
      ensures hit <= N_INODE && empty <= N_INODE
      ensures if n in refs then n in at && hit == at[n] else hit == N_INODE
      ensures empty < N_INODE ==> slots[empty].refs == 0
      ensures hit == N_INODE && empty == N_INODE ==> forall k | 0 <= k < N_INODE :: slots[k].refs > 0
    {
      empty := N_INODE;
      hit := 0;
      while hit < N_INODE
        invariant 0 <= hit <= N_INODE && 0 <= empty <= N_INODE
        invariant empty < N_INODE ==> slots[empty].refs == 0
        invariant empty == N_INODE ==> forall k | 0 <= k < hit :: slots[k].refs > 0
        invariant forall k | 0 <= k < hit :: !(slots[k].refs > 0 && slots[k].ino == n)
      {
        if slots[hit].refs > 0 && slots[hit].ino == n {
          return;
        }
        if empty == N_INODE && slots[hit].refs == 0 {
          empty := hit;
        }
        hit := hit + 1;
      }
    }

    /** The slots in use are as many as the inodes with references. */
    lemma UsedSlots()
      requires Valid()
      ensures |at| == |set k: nat | k < N_INODE && slots[k].refs > 0|
      ensures |at| <= N_INODE && (|at| == N_INODE <==> forall k | 0 <= k < N_INODE :: slots[k].refs > 0)
    {
      hide Range;
      var used := set k: nat | k < N_INODE && slots[k].refs > 0;
      ImageCard(at, at.Keys, used);
      RangeCard(0, N_INODE);
      SubsetCard(used, Range(0, N_INODE));
      assert forall k: nat | k < N_INODE :: k in used <==> slots[k].refs > 0;
      if forall k | 0 <= k < N_INODE :: slots[k].refs > 0 {
        assert used == Range(0, N_INODE);
      }
    }

    /** One more reference to an inode that has some. */
    method Bump(i: nat)
      requires Valid() && i < N_INODE && slots[i].refs > 0
      modifies this`refs, slots
      ensures Valid() && Held(i, old(slots[i].ino)) && refs == old(refs) + multiset{old(slots[i].ino)}
    {
      var n := slots[i].ino;
      slots[i] := Slot(slots[i].refs + 1, n);
      refs := refs + multiset{n};
    }

    /** The first reference to an inode takes an unused slot. */
    method Claim(i: nat, n: nat)
      requires Valid() && i < N_INODE && slots[i].refs == 0 && n !in refs
      modifies this, slots
      ensures Valid() && refs == old(refs) + multiset{n} && at == old(at)[n := i]
    {
      hide Keyed;
      KeyedMore(refs, at, n, i);
      slots[i] := Slot(1, n);
      refs, at := refs + multiset{n}, at[n := i];
    }

    /** iget: finds or makes the slot of an inode and counts one more reference; `ok` is false
        when it panics because all slots are in use by other inodes. */
    method Iget(n: nat) returns (ok: bool, i: nat)
      requires Valid()
      modifies this, slots
      ensures Valid()
      ensures ok ==>
                && Held(i, n) && refs == old(refs) + multiset{n}
                && at == if n in old(refs) then old(at) else old(at)[n := i]
      ensures ok <==> n in old(refs) || |old(at)| < N_INODE
      ensures !ok ==> refs == old(refs) && |old(at)| == N_INODE
    {
      UsedSlots();
      KeyedIs();
      var hit, empty := Find(n);
      if hit < N_INODE {
        Bump(hit);
        return true, hit;
      }
      if empty == N_INODE {
        return false, 0;
      }
      Claim(empty, n);
      return true, empty;
    }

    /** idup: one more reference; `ok` is false when it panics. */
    method Idup(i: nat) returns (ok: bool)
      requires Valid() && i < N_INODE
      modifies this, slots
      ensures Valid() && (ok <==> old(slots[i].refs) > 0)
      ensures ok ==> Held(i, old(slots[i].ino)) && refs == old(refs) + multiset{old(slots[i].ino)}
      ensures !ok ==> refs == old(refs)
    {
      if slots[i].refs < 1 {
        return false;
      }
      Bump(i);
      ok := true;
    }

    /** iput of an inode that still has a name on the disk: one reference less, and the slot is
        given up with the last one. */
    method Iput(i: nat)
      requires Valid() && i < N_INODE && slots[i].refs > 0
      modifies this, slots
      ensures Valid()
      ensures var n := old(slots[i].ino);
              && n in old(refs) && refs == old(refs) - multiset{n}
              && at == if n in refs then old(at) else old(at) - {n}
    {
      hide Keyed;
      var n := slots[i].ino;
      InUse(i);
      KeyedLess(refs, at, n);
      slots[i] := Slot(slots[i].refs - 1, n);
      refs := refs - multiset{n};
      if slots[i].refs == 0 {
        at := at - {n};
      }
    }
  }

  // ------------------------------------------------------------------ components

  /** The number of bytes before the first slash. */
  function ElemLen(s: seq<Byte>): (n: nat)
    ensures n <= |s| && (forall i | 0 <= i < n :: s[i] != SLASH) && (n < |s| ==> s[n] == SLASH)
  {
    if s == [] || s[0] == SLASH then 0 else 1 + ElemLen(s[1..])
  }

  /** The non-empty components of a path. */
  function Split(s: seq<Byte>): seq<seq<Byte>>
    decreases |s|
  {
    if s == [] then []
    else if s[0] == SLASH then Split(s[1..])
    else [s[..ElemLen(s)]] + Split(s[ElemLen(s)..])
  }

  /** A component as a name: at most thirty bytes of it. */
  function Clip(s: seq<Byte>): (r: seq<Byte>)
    ensures r <= s && (|s| <= 30 ==> r == s) && (|s| > 30 ==> |r| == 30)
  {
    if |s| < DIR_SIZE then s else s[..DIR_SIZE]
  }

  /** A component: not empty and without a slash. */
  predicate IsName(s: seq<Byte>) {
    s != [] && forall k | 0 <= k < |s| :: s[k] != SLASH
  }

  /** The path with the given components, each behind one slash. */
  function JoinNames(comps: seq<seq<Byte>>): seq<Byte> {
    if comps == [] then [] else [SLASH] + comps[0] + JoinNames(comps[1..])
  }

  /** Splitting undoes joining, and whatever a path splits into are components that make an
      equivalent path. */
  lemma {:induction false} SplitJoins(comps: seq<seq<Byte>>)
    requires forall c | c in comps :: IsName(c)
    ensures Split(JoinNames(comps)) == comps
  {
    if comps != [] {
      var path, c, rest := JoinNames(comps), comps[0], JoinNames(comps[1..]);
      assert comps == [c] + comps[1..] && IsName(c);
      forall d | d in comps[1..] ensures IsName(d) {
        assert d in comps;
      }
      SplitJoins(comps[1..]);
      assert path[0..] == path && path[1..1 + |c|] == c && path[1 + |c|..] == rest;
      assert rest != [] ==> rest[0] == SLASH;
      assert forall k | 1 <= k < 1 + |c| :: path[k] == c[k - 1];
      hide Split, JoinNames;
      SplitFirst(path, 0, 1, 1 + |c|, 1 + |c|);
    }
  }

  lemma {:induction false} SplitNames(path: seq<Byte>)
    ensures forall c | c in Split(path) :: IsName(c)
    decreases |path|
  {
    if path != [] {
      if path[0] == SLASH {
        SplitNames(path[1..]);
      } else {
        var n := ElemLen(path);
        SplitNames(path[n..]);
        assert IsName(path[..n]);
      }
    }
  }

  lemma {:induction false} SplitSlashes(path: seq<Byte>, i: nat, a: nat)
    requires i <= a <= |path| && forall k | i <= k < a :: path[k] == SLASH
    ensures Split(path[i..]) == Split(path[a..])
    decreases a - i
  {
    if i < a {
      SplitSlashes(path, i + 1, a);
      assert path[i..][1..] == path[i + 1..];
    }
  }

  lemma {:induction false} ElemLenIs(path: seq<Byte>, a: nat, b: nat)
    requires a <= b <= |path| && (forall k | a <= k < b :: path[k] != SLASH) && (b < |path| ==> path[b] == SLASH)
    ensures ElemLen(path[a..]) == b - a
    decreases b - a
  {
  }

  lemma SplitHead(path: seq<Byte>, a: nat, b: nat)
    requires a < b <= |path| && (forall k | a <= k < b :: path[k] != SLASH) && (b < |path| ==> path[b] == SLASH)
    ensures Split(path[a..]) == [path[a..b]] + Split(path[b..])
  {
    ElemLenIs(path, a, b);
    assert path[a..][..b - a] == path[a..b] && path[a..][b - a..] == path[b..];
  }

  /** Slashes before and after the first component do not matter. */
  lemma SplitFirst(path: seq<Byte>, i: nat, a: nat, b: nat, next: nat)
    requires i <= a < b <= next <= |path|
    requires forall k | i <= k < a :: path[k] == SLASH
    requires forall k | a <= k < b :: path[k] != SLASH
    requires b < |path| ==> path[b] == SLASH
    requires forall k | b <= k < next :: path[k] == SLASH
    ensures Split(path[i..]) == [path[a..b]] + Split(path[next..])
  {
    hide Split;
    SplitSlashes(path, i, a);
    SplitHead(path, a, b);
    SplitSlashes(path, b, next);
  }

  lemma SplitNone(path: seq<Byte>, i: nat)
    requires i <= |path| && forall k | i <= k < |path| :: path[k] == SLASH
    ensures Split(path[i..]) == []
  {
    SplitSlashes(path, i, |path|);
  }

  /** The index of the first byte at or behind i that is a slash, or that is none. */
  method Skip(path: seq<Byte>, i: nat, slashes: bool) returns (k: nat)
    requires i <= |path|
    ensures i <= k <= |path| && forall j | i <= j < k :: path[j] == SLASH <==> slashes
    ensures k < |path| ==> (path[k] == SLASH <==> !slashes)
  {
    k := i;
    while k < |path| && (path[k] == SLASH) == slashes
      invariant i <= k <= |path| && forall j | i <= j < k :: path[j] == SLASH <==> slashes
    {
      k := k + 1;
    }
  }

  /** skip_elem on the path from index i on: the next component, and the index behind it and
      the slashes that follow; index -1 when there is none. */
  method SkipElem(path: seq<Byte>, i: nat) returns (next: int, name: seq<Byte>)
    requires i <= |path| && forall k | 0 <= k < |path| :: path[k] != 0
    ensures next == -1 <==> Split(path[i..]) == []
    ensures next != -1 ==>
              && i < next <= |path| && Readable(name, DIR_SIZE) && Split(path[i..]) != []
              && Split(path[i..])[1..] == Split(path[next..])
              && Text(name, DIR_SIZE) == Clip(Split(path[i..])[0])
              && (next == |path| <==> Split(path[next..]) == [])
  {
    hide Split, Text;
    var a := Skip(path, i, true);
    if a == |path| {
      SplitNone(path, i);
      return -1, [];
    }
    var b := Skip(path, a, false);
    var k := Skip(path, b, true);
    SplitFirst(path, i, a, b, k);
    NameOf(path[a..b]);
    name := if b - a >= DIR_SIZE then path[a..b][..DIR_SIZE] else path[a..b] + [0];
    next := k;
    MoreLeft(path, k);
  }

  /** The name buffer that skip_elem leaves behind. */
  lemma NameOf(s: seq<Byte>)
    requires forall k | 0 <= k < |s| :: s[k] != 0
    ensures var name := if |s| >= DIR_SIZE then s[..DIR_SIZE] else s + [0];
            Readable(name, DIR_SIZE) && Text(name, DIR_SIZE) == Clip(s)
  {
    var name := if |s| >= DIR_SIZE then s[..DIR_SIZE] else s + [0];
    var k := if |s| >= DIR_SIZE then DIR_SIZE else |s|;
    TextIs(name, DIR_SIZE, k);
    assert name[..k] == s[..k];
    assert |s| < DIR_SIZE ==> s[..k] == s;
  }

  lemma MoreLeft(path: seq<Byte>, k: nat)
    requires k <= |path| && (k < |path| ==> path[k] != SLASH)
    ensures k == |path| <==> Split(path[k..]) == []
  {
  }

  // ------------------------------------------------------------------ walking

  /** Every name in a directory leads to an inode of the table. */
  ghost predicate Closed(f: Fs) {
    forall dir: nat, name | dir < N_INODES && IsDir(f.t[dir]) && name in Names(f, dir) :: Names(f, dir)[name] < N_INODES
  }

  /** Folding the maps of the directories over the components. */
  ghost function Resolve(f: Fs, start: nat, comps: seq<seq<Byte>>): Option<nat>
    requires start < N_INODES && Closed(f)
    decreases |comps|
  {
    if comps == [] then Some(start)
    else if !IsDir(f.t[start]) || Clip(comps[0]) !in Names(f, start) then None
    else Resolve(f, Names(f, start)[Clip(comps[0])], comps[1..])
  }

  /** Walking along two paths one after the other is walking along the longer one. */
  lemma {:induction false} ResolveOn(f: Fs, start: nat, a: seq<seq<Byte>>, b: seq<seq<Byte>>)
    requires start < N_INODES && Closed(f)
    ensures var mid := Resolve(f, start, a);
            && (mid.Some? ==> mid.value < N_INODES)
            && Resolve(f, start, a + b) == if mid.Some? then Resolve(f, mid.value, b) else None
    decreases |a|
  {
    hide Names, Clip, IsDir;
    if a == [] {
      assert a + b == b;
    } else {
      assert (a + b)[0] == a[0] && (a + b)[1..] == a[1..] + b;
      if IsDir(f.t[start]) && Clip(a[0]) in Names(f, start) {
        ResolveOn(f, Names(f, start)[Clip(a[0])], a[1..], b);
      }
    }
  }

  /** The directory that holds the last component. */
  ghost function ParentOf(f: Fs, start: nat, comps: seq<seq<Byte>>): Option<nat>
    requires start < N_INODES && Closed(f)
    decreases |comps|
  {
    if comps == [] || !IsDir(f.t[start]) then None
    else if |comps| == 1 then Some(start)
    else if Clip(comps[0]) !in Names(f, start) then None
    else ParentOf(f, Names(f, start)[Clip(comps[0])], comps[1..])
  }

  /** A path resolves to what its last component names in its parent directory. */
  lemma {:induction false} ParentResolves(f: Fs, start: nat, comps: seq<seq<Byte>>)
    requires start < N_INODES && Closed(f) && comps != []
    ensures var d := ParentOf(f, start, comps); d.Some? ==> d.value < N_INODES
    ensures var d, last := ParentOf(f, start, comps), Clip(comps[|comps| - 1]);
            Resolve(f, start, comps)
            == if d.Some? && last in Names(f, d.value) then Some(Names(f, d.value)[last]) else None
    decreases |comps|
  {
    hide Names, Clip;
    if |comps| > 1 && IsDir(f.t[start]) && Clip(comps[0]) in Names(f, start) {
      ParentResolves(f, Names(f, start)[Clip(comps[0])], comps[1..]);
    }
  }

  lemma WholeAt(f: Fs, n: nat)
    requires Whole(f) && n < N_INODES
    ensures NoHoles(f, n)
  {
  }

  datatype Walk = At(slot: nat, name: seq<Byte>) | NoSuch | WalkPanic

  /** Some directory ends with a partial entry. */
  ghost predicate Torn(f: Fs) {
    exists dir: nat :: dir < N_INODES && IsDir(f.t[dir]) && f.t[dir].size as int % ENTRY != 0
  }

  /** One round of the walk: from a directory to the inode of a name in it. The reference to
      the directory is given up in exchange for one to the inode. It panics exactly when the
      lookup does, or when the inode is new to the table and the table is full. */
  method Enter(fs: FileSystem, tab: InodeTable, cur: nat, dir: nat, name: seq<Byte>) returns (r: Walk, next: nat)
    requires Sound(fs.State()) && Whole(fs.State()) && Readable(name, DIR_SIZE)
    requires tab.Valid() && tab.Held(cur, dir) && dir < N_INODES
    modifies fs, tab, tab.slots
    ensures fs.State() == old(fs.State())
    ensures var key, names := Text(name, DIR_SIZE), Names(fs.State(), dir);
            r.WalkPanic? <==> CannotLookUp(fs.State(), dir, key)
                              || (key in names && names[key] !in old(tab.refs) && |old(tab.at)| == N_INODE)
    ensures !r.WalkPanic? ==> tab.Valid() && dir in old(tab.refs)
    ensures var key, names := Text(name, DIR_SIZE), Names(fs.State(), dir);
            && (r.NoSuch? ==> key !in names && tab.refs == old(tab.refs) - multiset{dir})
            && (r.At? ==>
                  && key in names && next == names[key] && tab.Held(r.slot, next)
                  && tab.refs == old(tab.refs) - multiset{dir} + multiset{next})
  {
    hide Sound, Whole, Content, Text, Names, Entries, Readable, Live, InodeTable.Valid, CannotLookUp;
    WholeAt(fs.State(), dir);
    var l := DirLookup(fs, dir, name);
    if l.ReadPanic? {
      return WalkPanic, 0;
    }
    tab.HeldIs(cur, dir);
    if l.Missing? {
      tab.Iput(cur);
      return NoSuch, 0;
    }
    var ok, slot := tab.Iget(l.ino);
    if !ok {
      return WalkPanic, 0;
    }
    tab.HeldIs(cur, dir);
    tab.Iput(cur);
    return At(slot, name), l.ino;
  }

  /** Where the walk starts: at the root or at the current directory, with a reference. */
  method Start(tab: InodeTable, path: seq<Byte>, cwd: nat, here: nat) returns (ok: bool, slot: nat)
    requires tab.Valid() && tab.Held(cwd, here)
    modifies tab, tab.slots
    ensures !ok ==> |old(tab.at)| == N_INODE
    ensures ok ==>
              var from := if path != [] && path[0] == SLASH then ROOT_INO else here;
              tab.Valid() && tab.Held(slot, from) && tab.refs == old(tab.refs) + multiset{from}
  {
    hide InodeTable.Valid;
    tab.HeldIs(cwd, here);
    if path != [] && path[0] == SLASH {
      ok, slot := tab.Iget(ROOT_INO);
    } else {
      ok := tab.Idup(cwd);
      slot := cwd;
    }
  }

  /** What a walk is to find. */
  ghost function Target(f: Fs, start: nat, comps: seq<seq<Byte>>, parent: bool): Option<nat>
    requires start < N_INODES && Closed(f)
  {
    if parent then ParentOf(f, start, comps) else Resolve(f, start, comps)
  }

  /** The rounds of a walk: it stops, or goes on from the next directory. */
  lemma TargetSteps(f: Fs, dir: nat, comps: seq<seq<Byte>>, parent: bool)
    requires dir < N_INODES && Closed(f)
    ensures comps == [] ==> Target(f, dir, comps, parent) == if parent then None else Some(dir)
    ensures comps != [] && !IsDir(f.t[dir]) ==> Target(f, dir, comps, parent) == None
    ensures comps != [] && IsDir(f.t[dir]) && parent && comps[1..] == [] ==> Target(f, dir, comps, parent) == Some(dir)
    ensures comps != [] && IsDir(f.t[dir]) && (parent ==> comps[1..] != []) ==>
              var key := Clip(comps[0]);
              if key !in Names(f, dir) then Target(f, dir, comps, parent) == None
              else
                && Names(f, dir)[key] < N_INODES
                && Target(f, dir, comps, parent) == Target(f, Names(f, dir)[key], comps[1..], parent)
  {
    hide Names, Clip, IsDir;
  }

  /** One round of lookup at a directory, before the components from index i on: it ends the
      walk, there or with nothing, or exchanges the directory for the next inode. */
  method Round(fs: FileSystem, tab: InodeTable, path: seq<Byte>, i: nat, parent: bool, cur: nat, dir: nat)
      returns (stop: bool, r: Walk, next: nat, to: nat)
    requires Sound(fs.State()) && Whole(fs.State()) && Closed(fs.State()) && forall k | 0 <= k < |path| :: path[k] != 0
    requires i <= |path| && tab.Valid() && tab.Held(cur, dir) && dir < N_INODES
    modifies fs, tab, tab.slots
    ensures fs.State() == old(fs.State())
    ensures r.WalkPanic? ==> stop && (Torn(fs.State()) || |old(tab.at)| == N_INODE)
    ensures !r.WalkPanic? ==> tab.Valid() && dir in old(tab.refs)
    ensures var left := Split(path[i..]);
            var want := Target(fs.State(), dir, left, parent);
            && (stop && r.NoSuch? ==> want == None && tab.refs == old(tab.refs) - multiset{dir})
            && (stop && r.At? ==> r.slot == cur && want == Some(dir) && tab.Held(cur, dir) && tab.refs == old(tab.refs))
            && (stop && r.At? && parent ==> left != [] && Text(r.name, DIR_SIZE) == Clip(left[|left| - 1]))
            && (!stop ==> r.At? && i < next <= |path| && left != [] && left[1..] == Split(path[next..]) && to < N_INODES
                          && want == Target(fs.State(), to, left[1..], parent)
                          && tab.Held(r.slot, to) && tab.refs == old(tab.refs) - multiset{dir} + multiset{to})
  {
    hide Sound, Whole, Closed, Text, Names, Readable, Split, Clip, IsDir, InodeTable.Valid, Target;
    TargetSteps(fs.State(), dir, Split(path[i..]), parent);
    tab.HeldIs(cur, dir);
    next, to := 0, 0;
    var behind, name := SkipElem(path, i);
    if behind == -1 {
      if parent {
        tab.Iput(cur);
        return true, NoSuch, 0, 0;
      }
      return true, At(cur, []), 0, 0;
    }
    if !IsDir(fs.table[dir]) {
      tab.Iput(cur);
      return true, NoSuch, 0, 0;
    }
    if parent && behind == |path| {
      return true, At(cur, name), 0, 0;
    }
    r, to := Enter(fs, tab, cur, dir, name);
    stop, next := !r.At?, behind;
  }

  lemma Exchange(refs: multiset<nat>, a: nat, b: nat)
    ensures refs + multiset{a} - multiset{a} == refs
    ensures refs + multiset{a} - multiset{a} + multiset{b} == refs + multiset{b}
  {
  }

  lemma SameLast<T>(s: seq<T>)
    requires |s| > 1
    ensures s[1..] != [] && s[1..][|s[1..]| - 1] == s[|s| - 1]
  {
  }

  /** The loop of lookup, from an inode to which the caller has a reference. */
  method Follow(fs: FileSystem, tab: InodeTable, path: seq<Byte>, parent: bool, slot: nat, from: nat,
                ghost refs: multiset<nat>, ghost at: map<nat, nat>) returns (r: Walk)
    requires Sound(fs.State()) && Whole(fs.State()) && Closed(fs.State()) && forall k | 0 <= k < |path| :: path[k] != 0
    requires tab.Valid() && tab.Held(slot, from) && from < N_INODES && tab.refs == refs + multiset{from}
    requires Keyed(refs, at)
    modifies fs, tab, tab.slots
    ensures fs.State() == old(fs.State())
    ensures r.WalkPanic? ==> Torn(fs.State()) || |at| + 2 > N_INODE
    ensures var want := Target(fs.State(), from, Split(path), parent);
            && (r.NoSuch? ==> tab.Valid() && want == None && tab.refs == refs)
            && (r.At? ==>
                  tab.Valid() && want.Some? && tab.Held(r.slot, want.value) && tab.refs == refs + multiset{want.value})
    ensures r.At? && parent ==> Split(path) != [] && Text(r.name, DIR_SIZE) == Clip(Split(path)[|Split(path)| - 1])
  {
    hide Sound, Whole, Closed, Text, Split, Clip, InodeTable.Valid, InodeTable.Held, Target, Keyed, Torn;
    ghost var f, left := fs.State(), Split(path);
    var i, cur, dir: nat := 0, slot, from;
    assert path[0..] == path;
    while true
      invariant 0 <= i <= |path| && fs.State() == f && tab.Valid() && left == Split(path[i..])
      invariant dir < N_INODES && tab.Held(cur, dir) && tab.refs == refs + multiset{dir}
      invariant Target(f, dir, left, parent) == Target(f, from, Split(path), parent)
      invariant left != [] ==> Split(path) != [] && left[|left| - 1] == Split(path)[|Split(path)| - 1]
      decreases |path| - i
    {
      tab.KeyedIs();
      ghost var now := tab.at;
      var stop, w, next, to := Round(fs, tab, path, i, parent, cur, dir);
      if w.WalkPanic? {
        OneMoreSlot(refs, at, now, dir);
        return w;
      }
      Exchange(refs, dir, to);
      if stop {
        return w;
      }
      if |left| > 1 {
        SameLast(left);
      }
      cur, i, dir, left := w.slot, next, to, left[1..];
    }
  }

  /** lookup: the walk of namei (`parent` false) and of parenti (`parent` true), from the root
      for a path that begins with a slash and from the current directory for others. The result
      holds one new reference, and no other count changes; a failing walk changes none. It
      panics only if a directory ends with a partial entry, or if fewer than two slots of the
      table were unused. */
  method LookupPath(fs: FileSystem, tab: InodeTable, path: seq<Byte>, parent: bool, cwd: nat, here: nat)
      returns (r: Walk)
    requires Sound(fs.State()) && Whole(fs.State()) && Closed(fs.State()) && forall k | 0 <= k < |path| :: path[k] != 0
    requires tab.Valid() && tab.Held(cwd, here) && here < N_INODES
    modifies fs, tab, tab.slots
    ensures fs.State() == old(fs.State())
    ensures r.WalkPanic? ==> Torn(fs.State()) || |old(tab.at)| + 2 > N_INODE
    ensures var from := if path != [] && path[0] == SLASH then ROOT_INO else here;
            var want := Target(fs.State(), from, Split(path), parent);
            && (r.NoSuch? ==> tab.Valid() && want == None && tab.refs == old(tab.refs))
            && (r.At? ==>
                  && tab.Valid() && want.Some? && tab.Held(r.slot, want.value)
                  && tab.refs == old(tab.refs) + multiset{want.value})
    ensures r.At? && parent ==> Split(path) != [] && Text(r.name, DIR_SIZE) == Clip(Split(path)[|Split(path)| - 1])
  {
    hide Sound, Whole, Closed, Text, Split, Clip, InodeTable.Valid, InodeTable.Held, Target, Keyed, Torn;
    ghost var refs, at := tab.refs, tab.at;
    tab.KeyedIs();
    var ok, slot := Start(tab, path, cwd, here);
    if !ok {
      return WalkPanic;
    }
    r := Follow(fs, tab, path, parent, slot, if path != [] && path[0] == SLASH then ROOT_INO else here, refs, at);
  }
}
