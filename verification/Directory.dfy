/** Directories: files whose contents are an array of entries, read as a map from names to
    inode numbers. Names count up to thirty bytes. */
module Directory {
  import opened Blocks
  import opened Strings
  import opened Inodes

  const DIR_SIZE := 30
  const ENTRY := 32

  /** An entry with inode number 0 is empty. */
  datatype Entry = Entry(ino: nat, name: seq<Byte>)

  function Decode(c: seq<Byte>, off: nat): (e: Entry)
    requires off + ENTRY <= |c|
    ensures |e.name| <= DIR_SIZE
  {
    Entry(c[off] as int + 256 * c[off + 1] as int, Text(c[off + 2..off + ENTRY], DIR_SIZE))
  }

  function Entries(c: seq<Byte>): (es: seq<Entry>)
    ensures |es| == |c| / ENTRY
    ensures forall k | 0 <= k < |c| / ENTRY :: es[k] == Decode(c, ENTRY * k)
  {
    seq(|c| / ENTRY, k requires 0 <= k < |c| / ENTRY => Decode(c, ENTRY * k))
  }

  /** The directory as a map: the first entry with a name counts. */
  function AsMap(es: seq<Entry>): map<seq<Byte>, nat> {
    if es == [] then map[]
    else
      var m, e := AsMap(es[..|es| - 1]), es[|es| - 1];
      if e.ino != 0 && e.name !in m then m[e.name := e.ino] else m
  }

  predicate Live(es: seq<Entry>, k: nat, name: seq<Byte>) {
    k < |es| && es[k].ino != 0 && es[k].name == name
  }

  predicate UniqueNames(es: seq<Entry>) {
    forall i, j | 0 <= i < j < |es| && es[i].ino != 0 && es[j].ino != 0 :: es[i].name != es[j].name
  }

  // ------------------------------------------------------------------ the three operations

  /** The first live entry with a name gives the value of the map; without one the name is
      not in the map. */
  lemma {:induction false} LookupIs(es: seq<Entry>, name: seq<Byte>, k: nat)
    requires k <= |es| && forall i: nat | i < k :: !Live(es, i, name)
    requires k < |es| ==> Live(es, k, name)
    ensures name in AsMap(es) <==> k < |es|
    ensures k < |es| ==> AsMap(es)[name] == es[k].ino
    decreases |es|
  {
    if es != [] {
      var rest := es[..|es| - 1];
      forall i: nat | i < k && i < |rest| ensures !Live(rest, i, name) {
        assert !Live(es, i, name);
      }
      LookupIs(rest, name, if k < |rest| then k else |rest|);
      if k == |es| {
        assert !Live(es, |es| - 1, name);
      }
    }
  }

  lemma {:induction false} InMapIsLive(es: seq<Entry>, name: seq<Byte>) returns (k: nat)
    requires name in AsMap(es)
    ensures Live(es, k, name) && AsMap(es)[name] == es[k].ino
    decreases |es|
  {
    var rest := es[..|es| - 1];
    if name in AsMap(rest) {
      k := InMapIsLive(rest, name);
    } else {
      k := |es| - 1;
    }
  }

  lemma {:induction false} LiveIsInMap(es: seq<Entry>, name: seq<Byte>, k: nat)
    requires Live(es, k, name)
    ensures name in AsMap(es)
    decreases |es|
  {
    if k < |es| - 1 {
      assert Live(es[..|es| - 1], k, name);
      LiveIsInMap(es[..|es| - 1], name, k);
    }
  }

  /** Appending an entry with a new name adds it to the map. */
  lemma LinkInserts(es: seq<Entry>, e: Entry)
    requires e.ino != 0 && e.name !in AsMap(es)
    ensures AsMap(es + [e]) == AsMap(es)[e.name := e.ino]
    ensures UniqueNames(es) ==> UniqueNames(es + [e])
  {
    var more := es + [e];
    assert more[..|more| - 1] == es;
    if UniqueNames(es) {
      forall i | 0 <= i < |es| && es[i].ino != 0 ensures es[i].name != e.name {
        if es[i].name == e.name {
          LiveIsInMap(es, e.name, i);
        }
      }
    }
  }

  /** With unique names the map is determined by its live entries. */
  lemma UniqueMap(es: seq<Entry>, k: nat)
    requires UniqueNames(es) && k < |es| && es[k].ino != 0
    ensures es[k].name in AsMap(es) && AsMap(es)[es[k].name] == es[k].ino
  {
    LiveIsInMap(es, es[k].name, k);
    var j := InMapIsLive(es, es[k].name);
  }

  /** Clearing an entry takes its name out of the map. */
  lemma ClearRemoves(es: seq<Entry>, k: nat, e: Entry)
    requires UniqueNames(es) && k < |es| && es[k].ino != 0 && e.ino == 0
    ensures AsMap(es[k := e]) == AsMap(es) - {es[k].name}
    ensures UniqueNames(es[k := e])
  {
    var after, name := es[k := e], es[k].name;
    assert UniqueNames(after);
    forall n ensures n in AsMap(after) <==> n in AsMap(es) && n != name {
      if n in AsMap(after) {
        var i := InMapIsLive(after, n);
        LiveIsInMap(es, n, i);
      }
      if n in AsMap(es) && n != name {
        var i := InMapIsLive(es, n);
        assert Live(after, i, n);
        LiveIsInMap(after, n, i);
      }
    }
    forall n | n in AsMap(after) ensures AsMap(after)[n] == AsMap(es)[n] {
      var i := InMapIsLive(after, n);
      UniqueMap(es, i);
    }
  }

  // ------------------------------------------------------------------ entries as bytes

  function Encode(ino: nat, name: seq<Byte>): (b: seq<Byte>)
    requires ino < 0x1_0000 && |name| == DIR_SIZE
    ensures |b| == ENTRY
  {
    [ino % 256, ino / 256] + name
  }

  lemma EncodeDecodes(ino: nat, name: seq<Byte>)
    requires ino < 0x1_0000 && |name| == DIR_SIZE
    ensures Decode(Encode(ino, name), 0) == Entry(ino, Text(name, DIR_SIZE))
  {
    var b := Encode(ino, name);
    assert b[2..ENTRY] == name;
  }

  /** Writing one entry's bytes changes that entry alone, or appends one. */
  lemma PutEntry(c: seq<Byte>, off: nat, k: nat, b: seq<Byte>)
    requires |c| % ENTRY == 0 && off == ENTRY * k && off <= |c| && |b| == ENTRY
    ensures var d := Overwrite(c, off, b);
            && |d| % ENTRY == 0
            && Entries(d) == if off == |c| then Entries(c) + [Decode(b, 0)] else Entries(c)[k := Decode(b, 0)]
  {
    var d := Overwrite(c, off, b);
    var es := if off == |c| then Entries(c) + [Decode(b, 0)] else Entries(c)[k := Decode(b, 0)];
    assert |Entries(d)| == |es|;
    forall i | 0 <= i < |es| ensures Entries(d)[i] == es[i] {
      OneEntry(c, d, off, k, b, i, ENTRY * i);
    }
  }

  lemma OverwriteAt(c: seq<Byte>, off: nat, b: seq<Byte>)
    requires off <= |c|
    ensures var d := Overwrite(c, off, b);
            && |d| == (if off + |b| < |c| then |c| else off + |b|)
            && forall y | 0 <= y < |d| :: d[y] == if off <= y < off + |b| then b[y - off] else c[y]
  {
  }

  lemma DecodeSame(c: seq<Byte>, at: nat, d: seq<Byte>, from: nat)
    requires at + ENTRY <= |c| && from + ENTRY <= |d|
    requires forall y | at <= y < at + ENTRY :: c[y] == d[y - at + from]
    ensures Decode(c, at) == Decode(d, from)
  {
    var x, z := c[at + 2..at + ENTRY], d[from + 2..from + ENTRY];
    forall y | 0 <= y < ENTRY - 2 ensures x[y] == z[y] {
      assert x[y] == c[at + 2 + y] && z[y] == d[from + 2 + y];
    }
    assert x == z;
    assert c[at] == d[from] && c[at + 1] == d[from + 1];
  }

  lemma OneEntry(c: seq<Byte>, d: seq<Byte>, off: nat, k: nat, b: seq<Byte>, i: nat, at: nat)
    requires |c| % ENTRY == 0 && off == ENTRY * k && off <= |c| && |b| == ENTRY && d == Overwrite(c, off, b)
    requires at == ENTRY * i && at + ENTRY <= |d|
    ensures i == k ==> Decode(d, at) == Decode(b, 0)
    ensures i != k ==> at + ENTRY <= |c| && Decode(d, at) == Decode(c, at)
  {
    hide Overwrite, Decode;
    OverwriteAt(c, off, b);
    if i == k {
      DecodeSame(d, at, b, 0);
    } else {
      assert at + ENTRY <= off || off + ENTRY <= at;
      DecodeSame(d, at, c, at);
    }
  }
}
