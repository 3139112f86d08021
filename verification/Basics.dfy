/** Options, powers of two, and the sizes of finite sets. */
module Basics {
  datatype Option<T> = None | Some(value: T)

  function Pow2(n: nat): (p: nat)
    ensures p > 0
  {
    if n == 0 then 1 else 2 * Pow2(n - 1)
  }

  lemma QuotientIs(x: nat, d: int, q: nat, r: nat)
    requires x == q * d + r && r < d
    ensures x / d == q && x % d == r
  {
    var k := x / d - q;
    assert k * d == r - x % d by {
      assert (x / d) * d + x % d == x;
    }
    assert k >= 1 ==> k * d >= d;
    assert k <= -1 ==> k * d <= -d;
  }

  lemma HalvedFirst(x: nat, p: nat, d: nat)
    requires 0 < p && d == 2 * p
    ensures x / d == x / 2 / p && x % d == 2 * (x / 2 % p) + x % 2
  {
    var q, r := x / 2 / p, x / 2 % p;
    assert x / 2 == q * p + r;
    assert q * d == 2 * (q * p);
    QuotientIs(x, d, q, 2 * r + x % 2);
  }

  predicate Distinct<T(==)>(s: seq<T>) {
    forall i, j | 0 <= i < j < |s| :: s[i] != s[j]
  }

  lemma {:induction false} DistinctCard<T>(s: seq<T>)
    requires Distinct(s)
    ensures |set x | x in s| == |s|
  {
    if s == [] {
      assert (set x | x in s) == {};
    } else {
      DistinctCard(s[1..]);
      assert (set x | x in s) == (set x | x in s[1..]) + {s[0]};
    }
  }

  lemma SubsetCard<T>(a: set<T>, b: set<T>)
    requires a <= b
    ensures |a| <= |b| && (|a| == |b| ==> a == b)
  {
    assert b == a + (b - a);
    assert |b| == |a| + |b - a|;
  }

  /** As many values as keys, if no two keys have the same value. */
  lemma {:induction false} ImageCard<K, V>(f: map<K, V>, keys: set<K>, image: set<V>)
    requires keys <= f.Keys && forall j, k | j in keys && k in keys && j != k :: f[j] != f[k]
    requires (forall k | k in keys :: f[k] in image) && (forall v | v in image :: exists k :: k in keys && f[k] == v)
    ensures |image| == |keys|
    decreases |keys|
  {
    if keys != {} {
      var k :| k in keys;
      ImageCard(f, keys - {k}, image - {f[k]});
    } else {
      assert image == {};
    }
  }

  ghost function Range(lo: nat, n: nat): (r: set<nat>)
    ensures forall k :: k in r <==> lo <= k < lo + n
  {
    if n == 0 then {} else Range(lo, n - 1) + {lo + n - 1}
  }

  lemma RangeNext(lo: nat, n: nat)
    requires n > 0
    ensures Range(lo, n) == Range(lo, n - 1) + {lo + n - 1}
  {
  }

  lemma {:induction false} RangeCard(lo: nat, n: nat)
    ensures |Range(lo, n)| == n
  {
    if n == 0 {
      assert Range(lo, n) == {};
    } else {
      RangeNext(lo, n);
      hide Range;
      RangeCard(lo, n - 1);
    }
  }
}
