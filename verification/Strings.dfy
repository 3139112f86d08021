/** The kernel's string routines on byte buffers. */
module Strings {
  import opened Blocks

  /** The C string at the start of a buffer, cut off after `n` bytes. */
  function Text(s: seq<Byte>, n: nat): (t: seq<Byte>)
    ensures |t| <= n && t <= s
    ensures forall i | 0 <= i < |t| :: t[i] != 0
    ensures |t| < n && |t| < |s| ==> s[|t|] == 0
  {
    if n == 0 || s == [] || s[0] == 0 then [] else [s[0]] + Text(s[1..], n - 1)
  }

  /** Reading up to `n` bytes of the string stays inside the buffer. */
  predicate Readable(s: seq<Byte>, n: nat) {
    |Text(s, n)| == n || |Text(s, n)| < |s|
  }

  /** The text of a buffer is the only zero-free prefix that ends at a zero byte, at the end
      of the buffer or at the limit. */
  lemma {:induction false} TextIs(s: seq<Byte>, n: nat, k: nat)
    requires k <= n && k <= |s|
    requires forall i | 0 <= i < k :: s[i] != 0
    requires k == n || k == |s| || s[k] == 0
    ensures Text(s, n) == s[..k]
  {
    if k > 0 {
      TextIs(s[1..], n - 1, k - 1);
    }
  }

  /** strncmp answers 0 exactly when both strings, cut off after `n` bytes, are the same. */
  method Strncmp(a: seq<Byte>, b: seq<Byte>, n: nat) returns (r: int)
    requires Readable(a, n) && Readable(b, n)
    ensures r == 0 <==> Text(a, n) == Text(b, n)
  {
    var i := 0;
    while i < n && a[i] != 0 && a[i] == b[i]
      invariant 0 <= i <= n
      invariant i <= |Text(a, n)| && i <= |Text(b, n)|
      invariant a[..i] == b[..i]
    {
      i := i + 1;
    }
    if i == n {
      assert Text(a, n) == a[..n] && Text(b, n) == b[..n];
      return 0;
    }
    assert i == |Text(a, n)| ==> a[i] == 0;
    assert i == |Text(b, n)| ==> b[i] == 0;
    r := a[i] as int - b[i] as int;
  }

  /** strncpy fills exactly `n` bytes: the string, then zeros; its text survives the copy. */
  method Strncpy(src: seq<Byte>, n: nat) returns (dst: seq<Byte>)
    requires Readable(src, n)
    ensures |dst| == n && Text(dst, n) == Text(src, n)
    ensures forall i | |Text(src, n)| <= i < n :: dst[i] == 0
  {
    dst := [];
    while |dst| < n && src[|dst|] != 0
      invariant |dst| <= n && |dst| <= |Text(src, n)|
      invariant dst == src[..|dst|]
    {
      dst := dst + [src[|dst|]];
    }
    ghost var k := |dst|;
    assert k == |Text(src, n)|;
    while |dst| < n
      invariant k <= |dst| <= n
      invariant dst[..k] == Text(src, n)
      invariant forall i | k <= i < |dst| :: dst[i] == 0
    {
      dst := dst + [0];
    }
    TextIs(dst, n, k);
  }

  /** memmove inside one memory: the destination gets the bytes the source had before, even
      when the two overlap, and nothing else changes. */
  method Memmove(a: array<Byte>, dst: nat, src: nat, n: nat)
    requires dst + n <= a.Length && src + n <= a.Length
    modifies a
    ensures forall i | dst <= i < dst + n :: a[i] == old(a[i - dst + src])
    ensures forall i | 0 <= i < a.Length && !(dst <= i < dst + n) :: a[i] == old(a[i])
  {
    if dst < src {
      var i := 0;
      while i < n
        invariant 0 <= i <= n
        invariant forall j | dst <= j < dst + i :: a[j] == old(a[j - dst + src])
        invariant forall j | 0 <= j < a.Length && !(dst <= j < dst + i) :: a[j] == old(a[j])
      {
        a[dst + i] := a[src + i];
        i := i + 1;
      }
    } else {
      var i := n;
      while i > 0
        invariant 0 <= i <= n
        invariant forall j | dst + i <= j < dst + n :: a[j] == old(a[j - dst + src])
        invariant forall j | 0 <= j < a.Length && !(dst + i <= j < dst + n) :: a[j] == old(a[j])
      {
        i := i - 1;
        a[dst + i] := a[src + i];
      }
    }
  }
}
