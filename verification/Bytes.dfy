/** Bytes, and numbers made of them in either order. */
module Bytes {

  type byte = b: int | 0 <= b < 256

  const U32: nat := 0x1_0000_0000
  const U32_MAX: nat := 0xFFFF_FFFF

  /** The low `n` bytes, least significant first. */
  function Le(x: nat, n: nat): (r: seq<byte>)
    ensures |r| == n
  {
    if n == 0 then [] else [x % 256] + Le(x / 256, n - 1)
  }

  /** The low `n` bytes, most significant first. */
  function Be(x: nat, n: nat): (r: seq<byte>)
    ensures |r| == n
  {
    if n == 0 then [] else Be(x / 256, n - 1) + [x % 256]
  }

  function LeValue(s: seq<byte>): nat {
    if s == [] then 0 else s[0] as int + 256 * LeValue(s[1..])
  }

  function BeValue(s: seq<byte>): nat {
    if s == [] then 0 else 256 * BeValue(s[..|s| - 1]) + s[|s| - 1] as int
  }

  function Pow256(n: nat): (p: nat)
    ensures p > 0
  {
    if n == 0 then 1 else 256 * Pow256(n - 1)
  }

  /** Reading back what was stored, when it fits. */
  lemma {:induction false} LeRoundTrip(x: nat, n: nat)
    requires x < Pow256(n)
    ensures LeValue(Le(x, n)) == x
  {
    if n > 0 {
      LeRoundTrip(x / 256, n - 1);
      assert Le(x, n)[1..] == Le(x / 256, n - 1);
    }
  }

  lemma {:induction false} BeRoundTrip(x: nat, n: nat)
    requires x < Pow256(n)
    ensures BeValue(Be(x, n)) == x
  {
    if n > 0 {
      BeRoundTrip(x / 256, n - 1);
      assert Be(x, n)[..n - 1] == Be(x / 256, n - 1);
    }
  }

  /** The loop of `be_int`. */
  method BeInt(p: seq<byte>, l: nat) returns (val: nat)
    requires l <= |p|
    ensures val == BeValue(p[..l])
  {
    val := 0;
    for i := 0 to l
      invariant val == BeValue(p[..i])
    {
      assert p[..i + 1][..i] == p[..i];
      val := val * 256 + p[i];
    }
  }

  /** The loop of `le_int`. */
  method LeInt(p: seq<byte>, l: nat) returns (val: nat)
    requires l <= |p|
    ensures val == LeValue(p[..l])
  {
    val := 0;
    for i := l downto 0
      invariant val == LeValue(p[i..l])
    {
      assert p[i..l][1..] == p[i + 1..l];
      val := val * 256 + p[i];
    }
  }

  /** The byte swaps: one pointer runs down the bytes of the number, the other up those of the result. */
  method SwapBytes(x: array<byte>) returns (y: array<byte>)
    ensures fresh(y) && y.Length == x.Length
    ensures forall i :: 0 <= i < x.Length ==> y[i] == x[x.Length - 1 - i]
  {
    y := new byte[x.Length](_ => 0);
    var a := x.Length;
    for b := 0 to y.Length
      invariant a == x.Length - b
      invariant forall i :: 0 <= i < b ==> y[i] == x[x.Length - 1 - i]
    {
      a := a - 1;
      y[b] := x[a];
    }
  }

  /** Swapping turns one order of storage into the other. */
  lemma {:induction false} SwappedLe(x: nat, n: nat, i: nat)
    requires i < n
    ensures Be(x, n)[i] == Le(x, n)[n - 1 - i]
  {
    if i < n - 1 {
      SwappedLe(x / 256, n - 1, i);
    }
  }
}
