/** Byte strings and the fixed-width integers that every wire format of the proxy is made of. */
module Bytes {
  datatype Option<+T> = None | Some(value: T)

  type byte = x: int | 0 <= x < 256

  /** 256 to the power of n: the number of values that fit in n bytes. */
  function Pow256(n: nat): (r: int)
    ensures r > 0
  {
    if n == 0 then 1 else 256 * Pow256(n - 1)
  }

  const TWO_16: int := 0x1_0000
  const TWO_32: int := 0x1_0000_0000
  const TWO_63: int := 0x8000_0000_0000_0000
  const TWO_64: int := 0x1_0000_0000_0000_0000

  lemma Widths()
    ensures Pow256(1) == 256 && Pow256(2) == TWO_16
    ensures Pow256(4) == TWO_32 && Pow256(8) == TWO_64
  {
    assert Pow256(2) == 256 * Pow256(1);
    assert Pow256(3) == 256 * Pow256(2);
    assert Pow256(4) == 256 * Pow256(3);
    assert Pow256(5) == 256 * Pow256(4);
    assert Pow256(6) == 256 * Pow256(5);
    assert Pow256(7) == 256 * Pow256(6);
    assert Pow256(8) == 256 * Pow256(7);
  }

  /** The n low-order bytes of v, least significant first. */
  function Le(v: nat, n: nat): (r: seq<byte>)
    ensures |r| == n
  {
    if n == 0 then [] else [v % 256] + Le(v / 256, n - 1)
  }

  function FromLe(s: seq<byte>): (r: nat)
    ensures r < Pow256(|s|)
  {
    if s == [] then 0 else s[0] + 256 * FromLe(s[1..])
  }

  lemma {:induction false} LeRoundTrip(v: nat, n: nat)
    requires v < Pow256(n)
    ensures FromLe(Le(v, n)) == v
  {
    if n > 0 {
      LeRoundTrip(v / 256, n - 1);
      assert Le(v, n)[1..] == Le(v / 256, n - 1);
    }
  }

  /** The n low-order bytes of v, most significant first. */
  function Be(v: nat, n: nat): (r: seq<byte>)
    ensures |r| == n
  {
    if n == 0 then [] else Be(v / 256, n - 1) + [v % 256]
  }

  function FromBe(s: seq<byte>): (r: nat)
    ensures r < Pow256(|s|)
  {
    if s == [] then 0 else 256 * FromBe(s[..|s| - 1]) + s[|s| - 1]
  }

  lemma {:induction false} BeRoundTrip(v: nat, n: nat)
    requires v < Pow256(n)
    ensures FromBe(Be(v, n)) == v
  {
    if n > 0 {
      BeRoundTrip(v / 256, n - 1);
      assert Be(v, n)[..n - 1] == Be(v / 256, n - 1);
    }
  }

  function U16Le(v: nat): (r: seq<byte>) ensures |r| == 2 { Le(v, 2) }
  function U32Le(v: nat): (r: seq<byte>) ensures |r| == 4 { Le(v, 4) }
  function U64Le(v: nat): (r: seq<byte>) ensures |r| == 8 { Le(v, 8) }

  /** Two's complement encoding of a signed 64-bit integer. */
  function I64Le(v: int): (r: seq<byte>)
    requires -TWO_63 <= v < TWO_63
    ensures |r| == 8
  {
    Le(if v < 0 then v + TWO_64 else v, 8)
  }

  function FromI64Le(s: seq<byte>): (r: int)
    requires |s| == 8
    ensures -TWO_63 <= r < TWO_63
  {
    Widths();
    var u := FromLe(s);
    if u < TWO_63 then u else u - TWO_64
  }

  lemma LeWidths(v: nat)
    ensures v < 256 ==> FromLe(Le(v, 1)) == v
    ensures v < TWO_16 ==> FromLe(U16Le(v)) == v
    ensures v < TWO_32 ==> FromLe(U32Le(v)) == v
    ensures v < TWO_64 ==> FromLe(U64Le(v)) == v
  {
    Widths();
    if v < 256 { LeRoundTrip(v, 1); }
    if v < TWO_16 { LeRoundTrip(v, 2); }
    if v < TWO_32 { LeRoundTrip(v, 4); }
    if v < TWO_64 { LeRoundTrip(v, 8); }
  }

  lemma I64RoundTrip(v: int)
    requires -TWO_63 <= v < TWO_63
    ensures FromI64Le(I64Le(v)) == v
  {
    Widths();
    LeRoundTrip(if v < 0 then v + TWO_64 else v, 8);
  }

  lemma BeWidths(v: nat)
    ensures v < TWO_16 ==> FromBe(Be(v, 2)) == v
    ensures v < TWO_32 ==> FromBe(Be(v, 4)) == v
  {
    Widths();
    if v < TWO_16 { BeRoundTrip(v, 2); }
    if v < TWO_32 { BeRoundTrip(v, 4); }
  }

  /** Reading the next n bytes of a stream as a little-endian integer. */
  function TakeLe(s: seq<byte>, n: nat): (r: (nat, seq<byte>))
    requires n <= |s|
    ensures |r.1| == |s| - n && r.0 < Pow256(n)
  {
    (FromLe(s[..n]), s[n..])
  }

  lemma TakeLeOf(v: nat, n: nat, rest: seq<byte>)
    requires v < Pow256(n)
    ensures TakeLe(Le(v, n) + rest, n) == (v, rest)
  {
    LeRoundTrip(v, n);
    assert (Le(v, n) + rest)[..n] == Le(v, n);
    assert (Le(v, n) + rest)[n..] == rest;
  }

  /** A run of little-endian 16-bit fields. */
  function U16s(vs: seq<nat>): (r: seq<byte>)
    ensures |r| == 2 * |vs|
  {
    if vs == [] then [] else Le(vs[0], 2) + U16s(vs[1..])
  }

  function TakeU16s(s: seq<byte>, n: nat): (r: seq<nat>)
    requires 2 * n <= |s|
    ensures |r| == n
  {
    if n == 0 then [] else [TakeLe(s, 2).0] + TakeU16s(TakeLe(s, 2).1, n - 1)
  }

  lemma {:induction false} U16sRoundTrip(vs: seq<nat>, rest: seq<byte>)
    requires forall i :: 0 <= i < |vs| ==> vs[i] < TWO_16
    ensures TakeU16s(U16s(vs) + rest, |vs|) == vs
    ensures (U16s(vs) + rest)[2 * |vs|..] == rest
  {
    if vs != [] {
      Widths();
      assert U16s(vs) + rest == Le(vs[0], 2) + (U16s(vs[1..]) + rest);
      TakeLeOf(vs[0], 2, U16s(vs[1..]) + rest);
      U16sRoundTrip(vs[1..], rest);
      assert [vs[0]] + vs[1..] == vs;
    }
  }

  lemma TakeDrop(a: seq<byte>, b: seq<byte>)
    ensures (a + b)[..|a|] == a && (a + b)[|a|..] == b
  {
  }

  lemma Regroup<T>(a: seq<T>, b: seq<T>, c: seq<T>)
    ensures a + (b + c) == a + b + c
  {
  }

  /** Concatenation of a list of byte strings. */
  function Concat(ss: seq<seq<byte>>): seq<byte> {
    if ss == [] then [] else ss[0] + Concat(ss[1..])
  }

  lemma {:induction false} ConcatAppend(xs: seq<seq<byte>>, ys: seq<seq<byte>>)
    ensures Concat(xs + ys) == Concat(xs) + Concat(ys)
  {
    if xs == [] {
      assert xs + ys == ys;
    } else {
      assert (xs + ys)[1..] == xs[1..] + ys;
      ConcatAppend(xs[1..], ys);
    }
  }

  lemma ConcatOne(ss: seq<seq<byte>>, s: seq<byte>)
    ensures Concat(ss + [s]) == Concat(ss) + s
  {
    ConcatAppend(ss, [s]);
    assert [s][1..] == [] && Concat([s]) == s + [];
  }
}
