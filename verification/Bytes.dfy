/** Octets, the machine widths the sources use, and big-endian integers. */
module Bytes {

  type byte = x: int | 0 <= x < 256
  type uint32 = x: int | 0 <= x < 0x1_0000_0000
  type uint64 = x: int | 0 <= x < 0x1_0000_0000_0000_0000

  const TWO_64: nat := 0x1_0000_0000_0000_0000

  /** 256 to the power n: how many values n octets can hold. */
  function Pow256(n: nat): (p: nat)
    ensures p > 0
  {
    if n == 0 then 1 else 256 * Pow256(n - 1)
  }

  function Zeros(n: nat): (s: seq<byte>)
    ensures |s| == n
  {
    seq(n, _ => 0)
  }

  /** Pieces one after the other. */
  function Concat(pieces: seq<seq<byte>>): (s: seq<byte>)
    ensures pieces == [] ==> s == []
  {
    if pieces == [] then [] else pieces[0] + Concat(pieces[1..])
  }

  lemma {:induction false} ConcatLast(pieces: seq<seq<byte>>, last: seq<byte>)
    ensures Concat(pieces + [last]) == Concat(pieces) + last
  {
    if pieces == [] {
      assert Concat([last]) == last + Concat([]) == last;
    } else {
      ConcatLast(pieces[1..], last);
      assert (pieces + [last])[1..] == pieces[1..] + [last];
      assert pieces[0] + (Concat(pieces[1..]) + last) == (pieces[0] + Concat(pieces[1..])) + last;
    }
  }

  /** The value of the n octets of p at i, most significant octet first. */
  function FromBE(p: seq<byte>, i: nat, n: nat): nat
    requires i + n <= |p|
  {
    if n == 0 then 0 else FromBE(p, i, n - 1) * 256 + p[i + n - 1]
  }

  /** The n low octets of v, most significant first. */
  function ToBE(v: nat, n: nat): (s: seq<byte>)
    ensures |s| == n
  {
    if n == 0 then [] else ToBE(v / 256, n - 1) + [v % 256]
  }

  /** `q` holds, `d` places further on, the octets of `p` from `i` up to `j`. */
  predicate SameOctets(p: seq<byte>, i: nat, j: nat, q: seq<byte>, d: int) {
    && i <= j <= |p|
    && 0 <= i + d && j + d <= |q|
    && forall x {:trigger p[x]} :: i <= x < j ==> q[x + d] == p[x]
  }

  lemma SameSlice(p: seq<byte>, i: nat, j: nat, q: seq<byte>, d: int)
    requires SameOctets(p, i, j, q, d)
    ensures q[i + d..j + d] == p[i..j]
  {
    forall n | 0 <= n < j - i ensures p[i..j][n] == q[i + d..j + d][n] {
      var octet := p[i + n];
      assert q[i + n + d] == octet;
    }
  }

  lemma {:induction false} FromBELocal(p: seq<byte>, i: nat, n: nat, q: seq<byte>, d: int)
    requires i + n <= |p| && SameOctets(p, i, i + n, q, d)
    ensures FromBE(q, i + d, n) == FromBE(p, i, n)
  {
    if n > 0 {
      FromBELocal(p, i, n - 1, q, d);
      var octet := p[i + n - 1];
      assert q[i + n - 1 + d] == octet;
    }
  }

  /** Writing n octets and reading them back, wherever they ended up, gives the number. */
  lemma {:induction false} FromToBE(v: nat, n: nat, p: seq<byte>, i: nat)
    requires v < Pow256(n)
    requires i + n <= |p| && p[i..i + n] == ToBE(v, n)
    ensures FromBE(p, i, n) == v
  {
    if n > 0 {
      assert p[i..i + n - 1] == p[i..i + n][..n - 1] == ToBE(v / 256, n - 1);
      assert p[i + n - 1] == p[i..i + n][n - 1] == v % 256;
      FromToBE(v / 256, n - 1, p, i);
    }
  }

  /** The first octet counts most. */
  lemma {:induction false} MostSignificantFirst(p: seq<byte>, i: nat, n: nat)
    requires i + n < |p|
    ensures FromBE(p, i, n + 1) == p[i] * Pow256(n) + FromBE(p, i + 1, n)
  {
    if n > 0 {
      MostSignificantFirst(p, i, n - 1);
      OnePlaceUp(p[i], Pow256(n - 1), FromBE(p, i + 1, n - 1));
    }
  }

  lemma OnePlaceUp(x: nat, pow: nat, rest: nat)
    ensures (x * pow + rest) * 256 == x * (256 * pow) + rest * 256
  {
    assert x * (256 * pow) == 256 * (x * pow);
  }

  lemma {:induction false} FromBEBound(p: seq<byte>, i: nat, n: nat)
    requires i + n <= |p|
    ensures FromBE(p, i, n) < Pow256(n)
  {
    if n > 0 { FromBEBound(p, i, n - 1); }
  }

  lemma {:induction false} PowMonotonic(m: nat, n: nat)
    requires m <= n
    ensures Pow256(m) <= Pow256(n)
    decreases n - m
  {
    if m < n { PowMonotonic(m + 1, n); }
  }

  lemma Pow256Values()
    ensures Pow256(1) == 0x100
    ensures Pow256(2) == 0x1_0000
    ensures Pow256(4) == 0x1_0000_0000
    ensures Pow256(8) == TWO_64
  {
    assert Pow256(3) == 256 * Pow256(2);
    assert Pow256(4) == 256 * Pow256(3);
    assert Pow256(5) == 256 * Pow256(4);
    assert Pow256(6) == 256 * Pow256(5);
    assert Pow256(7) == 256 * Pow256(6);
    assert Pow256(8) == 256 * Pow256(7);
  }

  /** At most eight octets make a 64-bit number. */
  lemma FromBEFits(p: seq<byte>, i: nat, n: nat)
    requires i + n <= |p| && n <= 8
    ensures FromBE(p, i, n) < TWO_64
  {
    FromBEBound(p, i, n);
    PowMonotonic(n, 8);
    Pow256Values();
  }
}
