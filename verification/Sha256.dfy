/**
 The streaming hash of flight/sha256.c around an arbitrary block function: whatever pieces a message
 is fed in, the digest is that of the padded whole message (sections 5.1.1, 5.2.1 and 6.2 of
 FIPS 180-4).
 */
module Sha256 {
  import opened Arithmetic
  import opened Bytes

  const BLOCK := 64

  type State = s: seq<uint32> | |s| == 8 witness [0, 0, 0, 0, 0, 0, 0, 0]

  /** The compression of one 64-octet block into the state. */
  type BlockFn = (State, seq<byte>) -> State

  const H0: State := [0x6a09e667, 0xbb67ae85, 0x3c6ef372, 0xa54ff53a, 0x510e527f, 0x9b05688c, 0x1f83d9ab, 0x5be0cd19]

  // ---- The one-shot hash --------------------------------------------------------------------------

  /** The state after the whole blocks of m, starting from h. */
  function Absorb(block: BlockFn, h: State, m: seq<byte>): State
    decreases |m|
  {
    if |m| < BLOCK then h else Absorb(block, block(h, m[..BLOCK]), m[BLOCK..])
  }

  /** How many zero octets follow the 0x80: the least number that leaves room for the length. */
  function ZeroCount(len: nat): (k: nat)
    ensures k < BLOCK && (len + 1 + k) % BLOCK == 56
  {
    if len % BLOCK < 56 then 55 - len % BLOCK else 119 - len % BLOCK
  }

  /** The padding: 0x80, zeros, and the length in bits as 64 bits. */
  function Padding(len: nat): (p: seq<byte>)
    ensures (len + |p|) % BLOCK == 0
  {
    WholeBlocks(len, ZeroCount(len));
    [0x80] + Zeros(ZeroCount(len)) + ToBE(len * 8 % TWO_64, 8)
  }

  lemma WholeBlocks(len: nat, k: nat)
    requires (len + 1 + k) % BLOCK == 56
    ensures (len + (1 + k + 8)) % BLOCK == 0
  {
  }

  function Digest(h: State): seq<byte> {
    WordBytes(h, 8)
  }

  function WordBytes(h: State, n: nat): (s: seq<byte>)
    requires n <= 8
    ensures |s| == 4 * n
  {
    if n == 0 then [] else WordBytes(h, n - 1) + ToBE(h[n - 1], 4)
  }

  function Hash(block: BlockFn, m: seq<byte>): seq<byte> {
    Digest(Absorb(block, H0, m + Padding(|m|)))
  }

  /** Absorbing whole blocks and then the rest is absorbing all of it. */
  lemma {:induction false} AbsorbParts(block: BlockFn, h: State, a: seq<byte>, b: seq<byte>)
    requires |a| % BLOCK == 0
    ensures Absorb(block, h, a + b) == Absorb(block, Absorb(block, h, a), b)
    decreases |a|
  {
    if a == [] {
      assert a + b == b;
    } else {
      assert (a + b)[..BLOCK] == a[..BLOCK] && (a + b)[BLOCK..] == a[BLOCK..] + b;
      AbsorbParts(block, block(h, a[..BLOCK]), a[BLOCK..], b);
    }
  }

  lemma AbsorbOne(block: BlockFn, h: State, a: seq<byte>, b: seq<byte>)
    requires |a| % BLOCK == 0 && |b| == BLOCK
    ensures Absorb(block, h, a + b) == block(Absorb(block, h, a), b)
  {
    AbsorbParts(block, h, a, b);
    assert b[..BLOCK] == b && b[BLOCK..] == [];
  }

  /** The bytes of a 64-bit number, shifted out one at a time. */
  lemma {:induction false} ToBEAt(v: nat, n: nat, i: nat)
    requires i < n
    ensures ToBE(v, n)[i] == v / Pow256(n - 1 - i) % 256
    decreases n
  {
    if i < n - 1 {
      ToBEAt(v / 256, n - 1, i);
      DivDiv(v, Pow256(n - 2 - i));
    }
  }

  lemma DivDiv(v: nat, p: nat)
    requires p > 0
    ensures v / 256 / p == v / (256 * p)
  {
    var q, r := v / 256 / p, v / 256 % p;
    assert v / 256 == q * p + r;
    assert v == q * (256 * p) + (256 * r + v % 256);
    Quotient(v, 256 * p, q, 256 * r + v % 256);
  }

  // ---- The streaming context ------------------------------------------------------------------------

  class Context {
    const block: BlockFn
    const buf: array<byte>
    var h: State
    var len: uint64
    var n: nat
    /** Everything fed in so far, and the part of it already compressed. */
    ghost var msg: seq<byte>
    ghost var whole: seq<byte>

    ghost predicate Buffered()
      reads this, buf
    {
      && buf.Length == BLOCK && n < BLOCK && |whole| % BLOCK == 0
      && msg == whole + buf[..n]
      && h == Absorb(block, H0, whole)
    }

    ghost predicate Valid()
      reads this, buf
      ensures Valid() ==> n == |msg| % BLOCK
    {
      Buffered() && len == |msg| % TWO_64
    }

    constructor (block: BlockFn)
      ensures Valid() && msg == [] && this.block == block && fresh(buf)
    {
      this.block := block;
      buf := new byte[BLOCK];
      h, len, n, msg, whole := H0, 0, 0, [], [];
    }

    method Update(data: seq<byte>)
      requires Valid()
      modifies this, buf
      ensures Valid() && msg == old(msg) + data
    {
      hide Absorb;
      len := (len + |data|) % TWO_64;
      ModAdd(|msg|, |data|);
      var p := data;
      while |p| > 0
        invariant Buffered() && msg + p == old(msg) + data
        invariant len == (|old(msg)| + |data|) % TWO_64
      {
        var k := if BLOCK - n < |p| then BLOCK - n else |p|;
        Take(p[..k]);
        assert p == p[..k] + p[k..];
        p := p[k..];
      }
      assert msg + [] == msg;
    }

    /** One turn of the loop: at most the free part of the buffer, compressed once it is full. */
    method Take(t: seq<byte>)
      requires Buffered() && |t| <= BLOCK - n
      modifies this`n, this`h, this`msg, this`whole, buf
      ensures Buffered() && msg == old(msg) + t
    {
      hide Absorb;
      Fill(t);
      n := n + |t|;
      msg := msg + t;
      assert msg == whole + buf[..n];
      if n == BLOCK {
        assert buf[..n] == buf[..];
        AbsorbOne(block, H0, whole, buf[..]);
        whole := whole + buf[..];
        h := block(h, buf[..]);
        n := 0;
        assert whole + buf[..0] == whole;
      }
    }

    /** memcpy into the free part of the buffer. */
    method Fill(t: seq<byte>)
      requires buf.Length == BLOCK && n + |t| <= BLOCK
      modifies buf
      ensures buf[..n + |t|] == old(buf[..n]) + t
    {
      var i := 0;
      while i < |t|
        invariant 0 <= i <= |t|
        invariant buf[..n] == old(buf[..n])
        invariant forall k :: 0 <= k < i ==> buf[n + k] == t[k]
      {
        buf[n + i] := t[i];
        i := i + 1;
      }
      assert buf[..n + |t|] == buf[..n] + t;
    }

    /** How many more zeros the pad loop writes. */
    ghost function ZerosLeft(): nat
      reads this
      requires n < BLOCK
    {
      if n <= 56 then 56 - n else 120 - n
    }

    /** The digest of everything fed in. */
    method Final() returns (out: seq<byte>)
      requires Valid()
      modifies this, buf
      ensures out == Hash(block, old(msg))
    {
      hide Absorb, ToBE, Digest, Zeros;
      ghost var m := msg;
      var bits := len * 8 % TWO_64;
      ModMul(|m|);
      StepCount(|m|);
      Update([0x80]);
      PadZeros(m);
      var L := LengthBytes(bits);
      Update(L);
      assert msg == m + Padding(|m|);
      assert whole == msg by { assert buf[..0] == []; }
      out := Serialize();
    }

    /** The pad loop: it ends after the standard's number of zeros. */
    method PadZeros(ghost m: seq<byte>)
      requires Valid() && msg == m + [0x80] && ZerosLeft() == ZeroCount(|m|)
      modifies this, buf
      ensures Valid() && msg == m + [0x80] + Zeros(ZeroCount(|m|)) && n == 56
    {
      hide Absorb, ZeroCount;
      ghost var z := 0;
      assert m + [0x80] == m + [0x80] + Zeros(0);
      while n != 56
        invariant Valid() && msg == m + [0x80] + Zeros(z) && z + ZerosLeft() == ZeroCount(|m|)
        decreases ZerosLeft()
      {
        StepCount(|msg|);
        Update([0]);
        assert m + [0x80] + Zeros(z) + [0] == m + [0x80] + Zeros(z + 1);
        z := z + 1;
      }
    }

    method LengthBytes(bits: uint64) returns (L: seq<byte>)
      ensures L == ToBE(bits, 8)
    {
      L := [];
      var i := 0;
      while i < 8
        invariant 0 <= i <= 8 && |L| == i
        invariant L == ToBE(bits, 8)[..i]
      {
        ToBEAt(bits, 8, i);
        L := L + [bits / Pow256(7 - i) % 256];
        i := i + 1;
      }
    }

    method Serialize() returns (out: seq<byte>)
      ensures out == Digest(h)
    {
      out := [];
      var i := 0;
      while i < 8
        invariant 0 <= i <= 8 && out == WordBytes(h, i)
      {
        out := out + ToBE(h[i], 4);
        i := i + 1;
      }
    }
  }

  lemma ModAdd(a: nat, b: nat)
    ensures (a % TWO_64 + b) % TWO_64 == (a + b) % TWO_64
  {
  }

  lemma ModMul(a: nat)
    ensures (a % TWO_64) * 8 % TWO_64 == a * 8 % TWO_64
  {
    var q, r := a / TWO_64, a % TWO_64;
    ModAddMultiple(r * 8, q * 8);
    assert a * 8 == r * 8 + (q * 8) * TWO_64;
  }

  lemma {:induction false} ModAddMultiple(x: nat, k: nat)
    ensures (x + k * TWO_64) % TWO_64 == x % TWO_64
    decreases k
  {
    if k > 0 {
      ModAddMultiple(x, k - 1);
      assert x + k * TWO_64 == (x + (k - 1) * TWO_64) + TWO_64;
    }
  }

  lemma StepCount(a: nat)
    ensures (a + 1) % BLOCK == if a % BLOCK == BLOCK - 1 then 0 else a % BLOCK + 1
  {
  }

  /** Below 2^61 octets the length field is the true length in bits, as the standard requires. */
  lemma LengthFieldExact(len: nat)
    ensures len < 0x2000_0000_0000_0000 <==> len * 8 % TWO_64 == len * 8
  {
  }

  // ---- What is hashed is what the standard says ---------------------------------------------------------

  lemma PaddingParts(len: nat)
    ensures var p, k := Padding(len), ZeroCount(len);
            && |p| == k + 9 && p[0] == 0x80 && (forall i :: 1 <= i <= k ==> p[i] == 0)
            && p[k + 1..k + 9] == ToBE(len * 8 % TWO_64, 8)
  {
    hide ToBE, ZeroCount;
  }

  /** Main result: the message padded is (section 5.1.1 of the standard) the message, one bit set, then zeros, then
      its length in bits as 64 bits, in as few whole blocks as hold that; the length is the true one below 2^61
      octets. */
  lemma PaddedMessage(m: seq<byte>)
    ensures var w := m + Padding(|m|);
            && w[..|m|] == m && |w| >= |m| + 9
            && w[|m|] == 0x80 && (forall i :: |m| < i < |w| - 8 ==> w[i] == 0)
            && FromBE(w, |w| - 8, 8) == 8 * |m| % TWO_64
            && (|m| < 0x2000_0000_0000_0000 ==> FromBE(w, |w| - 8, 8) == 8 * |m|)
            && |w| % BLOCK == 0 && |w| - BLOCK < |m| + 9
  {
    hide ToBE, ZeroCount, Padding;
    PaddingParts(|m|);
    var w, p, k := m + Padding(|m|), Padding(|m|), ZeroCount(|m|);
    assert w[|m|] == p[0] && forall i :: |m| < i < |w| - 8 ==> w[i] == p[i - |m|];
    assert w[|w| - 8..|w|] == p[k + 1..k + 9];
    Pow256Values();
    FromToBE(|m| * 8 % TWO_64, 8, w, |w| - 8);
    LengthFieldExact(|m|);
  }

  /** Two messages that are hashed as the same blocks are the same message. */
  lemma PaddingCommits(a: seq<byte>, b: seq<byte>)
    requires |a| < 0x2000_0000_0000_0000 && |b| < 0x2000_0000_0000_0000
    requires a + Padding(|a|) == b + Padding(|b|)
    ensures a == b
  {
    hide Padding;
    PaddedMessage(a);
    PaddedMessage(b);
  }

  /** The first 32 bits of the fraction of the square root of p, k being its whole part. */
  predicate RootFraction(w: nat, p: nat, k: nat) {
    var r := k * 0x1_0000_0000 + w;
    w < 0x1_0000_0000 && r * r <= p * (0x1_0000_0000 * 0x1_0000_0000) < (r + 1) * (r + 1)
  }

  /** The initial state (section 5.3.3 of the standard): from the first eight primes. */
  lemma InitialState()
    ensures RootFraction(H0[0], 2, 1) && RootFraction(H0[1], 3, 1) && RootFraction(H0[2], 5, 2) && RootFraction(H0[3], 7, 2)
    ensures RootFraction(H0[4], 11, 3) && RootFraction(H0[5], 13, 3) && RootFraction(H0[6], 17, 4) && RootFraction(H0[7], 19, 4)
  {
  }

  /** The digest is the words of the last state in order, the first octet of each its most significant. */
  lemma {:induction false} DigestWords(h: State, n: nat, i: nat)
    requires i < n <= 8
    ensures FromBE(WordBytes(h, n), 4 * i, 4) == h[i]
    decreases n
  {
    hide ToBE, FromBE;
    var w := WordBytes(h, n);
    Pow256Values();
    if i == n - 1 {
      assert w[4 * i..4 * i + 4] == ToBE(h[i], 4);
      FromToBE(h[i], 4, w, 4 * i);
    } else {
      DigestWords(h, n - 1, i);
      FromBELocal(WordBytes(h, n - 1), 4 * i, 4, w, 0);
    }
  }

  // ---- Any split into pieces --------------------------------------------------------------------------

  /** Main result: however the message is split, the digest is the hash of the whole. */
  method HashPieces(block: BlockFn, pieces: seq<seq<byte>>) returns (out: seq<byte>)
    ensures out == Hash(block, Concat(pieces))
  {
    var c := new Context(block);
    var i := 0;
    while i < |pieces|
      invariant 0 <= i <= |pieces| && c.Valid() && fresh(c) && fresh(c.buf) && c.block == block
      invariant c.msg == Concat(pieces[..i])
    {
      assert pieces[..i + 1] == pieces[..i] + [pieces[i]];
      ConcatLast(pieces[..i], pieces[i]);
      c.Update(pieces[i]);
      i := i + 1;
    }
    assert pieces[..i] == pieces;
    out := c.Final();
  }
}
