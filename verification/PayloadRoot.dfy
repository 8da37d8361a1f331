/**
 `ck_root` of flight/custody.c: the Merkle root over a payload's chunks, hashed into a scratch array and
 reduced in place.
 */
module PayloadRoot {
  import opened Arithmetic
  import opened Bytes
  import opened Merkle
  import opened Codes

  /** The payload cut every `chunk` octets; an empty payload is one empty chunk. */
  function Chunks(payload: seq<byte>, chunk: nat): (cs: seq<seq<byte>>)
    requires chunk > 0
    ensures |cs| > 0
    decreases |payload|
  {
    if |payload| <= chunk then [payload] else [payload[..chunk]] + Chunks(payload[chunk..], chunk)
  }

  /** Nothing is lost, nothing is hashed twice, and only the last chunk is short. */
  lemma {:induction false} ChunksRebuild(payload: seq<byte>, chunk: nat)
    requires chunk > 0
    ensures Concat(Chunks(payload, chunk)) == payload
    ensures var cs := Chunks(payload, chunk);
            && (forall i :: 0 <= i < |cs| - 1 ==> |cs[i]| == chunk)
            && |cs[|cs| - 1]| <= chunk && (payload != [] ==> cs[|cs| - 1] != [])
    decreases |payload|
  {
    if |payload| > chunk {
      var head, tail, rest := payload[..chunk], payload[chunk..], Chunks(payload[chunk..], chunk);
      ChunksRebuild(tail, chunk);
      assert payload == head + tail;
      var cs := Chunks(payload, chunk);
      assert cs == [head] + rest && cs[0] == head && cs[1..] == rest;
      assert Concat(cs) == head + Concat(rest);
      forall i | 0 <= i < |cs| - 1 ensures |cs[i]| == chunk {
        assert i > 0 ==> cs[i] == rest[i - 1];
      }
      assert cs[|cs| - 1] == rest[|rest| - 1];
    } else {
      assert [payload][1..] == [] && payload + [] == payload;
    }
  }

  /** The number of leaves in `size_t` arithmetic. */
  function LeafCount(n: uint64, chunk: uint64): nat
    requires chunk > 0
  {
    if n == 0 then 1 else (n + chunk - 1) % TWO_64 / chunk
  }

  lemma {:induction false} ChunkCount(payload: seq<byte>, chunk: nat)
    requires chunk > 0 && payload != []
    ensures |Chunks(payload, chunk)| == (|payload| + chunk - 1) / chunk
    decreases |payload|
  {
    if |payload| <= chunk {
      Quotient(|payload| + chunk - 1, chunk, 1, |payload| - 1);
    } else {
      ChunkCount(payload[chunk..], chunk);
      var m, c := |payload| - 1, |Chunks(payload[chunk..], chunk)|;
      assert |Chunks(payload, chunk)| == c + 1;
      hide Chunks;
      assert c == m / chunk;
      assert m == c * chunk + m % chunk && (c + 1) * chunk == c * chunk + chunk;
      Quotient(m + chunk, chunk, c + 1, m % chunk);
    }
  }

  /** The count is right exactly when the sum does not wrap; when it wraps there are no leaves at all. */
  lemma CountIsRightIff(payload: seq<byte>, chunk: uint64)
    requires chunk > 0 && |payload| < TWO_64
    ensures LeafCount(|payload|, chunk) == |Chunks(payload, chunk)| <==> payload == [] || |payload| + chunk - 1 < TWO_64
    ensures !(payload == [] || |payload| + chunk - 1 < TWO_64) ==> LeafCount(|payload|, chunk) == 0
  {
    hide Chunks;
    if payload != [] {
      ChunkCount(payload, chunk);
      WrappedSum(|payload| + chunk - 1);
      if |payload| + chunk - 1 >= TWO_64 {
        Quotient(|payload| + chunk - 1 - TWO_64, chunk, 0, |payload| + chunk - 1 - TWO_64);
      }
    } else {
      OneEmptyChunk(chunk);
    }
  }

  lemma OneEmptyChunk(chunk: nat)
    requires chunk > 0
    ensures Chunks([], chunk) == [[]]
  {
  }

  lemma WrappedSum(x: nat)
    requires x < 2 * TWO_64
    ensures x % TWO_64 == if x < TWO_64 then x else x - TWO_64
  {
  }

  lemma {:induction false} ChunkAt(payload: seq<byte>, chunk: nat, i: nat)
    requires chunk > 0 && i < |Chunks(payload, chunk)|
    ensures i * chunk <= |payload|
    ensures Chunks(payload, chunk)[i] == payload[i * chunk..if (i + 1) * chunk <= |payload| then (i + 1) * chunk else |payload|]
    decreases i
  {
    if i > 0 {
      var tail := payload[chunk..];
      ChunkAt(tail, chunk, i - 1);
      assert (i - 1) * chunk + chunk == i * chunk && (i + 1) * chunk == i * chunk + chunk;
      var from, to := i * chunk, if (i + 1) * chunk <= |payload| then (i + 1) * chunk else |payload|;
      assert Chunks(payload, chunk)[i] == Chunks(tail, chunk)[i - 1] == tail[from - chunk..to - chunk];
      assert tail[from - chunk..to - chunk] == payload[from..to];
    } else if |payload| <= chunk {
      assert payload == payload[0..|payload|];
    }
  }

  /** On success the root is the tree's over the chunks' leaf hashes, unless the count has wrapped, when
      nothing is hashed and what the scratch array held comes back. */
  method HashPayload<H>(leaf: seq<byte> -> H, node: NodeHash<H>, payload: seq<byte>, chunk: uint64, s: array<H>, root: array<H>)
      returns (code: int, count: nat)
    requires |payload| < TWO_64 && root.Length == 1 && root != s
    requires chunk > 0 && LeafCount(|payload|, chunk) == 0 ==> s.Length > 0
    modifies s, root
    ensures code == 0 <==> chunk > 0 && LeafCount(|payload|, chunk) <= s.Length
    ensures code == 0 && (payload == [] || |payload| + chunk - 1 < TWO_64) ==>
              var cs := Chunks(payload, chunk);
              count == |cs| && root[0] == Root(node, seq(|cs|, i requires 0 <= i < |cs| => leaf(cs[i])))
    ensures code == 0 && !(payload == [] || |payload| + chunk - 1 < TWO_64) ==> count == 0 && root[0] == old(s[0])
    ensures code != 0 ==> root[0] == old(root[0])
  {
    count := 0;
    if chunk == 0 { return E_ARG, 0; }
    var n := |payload|;
    count := if n == 0 then 1 else (n + chunk - 1) % TWO_64 / chunk;
    if count > s.Length { return E_SPACE, 0; }
    CountIsRightIff(payload, chunk);
    if n == 0 { s[0] := leaf(payload); }
    ghost var cs := Chunks(payload, chunk);
    if n > 0 {
      for i := 0 to count
        invariant forall k :: 0 <= k < i && k < |cs| ==> s[k] == leaf(cs[k])
        invariant count == 0 ==> s[0] == old(s[0])
      {
        ChunkAt(payload, chunk, i);
        var end := if (i + 1) * chunk <= n then (i + 1) * chunk else n;
        s[i] := leaf(payload[i * chunk..end]);
      }
    } else {
      assert cs == [payload];
    }
    if count > 0 {
      assert s[..count] == seq(|cs|, i requires 0 <= i < |cs| => leaf(cs[i]));
      Reduce(node, s, count);
    }
    root[0] := s[0];
    code := 0;
  }
}
