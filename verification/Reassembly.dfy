/**
 Fragmentation and reassembly in gateway/gateway.mjs (sections 5.8 and 5.9 of RFC 9171).

 `Offer` says what one arriving bundle does to the fragments held; class `Reassembler` is the part
 of the gateway object that holds them.
 */
module Reassembly {
  import opened Arithmetic
  import opened Wrappers
  import opened Bytes

  /** Offset of a fragment and the length of the whole payload. */
  datatype Fragment = Fragment(offset: nat, total: nat)

  /** A bundle: what identifies it, its fragment fields if it is one, its payload, and all the rest
      of it (other primary fields and extension blocks). */
  datatype Bundle<+X> = Bundle(key: Key, frag: Option<Fragment>, payload: seq<byte>, rest: X)

  /** Source and creation timestamp. */
  datatype Key = Key(source: string, time: nat, seqNo: nat)

  type Parts = map<nat, seq<byte>>

  /** The fragments held of one bundle, the last one that arrived with offset 0, the octets held, and
      the time the first arrived. */
  datatype Entry<+X> = Entry(total: nat, parts: Parts, first: Option<Bundle<X>>, bytes: nat, at: nat)

  datatype Held<+X> = Held(partial: map<Key, Entry<X>>, bytes: int)

  datatype Config = Config(lifetime: nat, limit: nat)

  datatype Error = OutsideTotal | TotalsDisagree | BufferFull

  datatype Outcome<+X> = Passed(bundle: Bundle<X>) | Waiting | Threw(error: Error)

  // ---- Coverage ---------------------------------------------------------------------------------

  predicate Covers(parts: Parts, o: nat, x: nat) {
    o in parts && o <= x < o + |parts[o]|
  }

  ghost predicate Covered(parts: Parts, x: nat) {
    exists o: nat :: Covers(parts, o, x)
  }

  /** Every octet below `end` is in some part. */
  ghost predicate CoveredTo(parts: Parts, end: nat) {
    forall x: nat :: x < end ==> Covered(parts, x)
  }

  ghost predicate Top(parts: Parts, o: nat, x: nat) {
    Covers(parts, o, x) && forall p: nat :: Covers(parts, p, x) ==> p <= o
  }

  lemma {:induction false} TopAbove(parts: Parts, o: nat, x: nat)
    requires Covers(parts, o, x)
    ensures exists t: nat :: Top(parts, t, x)
    decreases x - o
  {
    if p: nat :| Covers(parts, p, x) && p > o {
      TopAbove(parts, p, x);
    } else {
      assert Top(parts, o, x);
    }
  }

  /** The octet a reassembled payload has at x: that of the part with the greatest offset there. */
  ghost function OctetAt(parts: Parts, x: nat): byte
    requires Covered(parts, x)
  {
    var c: nat :| Covers(parts, c, x);
    TopAbove(parts, c, x);
    var o: nat :| Top(parts, o, x);
    parts[o][x - o]
  }

  /** The payload the parts make up, where they cover it. */
  ghost function WholeOf(parts: Parts, total: nat): (w: seq<byte>)
    requires CoveredTo(parts, total)
    ensures |w| == total && forall x: nat :: x < total ==> w[x] == OctetAt(parts, x)
  {
    seq(total, x requires 0 <= x < total => OctetAt(parts, x))
  }

  // ---- What one arrival does ---------------------------------------------------------------------

  /** Octets held over all entries. */
  ghost function Total<X(!new)>(partial: map<Key, Entry<X>>): nat
    decreases |partial|
  {
    if partial == map[] then 0
    else
      var k :| k in partial;
      partial[k].bytes + Total(partial - {k})
  }

  /** The entries still within their lifetime. */
  function Fresh<X(!new)>(cfg: Config, partial: map<Key, Entry<X>>, now: nat): map<Key, Entry<X>> {
    map k | k in partial && now - partial[k].at <= cfg.lifetime :: partial[k]
  }

  /** The bundle rebuilt: the first fragment's, whole. */
  function Rebuilt<X>(first: Bundle<X>, payload: seq<byte>): Bundle<X> {
    first.(frag := None, payload := payload)
  }

  datatype Offered<+X> = Offered(held: Held<X>, outcome: Outcome<X>)

  function EntryFor<X(!new)>(partial: map<Key, Entry<X>>, key: Key, total: nat, now: nat): Entry<X> {
    if key in partial then partial[key] else Entry(total, map[], None, 0, now)
  }

  /** An entry with one more fragment: a second one at the same offset adds nothing. */
  function WithPart<X>(e: Entry<X>, b: Bundle<X>): Entry<X>
    requires b.frag.Some?
  {
    var off := b.frag.value.offset;
    var e1 := if off in e.parts then e else e.(parts := e.parts[off := b.payload], bytes := e.bytes + |b.payload|);
    if off == 0 then e1.(first := Some(b)) else e1
  }

  ghost function Offer<X(!new)>(cfg: Config, held: Held<X>, b: Bundle<X>, now: nat): Offered<X> {
    match b.frag
    case None => Offered(held, Passed(b))
    case Some(f) =>
      if f.total == 0 || f.offset + |b.payload| > f.total then Offered(held, Threw(OutsideTotal))
      else
        var recent := Fresh(cfg, held.partial, now);
        var bytes := held.bytes - (Total(held.partial) - Total(recent));
        var e := EntryFor(recent, b.key, f.total, now);
        if e.total != f.total then Offered(Held(recent, bytes), Threw(TotalsDisagree))
        else if f.offset !in e.parts && bytes + |b.payload| > cfg.limit then
          Offered(Held(recent[b.key := e], bytes), Threw(BufferFull))
        else
          var e' := WithPart(e, b);
          var bytes' := bytes + e'.bytes - e.bytes;
          if CoveredTo(e'.parts, e'.total) && e'.first.Some? then
            Offered(Held(recent - {b.key}, bytes' - e'.bytes), Passed(Rebuilt(e'.first.value, WholeOf(e'.parts, e'.total))))
          else Offered(Held(recent[b.key := e'], bytes'), Waiting)
  }

  // ---- Sums over entries ----------------------------------------------------------------------------

  lemma {:induction false} TotalWithout<X(!new)>(partial: map<Key, Entry<X>>, k: Key)
    requires k in partial
    ensures Total(partial) == partial[k].bytes + Total(partial - {k})
    decreases |partial|
  {
    var c :| c in partial && Total(partial) == partial[c].bytes + Total(partial - {c});
    if c != k {
      TotalWithout(partial - {c}, k);
      TotalWithout(partial - {k}, c);
      assert partial - {c} - {k} == partial - {k} - {c};
    }
  }

  lemma TotalWith<X(!new)>(partial: map<Key, Entry<X>>, k: Key, e: Entry<X>)
    ensures Total(partial[k := e]) == e.bytes + Total(partial - {k})
  {
    TotalWithout(partial[k := e], k);
    assert partial[k := e] - {k} == partial - {k};
  }

  lemma {:induction false} TotalFresh<X(!new)>(cfg: Config, partial: map<Key, Entry<X>>, now: nat)
    ensures Total(Fresh(cfg, partial, now)) <= Total(partial)
    decreases |partial|
  {
    if partial != map[] {
      var k :| k in partial;
      TotalWithout(partial, k);
      TotalFresh(cfg, partial - {k}, now);
      var recent := Fresh(cfg, partial, now);
      assert recent - {k} == Fresh(cfg, partial - {k}, now);
      if k in recent { TotalWithout(recent, k); } else { assert recent - {k} == recent; }
    } else {
      assert Fresh(cfg, partial, now) == map[];
    }
  }

  // ---- What holds whatever arrives -------------------------------------------------------------------

  /** The counter is the octets held, within the limit; each entry counts its own parts. */
  ghost predicate Accounted<X(!new)>(cfg: Config, held: Held<X>) {
    && held.bytes == Total(held.partial)
    && held.bytes <= cfg.limit
    && forall k :: k in held.partial ==> EntryAccounted(held.partial[k])
  }

  ghost predicate EntryAccounted<X(!new)>(e: Entry<X>) {
    && e.bytes == PartsSize(e.parts)
    && (forall o: nat :: o in e.parts ==> o + |e.parts[o]| <= e.total)
    && (e.first.Some? ==> 0 in e.parts)
  }

  ghost function PartsSize(parts: Parts): nat
    decreases |parts|
  {
    if parts == map[] then 0
    else
      var o :| o in parts;
      |parts[o]| + PartsSize(parts - {o})
  }

  lemma {:induction false} PartsSizeWithout(parts: Parts, o: nat)
    requires o in parts
    ensures PartsSize(parts) == |parts[o]| + PartsSize(parts - {o})
    decreases |parts|
  {
    var c :| c in parts && PartsSize(parts) == |parts[c]| + PartsSize(parts - {c});
    if c != o {
      PartsSizeWithout(parts - {c}, o);
      PartsSizeWithout(parts - {o}, c);
      assert parts - {c} - {o} == parts - {o} - {c};
    }
  }

  lemma PartsSizeAdd(parts: Parts, o: nat, p: seq<byte>)
    requires o !in parts
    ensures PartsSize(parts[o := p]) == PartsSize(parts) + |p|
  {
    PartsSizeWithout(parts[o := p], o);
    assert parts[o := p] - {o} == parts;
  }

  lemma OfferKeepsAccounts<X(!new)>(cfg: Config, held: Held<X>, b: Bundle<X>, now: nat)
    requires Accounted(cfg, held)
    ensures Accounted(cfg, Offer(cfg, held, b, now).held)
  {
    hide CoveredTo, WholeOf, Total, PartsSize;
    if b.frag.Some? && !(b.frag.value.total == 0 || b.frag.value.offset + |b.payload| > b.frag.value.total) {
      var f := b.frag.value;
      var recent := Fresh(cfg, held.partial, now);
      TotalFresh(cfg, held.partial, now);
      var e := EntryFor(recent, b.key, f.total, now);
      assert EntryAccounted(e) by {
        if b.key !in recent { assert PartsSize(map[]) == 0 by { NoParts(); } }
      }
      if b.key in recent {
        TotalWithout(recent, b.key);
      } else {
        assert recent - {b.key} == recent;
      }
      TotalWith(recent, b.key, e);
      if e.total == f.total {
        var e' := WithPart(e, b);
        if f.offset !in e.parts { PartsSizeAdd(e.parts, f.offset, b.payload); }
        assert EntryAccounted(e');
        TotalWith(recent, b.key, e');
      }
    }
  }

  lemma NoParts()
    ensures PartsSize(map[]) == 0
  {
  }

  // ---- Only ever the payload that was fragmented -------------------------------------------------------

  /** A whole bundle, or a piece of the payload that belongs to its key. */
  ghost predicate TrueFragment<X(!new)>(payloads: Key -> seq<byte>, b: Bundle<X>) {
    b.frag.Some? ==>
      var f, p := b.frag.value, payloads(b.key);
      f.total == |p| && f.offset + |b.payload| <= |p| && b.payload == p[f.offset..f.offset + |b.payload|]
  }

  ghost predicate TrueParts(parts: Parts, p: seq<byte>) {
    forall o: nat :: o in parts ==> o + |parts[o]| <= |p| && parts[o] == p[o..o + |parts[o]|]
  }

  ghost predicate TrueHeld<X(!new)>(payloads: Key -> seq<byte>, held: Held<X>) {
    forall k :: k in held.partial ==>
      var e, p := held.partial[k], payloads(k);
      e.total == |p| && TrueParts(e.parts, p) && (e.first.Some? ==> e.first.value.key == k)
  }

  lemma TruePartsMakeWhole(parts: Parts, p: seq<byte>)
    requires TrueParts(parts, p) && CoveredTo(parts, |p|)
    ensures WholeOf(parts, |p|) == p
  {
    var w := WholeOf(parts, |p|);
    forall x: nat | x < |p| ensures w[x] == p[x] {
      assert Covered(parts, x);
      var c: nat :| Covers(parts, c, x);
      TopAbove(parts, c, x);
      var o: nat :| Top(parts, o, x) && OctetAt(parts, x) == parts[o][x - o];
      assert parts[o] == p[o..o + |parts[o]|];
    }
  }

  /** Overlapping, repeated, in any order and among fragments of other bundles: a fragment set never
      becomes anything but the payload it was cut from. */
  lemma OfferIsTrue<X(!new)>(cfg: Config, payloads: Key -> seq<byte>, held: Held<X>, b: Bundle<X>, now: nat)
    requires TrueHeld(payloads, held) && TrueFragment(payloads, b)
    ensures var r := Offer(cfg, held, b, now);
            && TrueHeld(payloads, r.held)
            && (b.frag.Some? && r.outcome.Passed? ==>
                  r.outcome.bundle.key == b.key && r.outcome.bundle.frag.None? && r.outcome.bundle.payload == payloads(b.key))
  {
    hide CoveredTo, WholeOf, Total, TrueParts;
    if b.frag.Some? && !(b.frag.value.total == 0 || b.frag.value.offset + |b.payload| > b.frag.value.total) {
      var f, p := b.frag.value, payloads(b.key);
      var recent := Fresh(cfg, held.partial, now);
      var e := EntryFor(recent, b.key, f.total, now);
      if e.total == f.total {
        var e' := WithPart(e, b);
        TruePartAdded(e, b, p);
        if CoveredTo(e'.parts, e'.total) {
          TruePartsMakeWhole(e'.parts, p);
        }
      }
    }
  }

  lemma TruePartAdded<X(!new)>(e: Entry<X>, b: Bundle<X>, p: seq<byte>)
    requires b.frag.Some? && (TrueParts(e.parts, p) || e.parts == map[])
    requires var o := b.frag.value.offset; o + |b.payload| <= |p| && b.payload == p[o..o + |b.payload|]
    ensures TrueParts(e.parts, p) && TrueParts(WithPart(e, b).parts, p)
  {
  }

  // ---- Runs ------------------------------------------------------------------------------------------

  datatype Arrival<+X> = Arrival(bundle: Bundle<X>, now: nat)

  /** What is held, and what the last arrival yields, after a run of arrivals. */
  ghost function OfferAll<X(!new)>(cfg: Config, held: Held<X>, arrivals: seq<Arrival<X>>): Offered<X> {
    if arrivals == [] then Offered(held, Waiting)
    else
      var last := arrivals[|arrivals| - 1];
      Offer(cfg, OfferAll(cfg, held, arrivals[..|arrivals| - 1]).held, last.bundle, last.now)
  }

  ghost function Receive<X(!new)>(cfg: Config, arrivals: seq<Arrival<X>>): Offered<X> {
    OfferAll(cfg, Held(map[], 0), arrivals)
  }

  lemma {:induction false} ReceiveIsAccounted<X(!new)>(cfg: Config, arrivals: seq<Arrival<X>>)
    ensures Accounted(cfg, Receive(cfg, arrivals).held)
  {
    hide Offer, Accounted;
    if arrivals == [] {
      NothingHeld<X>(cfg);
    } else {
      ReceiveIsAccounted(cfg, arrivals[..|arrivals| - 1]);
      var last := arrivals[|arrivals| - 1];
      OfferKeepsAccounts(cfg, Receive(cfg, arrivals[..|arrivals| - 1]).held, last.bundle, last.now);
    }
  }

  lemma NothingHeld<X(!new)>(cfg: Config)
    ensures Accounted<X>(cfg, Held(map[], 0))
  {
  }

  lemma {:induction false} ReceiveIsTrue<X(!new)>(cfg: Config, payloads: Key -> seq<byte>, arrivals: seq<Arrival<X>>)
    requires forall a :: a in arrivals ==> TrueFragment(payloads, a.bundle)
    ensures TrueHeld(payloads, Receive(cfg, arrivals).held)
  {
    hide Offer, TrueFragment;
    if arrivals != [] {
      var before, last := arrivals[..|arrivals| - 1], arrivals[|arrivals| - 1];
      ReceiveIsTrue(cfg, payloads, before);
      assert last in arrivals;
      OfferIsTrue(cfg, payloads, Receive(cfg, before).held, last.bundle, last.now);
    }
  }

  /** Main result: in every run of true fragments, whatever the last arrival completes is the payload
      it was cut from, and the octets held stay within the limit. */
  lemma RebuiltIsOriginal<X(!new)>(cfg: Config, payloads: Key -> seq<byte>, arrivals: seq<Arrival<X>>, last: Arrival<X>)
    requires forall a :: a in arrivals ==> TrueFragment(payloads, a.bundle)
    requires TrueFragment(payloads, last.bundle) && last.bundle.frag.Some?
    ensures var r := Receive(cfg, arrivals + [last]);
            && (r.outcome.Passed? ==> r.outcome.bundle.payload == payloads(last.bundle.key))
            && 0 <= r.held.bytes <= cfg.limit
  {
    hide Offer, TrueFragment, TrueHeld;
    ReceiveIsTrue(cfg, payloads, arrivals);
    ReceiveIsAccounted(cfg, arrivals + [last]);
    assert (arrivals + [last])[..|arrivals|] == arrivals;
    OfferIsTrue(cfg, payloads, Receive(cfg, arrivals).held, last.bundle, last.now);
  }

  // ---- Sets go stale ---------------------------------------------------------------------------------------

  /** Its first fragment came within the lifetime. */
  predicate Live<X>(cfg: Config, e: Entry<X>, now: nat) {
    now - e.at <= cfg.lifetime
  }

  predicate WithinTotal<X>(b: Bundle<X>) {
    b.frag.Some? && b.frag.value.total > 0 && b.frag.value.offset + |b.payload| <= b.frag.value.total
  }

  /** Main result: an arriving fragment leaves no stale set held, of any bundle; live sets of other bundles stay as
      they are; and what is not within its total changes nothing. */
  lemma StaleSetsAreDropped<X(!new)>(cfg: Config, held: Held<X>, b: Bundle<X>, now: nat)
    ensures var after := Offer(cfg, held, b, now).held;
            if !WithinTotal(b) then after == held
            else
              && (forall k :: k in after.partial ==> Live(cfg, after.partial[k], now))
              && (forall k :: k in held.partial && k != b.key ==> (k in after.partial <==> Live(cfg, held.partial[k], now)))
              && (forall k :: k in after.partial && k != b.key ==> k in held.partial && after.partial[k] == held.partial[k])
  {
    hide CoveredTo, WholeOf, Total;
  }

  /** The live set of this bundle has another total. */
  ghost predicate Disagrees<X(!new)>(cfg: Config, held: Held<X>, b: Bundle<X>, now: nat) {
    WithinTotal(b) && b.key in held.partial && Live(cfg, held.partial[b.key], now) && held.partial[b.key].total != b.frag.value.total
  }

  /** The live set of this bundle has a part at this offset. */
  ghost predicate HasPart<X(!new)>(cfg: Config, held: Held<X>, b: Bundle<X>, now: nat) {
    b.frag.Some? && b.key in held.partial && Live(cfg, held.partial[b.key], now) && b.frag.value.offset in held.partial[b.key].parts
  }

  /** Main result: what is turned down, and why. Only live sets count, for the total as for the room. */
  lemma ThrownIff<X(!new)>(cfg: Config, held: Held<X>, b: Bundle<X>, now: nat)
    requires Accounted(cfg, held)
    ensures var r := Offer(cfg, held, b, now).outcome;
            && (r == Threw(OutsideTotal) <==> b.frag.Some? && !WithinTotal(b))
            && (r == Threw(TotalsDisagree) <==> Disagrees(cfg, held, b, now))
            && (r == Threw(BufferFull) <==>
                  WithinTotal(b) && !Disagrees(cfg, held, b, now) && !HasPart(cfg, held, b, now)
                  && Total(Fresh(cfg, held.partial, now)) + |b.payload| > cfg.limit)
            && (b.frag.None? ==> r == Passed(b))
  {
    hide CoveredTo, WholeOf, Total, EntryAccounted;
  }

  /** A fragment of a bundle whose set has gone stale fares as if none had been held. */
  lemma StaleSetIsForgotten<X(!new)>(cfg: Config, held: Held<X>, b: Bundle<X>, now: nat)
    requires Accounted(cfg, held) && WithinTotal(b) && b.key in held.partial && !Live(cfg, held.partial[b.key], now)
    ensures var without := Held(held.partial - {b.key}, held.bytes - held.partial[b.key].bytes);
            Offer(cfg, held, b, now) == Offer(cfg, without, b, now)
  {
    hide CoveredTo, WholeOf, Total, EntryAccounted, WithPart;
    TotalWithout(held.partial, b.key);
    assert Fresh(cfg, held.partial - {b.key}, now) == Fresh(cfg, held.partial, now);
  }

  /** Arrival i brings this part, no later than the lifetime after `at`. */
  predicate Brings<X>(cfg: Config, a: Arrival<X>, key: Key, o: nat, part: seq<byte>, at: nat) {
    && a.bundle.key == key && a.bundle.frag.Some? && a.bundle.frag.value.offset == o && a.bundle.payload == part
    && a.now - at <= cfg.lifetime
  }

  ghost predicate Brought<X(!new)>(cfg: Config, arrivals: seq<Arrival<X>>, start: nat, key: Key, o: nat, part: seq<byte>, at: nat) {
    exists i :: start <= i < |arrivals| && Brings(cfg, arrivals[i], key, o, part, at)
  }

  /** The set began with arrival `start`, and all its parts have come since, within a lifetime of that. */
  ghost predicate BegunWith<X(!new)>(cfg: Config, arrivals: seq<Arrival<X>>, key: Key, parts: Parts, at: nat, start: nat) {
    && start < |arrivals| && arrivals[start].bundle.key == key && arrivals[start].now == at
    && forall o: nat :: o in parts ==> Brought(cfg, arrivals, start, key, o, parts[o], at)
  }

  ghost predicate SetBegun<X(!new)>(cfg: Config, arrivals: seq<Arrival<X>>, key: Key, parts: Parts, at: nat) {
    exists start: nat :: BegunWith(cfg, arrivals, key, parts, at, start)
  }

  lemma SetBegunBefore<X(!new)>(cfg: Config, before: seq<Arrival<X>>, a: Arrival<X>, key: Key, parts: Parts, at: nat)
    requires SetBegun(cfg, before, key, parts, at)
    ensures SetBegun(cfg, before + [a], key, parts, at)
  {
    var start: nat :| BegunWith(cfg, before, key, parts, at, start);
    var all := before + [a];
    forall o: nat | o in parts ensures Brought(cfg, all, start, key, o, parts[o], at) {
      assert Brought(cfg, before, start, key, o, parts[o], at);
      var i :| start <= i < |before| && Brings(cfg, before[i], key, o, parts[o], at);
      assert all[i] == before[i];
    }
    assert BegunWith(cfg, all, key, parts, at, start);
  }

  /** The set a fragment joins, or starts. */
  lemma SetJoined<X(!new)>(cfg: Config, before: seq<Arrival<X>>, a: Arrival<X>, e: Entry<X>)
    requires a.bundle.frag.Some? && Live(cfg, e, a.now)
    requires SetBegun(cfg, before, a.bundle.key, e.parts, e.at) || (e.parts == map[] && e.at == a.now)
    ensures SetBegun(cfg, before + [a], a.bundle.key, e.parts, e.at)
    ensures SetBegun(cfg, before + [a], a.bundle.key, WithPart(e, a.bundle).parts, e.at)
  {
    var key, all, e' := a.bundle.key, before + [a], WithPart(e, a.bundle);
    var start: nat;
    if SetBegun(cfg, before, key, e.parts, e.at) {
      SetBegunBefore(cfg, before, a, key, e.parts, e.at);
      start :| BegunWith(cfg, all, key, e.parts, e.at, start);
    } else {
      start := |before|;
      assert BegunWith(cfg, all, key, e.parts, e.at, start);
    }
    forall o: nat | o in e'.parts ensures Brought(cfg, all, start, key, o, e'.parts[o], e.at) {
      if o in e.parts {
        assert Brought(cfg, all, start, key, o, e.parts[o], e.at);
      } else {
        assert Brings(cfg, all[|before|], key, o, e'.parts[o], e.at);
      }
    }
    assert BegunWith(cfg, all, key, e'.parts, e.at, start);
  }

  ghost predicate AllBegun<X(!new)>(cfg: Config, arrivals: seq<Arrival<X>>, held: Held<X>) {
    forall k :: k in held.partial ==> SetBegun(cfg, arrivals, k, held.partial[k].parts, held.partial[k].at)
  }

  /** What an arrival completes has come within one lifetime too. */
  lemma OfferKeepsBegun<X(!new)>(cfg: Config, before: seq<Arrival<X>>, held: Held<X>, a: Arrival<X>)
    requires AllBegun(cfg, before, held)
    ensures var r := Offer(cfg, held, a.bundle, a.now);
            && AllBegun(cfg, before + [a], r.held)
            && (a.bundle.frag.Some? && r.outcome.Passed? ==>
                  exists parts: Parts, at: nat :: SetBegun(cfg, before + [a], a.bundle.key, parts, at)
                    && CoveredTo(parts, a.bundle.frag.value.total) && r.outcome.bundle.payload == WholeOf(parts, a.bundle.frag.value.total))
  {
    hide CoveredTo, WholeOf, Total, SetBegun, WithPart;
    var b, r := a.bundle, Offer(cfg, held, a.bundle, a.now);
    forall k | k in held.partial ensures SetBegun(cfg, before + [a], k, held.partial[k].parts, held.partial[k].at) {
      SetBegunBefore(cfg, before, a, k, held.partial[k].parts, held.partial[k].at);
    }
    if WithinTotal(b) {
      var e := EntryFor(Fresh(cfg, held.partial, a.now), b.key, b.frag.value.total, a.now);
      SetJoined(cfg, before, a, e);
      JoinedKeepsAt(e, b);
      assert r.outcome.Passed? ==> r.outcome.bundle.payload == WholeOf(WithPart(e, b).parts, b.frag.value.total);
    }
  }

  lemma JoinedKeepsAt<X(!new)>(e: Entry<X>, b: Bundle<X>)
    requires b.frag.Some?
    ensures WithPart(e, b).at == e.at && WithPart(e, b).total == e.total
  {
  }

  lemma {:induction false} ReceiveKeepsBegun<X(!new)>(cfg: Config, arrivals: seq<Arrival<X>>)
    ensures AllBegun(cfg, arrivals, Receive(cfg, arrivals).held)
    decreases |arrivals|
  {
    hide Offer, AllBegun;
    if arrivals == [] {
      NoneBegun<X>(cfg);
    } else {
      var before, last := arrivals[..|arrivals| - 1], arrivals[|arrivals| - 1];
      ReceiveKeepsBegun(cfg, before);
      OfferKeepsBegun(cfg, before, Receive(cfg, before).held, last);
      assert before + [last] == arrivals;
    }
  }

  lemma NoneBegun<X(!new)>(cfg: Config)
    ensures AllBegun<X>(cfg, [], Held(map[], 0))
  {
  }

  /** Main result: in every run, whatever is rebuilt is made of parts of one bundle that all arrived within one
      lifetime of the first of its set. */
  lemma RebuiltWithinOneLifetime<X(!new)>(cfg: Config, arrivals: seq<Arrival<X>>) returns (parts: Parts, start: nat)
    requires arrivals != [] && arrivals[|arrivals| - 1].bundle.frag.Some? && Receive(cfg, arrivals).outcome.Passed?
    ensures var b := arrivals[|arrivals| - 1].bundle;
            && start < |arrivals| && BegunWith(cfg, arrivals, b.key, parts, arrivals[start].now, start)
            && CoveredTo(parts, b.frag.value.total)
            && Receive(cfg, arrivals).outcome.bundle.payload == WholeOf(parts, b.frag.value.total)
  {
    hide Offer, CoveredTo, WholeOf, AllBegun;
    var before, last := arrivals[..|arrivals| - 1], arrivals[|arrivals| - 1];
    assert before + [last] == arrivals;
    ReceiveKeepsBegun(cfg, before);
    OfferKeepsBegun(cfg, before, Receive(cfg, before).held, last);
    var ps: Parts, at: nat :| SetBegun(cfg, arrivals, last.bundle.key, ps, at) && CoveredTo(ps, last.bundle.frag.value.total)
      && Receive(cfg, arrivals).outcome.bundle.payload == WholeOf(ps, last.bundle.frag.value.total);
    parts := ps;
    start :| BegunWith(cfg, arrivals, last.bundle.key, ps, at, start);
  }

  // ---- Fragmentation -----------------------------------------------------------------------------------

  /** The fragments of a payload from offset `off` on, `max` octets each but the last. */
  function FragmentsFrom<X>(key: Key, payload: seq<byte>, rest: X, max: nat, off: nat): (bs: seq<Bundle<X>>)
    requires max > 0
    decreases |payload| - off
  {
    if off >= |payload| then []
    else
      var end := if off + max < |payload| then off + max else |payload|;
      [Bundle(key, Some(Fragment(off, |payload|)), payload[off..end], rest)] + FragmentsFrom(key, payload, rest, max, off + max)
  }

  /** One bundle when the payload fits, else its fragments. */
  function BundlesOf<X>(key: Key, payload: seq<byte>, rest: X, max: nat): (bs: seq<Bundle<X>>)
    requires max > 0
  {
    if |payload| <= max then [Bundle(key, None, payload, rest)] else FragmentsFrom(key, payload, rest, max, 0)
  }

  lemma MovedOver<T>(a: seq<T>, b: T, c: seq<T>)
    ensures a + ([b] + c) == (a + [b]) + c
  {
  }

  lemma NextFragment<X>(key: Key, payload: seq<byte>, rest: X, max: nat, off: nat)
    requires max > 0
    ensures FragmentsFrom(key, payload, rest, max, off) ==
            if off >= |payload| then []
            else [Bundle(key, Some(Fragment(off, |payload|)), payload[off..if off + max < |payload| then off + max else |payload|], rest)]
                 + FragmentsFrom(key, payload, rest, max, off + max)
  {
  }

  /** `makeBundles`. A limit of zero would never advance; the gateway's is a positive number. */
  method MakeBundles<X>(key: Key, payload: seq<byte>, rest: X, max: nat) returns (out: seq<Bundle<X>>)
    requires max > 0
    ensures out == BundlesOf(key, payload, rest, max)
  {
    hide FragmentsFrom;
    var frag := |payload| > max;
    out := [];
    var off := 0;
    while off == 0 || off < |payload|
      invariant off > 0 ==> frag
      invariant frag ==> out + FragmentsFrom(key, payload, rest, max, off) == FragmentsFrom(key, payload, rest, max, 0)
      invariant off == 0 ==> out == []
      decreases |payload| - off
    {
      var part := if frag then payload[off..if off + max < |payload| then off + max else |payload|] else payload;
      var b := Bundle(key, if frag then Some(Fragment(off, |payload|)) else None, part, rest);
      ghost var before := out;
      out := out + [b];
      if !frag { break; }
      NextFragment(key, payload, rest, max, off);
      MovedOver(before, b, FragmentsFrom(key, payload, rest, max, off + max));
      off := off + max;
    }
    NextFragment(key, payload, rest, max, off);
  }

  /** How many fragments there are, and which octets the i-th carries. */
  lemma {:induction false} FragmentAt<X>(key: Key, payload: seq<byte>, rest: X, max: nat, off: nat, i: nat)
    requires max > 0 && i < |FragmentsFrom(key, payload, rest, max, off)|
    ensures var start := off + i * max;
            && start < |payload|
            && var end := if start + max < |payload| then start + max else |payload|;
               FragmentsFrom(key, payload, rest, max, off)[i] == Bundle(key, Some(Fragment(start, |payload|)), payload[start..end], rest)
    decreases i
  {
    if i > 0 {
      FragmentAt(key, payload, rest, max, off + max, i - 1);
      assert off + max + (i - 1) * max == off + i * max;
    }
  }

  /** Every octet of the payload is in some fragment. */
  lemma {:induction false} FragmentOf<X>(key: Key, payload: seq<byte>, rest: X, max: nat, off: nat, x: nat) returns (i: nat)
    requires max > 0 && off <= x < |payload|
    ensures i < |FragmentsFrom(key, payload, rest, max, off)| && off + i * max <= x < off + i * max + max
    decreases |payload| - off
  {
    if x < off + max {
      i := 0;
    } else {
      var j := FragmentOf(key, payload, rest, max, off + max, x);
      i := j + 1;
      assert off + max + j * max == off + i * max;
    }
  }

  /** The set holds exactly these fragments of the payload. */
  ghost predicate HoldsFragments<X(!new)>(e: Entry<X>, bs: seq<Bundle<X>>, got: set<nat>, payload: seq<byte>) {
    && e.total == |payload|
    && (forall i :: i in got ==> i < |bs| && bs[i].frag.Some?)
    && (forall o: nat :: o in e.parts <==> exists i :: i in got && bs[i].frag.value.offset == o)
    && (forall i :: i in got ==> bs[i].frag.value.offset in e.parts && e.parts[bs[i].frag.value.offset] == bs[i].payload)
    && e.first == (if 0 in got then Some(bs[0]) else None)
  }

  /** Such a set covers the payload exactly when no fragment is missing. */
  lemma CoveredIffAll<X(!new)>(e: Entry<X>, key: Key, payload: seq<byte>, rest: X, max: nat, got: set<nat>)
    requires max > 0
    requires HoldsFragments(e, FragmentsFrom(key, payload, rest, max, 0), got, payload)
    ensures CoveredTo(e.parts, |payload|) <==> forall i: nat :: i < |FragmentsFrom(key, payload, rest, max, 0)| ==> i in got
  {
    hide FragmentsFrom;
    var bs := FragmentsFrom(key, payload, rest, max, 0);
    if CoveredTo(e.parts, |payload|) {
      forall i: nat | i < |bs| ensures i in got {
        FragmentAt(key, payload, rest, max, 0, i);
        assert Covered(e.parts, i * max);
        var o: nat :| Covers(e.parts, o, i * max);
        var j :| j in got && bs[j].frag.value.offset == o;
        FragmentAt(key, payload, rest, max, 0, j);
        SameSlot(i, j, max);
      }
    }
    if forall i: nat :: i < |bs| ==> i in got {
      forall x: nat | x < |payload| ensures Covered(e.parts, x) {
        var i := FragmentOf(key, payload, rest, max, 0, x);
        FragmentAt(key, payload, rest, max, 0, i);
        assert Covers(e.parts, i * max, x);
      }
    }
  }

  lemma SameSlot(i: nat, j: nat, max: nat)
    requires max > 0 && j * max <= i * max < j * max + max
    ensures i == j
  {
    Quotient(i * max, max, i, 0);
    Quotient(i * max, max, j, i * max - j * max);
  }

  /** Fragment i arriving at a set that holds `got` of them. */
  lemma FragmentJoins<X(!new)>(e: Entry<X>, key: Key, payload: seq<byte>, rest: X, max: nat, got: set<nat>, i: nat)
    requires max > 0 && i < |FragmentsFrom(key, payload, rest, max, 0)|
    requires HoldsFragments(e, FragmentsFrom(key, payload, rest, max, 0), got, payload)
    ensures var b := FragmentsFrom(key, payload, rest, max, 0)[i];
            b.frag.Some? && HoldsFragments(WithPart(e, b), FragmentsFrom(key, payload, rest, max, 0), got + {i}, payload)
  {
    hide FragmentsFrom;
    var bs := FragmentsFrom(key, payload, rest, max, 0);
    FragmentAt(key, payload, rest, max, 0, i);
    assert bs[i].frag.value.offset == i * max;
    forall j | j in got ensures bs[j].frag.value.offset == j * max && (j * max == i * max ==> j == i) {
      FragmentAt(key, payload, rest, max, 0, j);
      if j * max == i * max { SameSlot(i, j, max); }
    }
    assert i * max == 0 <==> i == 0 by { if i > 0 { assert i * max >= max; } }
    var e' := WithPart(e, bs[i]);
    forall o: nat ensures o in e'.parts <==> exists j :: j in got + {i} && bs[j].frag.value.offset == o {
      if o in e'.parts && o != i * max {
        var j :| j in got && bs[j].frag.value.offset == o;
        assert j in got + {i};
      }
      if o == i * max { assert i in got + {i}; }
    }
  }

  /** Main result: the arrival of a fragment completes the bundle exactly when it is the last one
      missing, if there is room for it and the set has not gone stale. */
  lemma CompletesExactlyWhenLast<X(!new)>(cfg: Config, held: Held<X>, key: Key, payload: seq<byte>, rest: X, max: nat, got: set<nat>, i: nat, now: nat)
    requires 0 < max < |payload| && i < |FragmentsFrom(key, payload, rest, max, 0)|
    requires Accounted(cfg, held)
    requires if got == {} then key !in held.partial
             else key in held.partial && now - held.partial[key].at <= cfg.lifetime
                  && HoldsFragments(held.partial[key], FragmentsFrom(key, payload, rest, max, 0), got, payload)
    requires i in got || held.bytes + max <= cfg.limit
    ensures var bs := FragmentsFrom(key, payload, rest, max, 0);
            var r := Offer(cfg, held, bs[i], now);
            if forall j: nat :: j < |bs| ==> j in got + {i}
            then r.outcome == Passed(Bundle(key, None, payload, rest)) && key !in r.held.partial
            else r.outcome == Waiting && key in r.held.partial
                 && HoldsFragments(r.held.partial[key], bs, got + {i}, payload)
                 && r.held.partial[key].at == (if got == {} then now else held.partial[key].at)
                 && r.held.bytes <= held.bytes + (if i in got then 0 else max)
  {
    hide FragmentsFrom, CoveredTo, WholeOf, Total, PartsSize, HoldsFragments;
    var bs := FragmentsFrom(key, payload, rest, max, 0);
    FragmentAt(key, payload, rest, max, 0, i);
    var b := bs[i];
    var recent := Fresh(cfg, held.partial, now);
    TotalFresh(cfg, held.partial, now);
    var e := EntryFor(recent, key, |payload|, now);
    assert e.total == |payload| && HoldsFragments(e, bs, got, payload) by {
      if got == {} { EmptyHolds(e, bs, payload); } else { HoldsTotal(e, bs, got, payload); }
    }
    var e' := WithPart(e, b);
    if i in got { HoldsOffset(e, bs, got, payload, i); }
    FragmentJoins(e, key, payload, rest, max, got, i);
    CoveredIffAll(e', key, payload, rest, max, got + {i});
    if CoveredTo(e'.parts, |payload|) {
      assert i in got + {i} && 0 in got + {i};
      HeldFragmentsAreTrue(e', key, payload, rest, max, got + {i});
      TruePartsMakeWhole(e'.parts, payload);
    }
  }

  lemma HeldFragmentsAreTrue<X(!new)>(e: Entry<X>, key: Key, payload: seq<byte>, rest: X, max: nat, got: set<nat>)
    requires max > 0 && HoldsFragments(e, FragmentsFrom(key, payload, rest, max, 0), got, payload)
    ensures TrueParts(e.parts, payload)
    ensures 0 in got ==> e.first.Some? && e.first.value.key == key && e.first.value.rest == rest
  {
    hide FragmentsFrom;
    if 0 in got { FragmentAt(key, payload, rest, max, 0, 0); }
    var bs := FragmentsFrom(key, payload, rest, max, 0);
    forall o: nat | o in e.parts ensures o + |e.parts[o]| <= |payload| && e.parts[o] == payload[o..o + |e.parts[o]|] {
      var i :| i in got && bs[i].frag.value.offset == o;
      FragmentAt(key, payload, rest, max, 0, i);
    }
  }

  lemma EmptyHolds<X(!new)>(e: Entry<X>, bs: seq<Bundle<X>>, payload: seq<byte>)
    requires e.parts == map[] && e.first.None? && e.total == |payload|
    ensures HoldsFragments(e, bs, {}, payload)
  {
  }

  lemma HoldsOffset<X(!new)>(e: Entry<X>, bs: seq<Bundle<X>>, got: set<nat>, payload: seq<byte>, i: nat)
    requires HoldsFragments(e, bs, got, payload) && i in got
    ensures bs[i].frag.value.offset in e.parts
  {
  }

  lemma HoldsTotal<X(!new)>(e: Entry<X>, bs: seq<Bundle<X>>, got: set<nat>, payload: seq<byte>)
    requires HoldsFragments(e, bs, got, payload)
    ensures e.total == |payload|
  {
  }

  // ---- One bundle's fragments among others ---------------------------------------------------------------

  ghost predicate Arrived<X(!new)>(arrivals: seq<Arrival<X>>, b: Bundle<X>) {
    exists a :: a in arrivals && a.bundle == b
  }

  /** The fragments among the arrivals, by index. */
  ghost function Got<X(!new)>(bs: seq<Bundle<X>>, arrivals: seq<Arrival<X>>): set<nat> {
    set i | 0 <= i < |bs| && Arrived(arrivals, bs[i])
  }

  ghost predicate Missing(got: set<nat>, n: nat) {
    exists i: nat :: i < n && i !in got
  }

  ghost predicate Begun<X(!new)>(key: Key, arrivals: seq<Arrival<X>>) {
    exists a :: a in arrivals && a.bundle.key == key
  }

  /** When the first of a bundle's fragments arrived. */
  ghost function BeganAt<X(!new)>(key: Key, arrivals: seq<Arrival<X>>): nat {
    if arrivals == [] then 0
    else if Begun(key, arrivals[..|arrivals| - 1]) then BeganAt(key, arrivals[..|arrivals| - 1])
    else arrivals[|arrivals| - 1].now
  }

  /** Whatever arrives under this key is one of these fragments and finds room; and once the first has
      arrived nothing comes so late that it has gone stale. Other bundles come as they like. */
  ghost predicate Timely<X(!new)>(cfg: Config, held: Held<X>, key: Key, bs: seq<Bundle<X>>, max: nat, arrivals: seq<Arrival<X>>) {
    forall k :: 0 <= k < |arrivals| ==> TimelyAt(cfg, held, key, bs, max, arrivals[..k], arrivals[k])
  }

  ghost predicate TimelyAt<X(!new)>(cfg: Config, held: Held<X>, key: Key, bs: seq<Bundle<X>>, max: nat, before: seq<Arrival<X>>, a: Arrival<X>) {
    && (a.bundle.key == key ==> a.bundle in bs && OfferAll(cfg, held, before).held.bytes + max <= cfg.limit)
    && (Begun(key, before) ==> a.now - BeganAt(key, before) <= cfg.lifetime)
  }

  /** The set is waiting with exactly these fragments, the first of which came at time `at`. */
  ghost predicate WaitingWith<X(!new)>(held: Held<X>, key: Key, bs: seq<Bundle<X>>, payload: seq<byte>, got: set<nat>, at: nat) {
    if got == {} then key !in held.partial
    else key in held.partial && held.partial[key].at == at && HoldsFragments(held.partial[key], bs, got, payload)
  }

  /** An arrival under another key leaves the set as it is, if it comes in time. */
  lemma OthersLeaveIt<X(!new)>(cfg: Config, held: Held<X>, key: Key, b: Bundle<X>, now: nat)
    requires b.key != key && (key in held.partial ==> now - held.partial[key].at <= cfg.lifetime)
    ensures var after := Offer(cfg, held, b, now).held.partial;
            (key in after <==> key in held.partial) && (key in after ==> after[key] == held.partial[key])
  {
    hide CoveredTo, WholeOf, Total;
  }

  /** One more arrival in the lists. */
  lemma OneMoreGot<X(!new)>(key: Key, payload: seq<byte>, rest: X, max: nat, before: seq<Arrival<X>>, a: Arrival<X>)
    requires max > 0
    requires a.bundle.key == key ==> a.bundle in FragmentsFrom(key, payload, rest, max, 0)
    ensures var bs := FragmentsFrom(key, payload, rest, max, 0);
            && (a.bundle.key != key ==> Got(bs, before + [a]) == Got(bs, before))
            && (forall i :: 0 <= i < |bs| && bs[i] == a.bundle ==> Got(bs, before + [a]) == Got(bs, before) + {i})
  {
    hide FragmentsFrom;
    var bs := FragmentsFrom(key, payload, rest, max, 0);
    forall j | 0 <= j < |bs| ensures bs[j].key == key && (Arrived(before + [a], bs[j]) <==> Arrived(before, bs[j]) || bs[j] == a.bundle) {
      FragmentAt(key, payload, rest, max, 0, j);
      if Arrived(before, bs[j]) {
        var x :| x in before && x.bundle == bs[j];
        assert x in before + [a];
      }
      if bs[j] == a.bundle { assert a in before + [a]; }
    }
    forall i, j | 0 <= i < |bs| && 0 <= j < |bs| && bs[i] == bs[j] ensures i == j {
      FragmentAt(key, payload, rest, max, 0, i);
      FragmentAt(key, payload, rest, max, 0, j);
      SameSlot(i, j, max);
    }
  }

  /** One more arrival, of this bundle or another. */
  lemma OneMoreArrives<X(!new)>(cfg: Config, held: Held<X>, key: Key, payload: seq<byte>, rest: X, max: nat, got: set<nat>, at: nat, a: Arrival<X>)
    requires 0 < max < |payload| && Accounted(cfg, held)
    requires WaitingWith(held, key, FragmentsFrom(key, payload, rest, max, 0), payload, got, at)
    requires got != {} ==> a.now - at <= cfg.lifetime
    requires a.bundle.key == key ==> held.bytes + max <= cfg.limit
    ensures var bs := FragmentsFrom(key, payload, rest, max, 0);
            var r := Offer(cfg, held, a.bundle, a.now);
            && Accounted(cfg, r.held)
            && (a.bundle.key != key ==> WaitingWith(r.held, key, bs, payload, got, at))
            && (forall i :: 0 <= i < |bs| && bs[i] == a.bundle ==>
                  if Missing(got + {i}, |bs|)
                  then r.outcome == Waiting && WaitingWith(r.held, key, bs, payload, got + {i}, if got == {} then a.now else at)
                  else r.outcome == Passed(Bundle(key, None, payload, rest)) && key !in r.held.partial)
  {
    hide FragmentsFrom, Offer, Accounted, HoldsFragments;
    var bs := FragmentsFrom(key, payload, rest, max, 0);
    OfferKeepsAccounts(cfg, held, a.bundle, a.now);
    if a.bundle.key != key { OthersLeaveIt(cfg, held, key, a.bundle, a.now); }
    forall i | 0 <= i < |bs| && bs[i] == a.bundle
      ensures if Missing(got + {i}, |bs|)
              then Offer(cfg, held, a.bundle, a.now).outcome == Waiting
                   && WaitingWith(Offer(cfg, held, a.bundle, a.now).held, key, bs, payload, got + {i}, if got == {} then a.now else at)
              else Offer(cfg, held, a.bundle, a.now).outcome == Passed(Bundle(key, None, payload, rest))
                   && key !in Offer(cfg, held, a.bundle, a.now).held.partial
    {
      FragmentAt(key, payload, rest, max, 0, i);
      CompletesExactlyWhenLast(cfg, held, key, payload, rest, max, got, i, a.now);
    }
  }

  lemma TimelyBefore<X(!new)>(cfg: Config, held: Held<X>, key: Key, bs: seq<Bundle<X>>, max: nat, arrivals: seq<Arrival<X>>)
    requires arrivals != [] && Timely(cfg, held, key, bs, max, arrivals)
    ensures Timely(cfg, held, key, bs, max, arrivals[..|arrivals| - 1])
    ensures TimelyAt(cfg, held, key, bs, max, arrivals[..|arrivals| - 1], arrivals[|arrivals| - 1])
  {
    hide TimelyAt;
    var before := arrivals[..|arrivals| - 1];
    forall k | 0 <= k < |before| ensures TimelyAt(cfg, held, key, bs, max, before[..k], before[k]) {
      assert before[..k] == arrivals[..k] && before[k] == arrivals[k];
    }
  }

  /** After these arrivals the set waits with exactly those of its fragments among them. */
  ghost predicate SetWaits<X(!new)>(cfg: Config, held: Held<X>, key: Key, bs: seq<Bundle<X>>, payload: seq<byte>, arrivals: seq<Arrival<X>>) {
    var r := OfferAll(cfg, held, arrivals);
    && Accounted(cfg, r.held) && WaitingWith(r.held, key, bs, payload, Got(bs, arrivals), BeganAt(key, arrivals))
    && (Begun(key, arrivals) <==> Got(bs, arrivals) != {})
  }

  lemma NothingGot<X(!new)>(cfg: Config, held: Held<X>, key: Key, bs: seq<Bundle<X>>, payload: seq<byte>)
    requires Accounted(cfg, held) && key !in held.partial
    ensures SetWaits(cfg, held, key, bs, payload, [])
  {
    hide Accounted, HoldsFragments;
    assert Got(bs, []) == {};
  }

  lemma LastArrives<X(!new)>(cfg: Config, held: Held<X>, key: Key, payload: seq<byte>, rest: X, max: nat, arrivals: seq<Arrival<X>>)
    requires 0 < max < |payload| && arrivals != []
    requires var bs, before := FragmentsFrom(key, payload, rest, max, 0), arrivals[..|arrivals| - 1];
             SetWaits(cfg, held, key, bs, payload, before) && TimelyAt(cfg, held, key, bs, max, before, arrivals[|arrivals| - 1])
    ensures var bs := FragmentsFrom(key, payload, rest, max, 0);
            var r := OfferAll(cfg, held, arrivals);
            if arrivals[|arrivals| - 1].bundle.key != key then SetWaits(cfg, held, key, bs, payload, arrivals)
            else if Missing(Got(bs, arrivals), |bs|) then r.outcome == Waiting && SetWaits(cfg, held, key, bs, payload, arrivals)
            else r.outcome == Passed(Bundle(key, None, payload, rest)) && key !in r.held.partial
  {
    hide FragmentsFrom, Offer, Accounted, HoldsFragments, Missing, Got;
    var bs, before, last := FragmentsFrom(key, payload, rest, max, 0), arrivals[..|arrivals| - 1], arrivals[|arrivals| - 1];
    assert arrivals == before + [last];
    OneMoreGot(key, payload, rest, max, before, last);
    OneMoreArrives(cfg, OfferAll(cfg, held, before).held, key, payload, rest, max, Got(bs, before), BeganAt(key, before), last);
    BegunAfter(key, before, last);
    if last.bundle.key == key {
      var i :| 0 <= i < |bs| && bs[i] == last.bundle;
      assert Got(bs, arrivals) == Got(bs, before) + {i};
    }
  }

  lemma BegunAfter<X(!new)>(key: Key, before: seq<Arrival<X>>, a: Arrival<X>)
    ensures Begun(key, before + [a]) <==> Begun(key, before) || a.bundle.key == key
    ensures BeganAt(key, before + [a]) == if Begun(key, before) then BeganAt(key, before) else a.now
  {
    assert (before + [a])[..|before|] == before;
    if Begun(key, before) {
      var x :| x in before && x.bundle.key == key;
      assert x in before + [a];
    }
    if a.bundle.key == key { assert a in before + [a]; }
  }

  lemma MissingBefore<X(!new)>(bs: seq<Bundle<X>>, arrivals: seq<Arrival<X>>)
    requires arrivals != [] && Missing(Got(bs, arrivals), |bs|)
    ensures Missing(Got(bs, arrivals[..|arrivals| - 1]), |bs|)
  {
    var i: nat :| i < |bs| && i !in Got(bs, arrivals);
    if Arrived(arrivals[..|arrivals| - 1], bs[i]) {
      var a :| a in arrivals[..|arrivals| - 1] && a.bundle == bs[i];
      assert a in arrivals && Arrived(arrivals, bs[i]);
    }
    assert i !in Got(bs, arrivals[..|arrivals| - 1]);
  }

  lemma {:induction false} WaitsWhileMissing<X(!new)>(cfg: Config, held: Held<X>, key: Key, payload: seq<byte>, rest: X, max: nat, arrivals: seq<Arrival<X>>)
    requires 0 < max < |payload| && Accounted(cfg, held) && key !in held.partial
    requires var bs := FragmentsFrom(key, payload, rest, max, 0);
             Timely(cfg, held, key, bs, max, arrivals) && Missing(Got(bs, arrivals), |bs|)
    ensures SetWaits(cfg, held, key, FragmentsFrom(key, payload, rest, max, 0), payload, arrivals)
    decreases |arrivals|
  {
    hide FragmentsFrom, OfferAll, Accounted, SetWaits, Timely, TimelyAt, Missing, Got;
    var bs := FragmentsFrom(key, payload, rest, max, 0);
    if arrivals == [] {
      NothingGot(cfg, held, key, bs, payload);
    } else {
      TimelyBefore(cfg, held, key, bs, max, arrivals);
      MissingBefore(bs, arrivals);
      WaitsWhileMissing(cfg, held, key, payload, rest, max, arrivals[..|arrivals| - 1]);
      LastArrives(cfg, held, key, payload, rest, max, arrivals);
    }
  }

  /** Main result: the fragments of one bundle arrive in whatever order, with whatever repeats and with
      anything of other bundles in between, each finding room and before those held go stale. Nothing
      is rebuilt and everything is held until the last missing one, which rebuilds the bundle that was
      cut up. */
  lemma {:induction false} LastMissingCompletes<X(!new)>(cfg: Config, held: Held<X>, key: Key, payload: seq<byte>, rest: X, max: nat, arrivals: seq<Arrival<X>>)
    requires 0 < max < |payload| && Accounted(cfg, held) && key !in held.partial
    requires arrivals != [] && arrivals[|arrivals| - 1].bundle.key == key
    requires var bs := FragmentsFrom(key, payload, rest, max, 0);
             Timely(cfg, held, key, bs, max, arrivals) && Missing(Got(bs, arrivals[..|arrivals| - 1]), |bs|)
    ensures var bs := FragmentsFrom(key, payload, rest, max, 0);
            var r := OfferAll(cfg, held, arrivals);
            if Missing(Got(bs, arrivals), |bs|)
            then r.outcome == Waiting && WaitingWith(r.held, key, bs, payload, Got(bs, arrivals), BeganAt(key, arrivals))
            else r.outcome == Passed(Bundle(key, None, payload, rest)) && key !in r.held.partial
  {
    hide FragmentsFrom, OfferAll, Accounted, Timely, TimelyAt, Missing, Got, WaitingWith;
    TimelyBefore(cfg, held, key, FragmentsFrom(key, payload, rest, max, 0), max, arrivals);
    WaitsWhileMissing(cfg, held, key, payload, rest, max, arrivals[..|arrivals| - 1]);
    LastArrives(cfg, held, key, payload, rest, max, arrivals);
  }

  /** An arriving fragment adds exactly its own octets to those covered, if its offset is new or it has
      none that are not covered already; and only then. */
  lemma ArrivalCountsIff<X(!new)>(e: Entry<X>, b: Bundle<X>)
    requires b.frag.Some?
    ensures var o, after := b.frag.value.offset, WithPart(e, b).parts;
            (forall x: nat :: Covered(after, x) <==> Covered(e.parts, x) || o <= x < o + |b.payload|)
            <==> o !in e.parts || forall x: nat :: o <= x < o + |b.payload| ==> Covered(e.parts, x)
  {
    var o, after := b.frag.value.offset, WithPart(e, b).parts;
    if o !in e.parts {
      forall x: nat ensures Covered(after, x) <==> Covered(e.parts, x) || o <= x < o + |b.payload| {
        CoveredWithPart(e.parts, o, b.payload, x);
      }
    } else {
      assert after == e.parts;
    }
  }

  lemma CoveredWithPart(parts: Parts, o: nat, part: seq<byte>, x: nat)
    requires o !in parts
    ensures Covered(parts[o := part], x) <==> Covered(parts, x) || o <= x < o + |part|
  {
    var after := parts[o := part];
    if Covered(parts, x) {
      var c: nat :| Covers(parts, c, x);
      assert Covers(after, c, x);
    }
    if o <= x < o + |part| { assert Covers(after, o, x); }
    if Covered(after, x) {
      var c: nat :| Covers(after, c, x);
      assert c == o || Covers(parts, c, x);
    }
  }

  /** Section 5.9 of RFC 9171 reassembles once the fragments received cover the payload. Here a
      fragment at an offset already held adds nothing, even if it is longer, so a set can stay
      incomplete though what arrived covers it. */
  lemma LongerAtSameOffsetIsIgnored<X(!new)>(cfg: Config, key: Key, rest: X, v: byte, w: byte, now: nat)
    requires cfg.limit >= 3
    ensures var short := Bundle(key, Some(Fragment(0, 2)), [v], rest);
            var long := Bundle(key, Some(Fragment(0, 2)), [v, w], rest);
            && Receive(cfg, [Arrival(short, now), Arrival(long, now)]).outcome == Waiting
            && Receive(cfg, [Arrival(long, now)]).outcome == Passed(Bundle(key, None, [v, w], rest))
  {
    hide WholeOf, Total, PartsSize;
    var short := Bundle(key, Some(Fragment(0, 2)), [v], rest);
    var long := Bundle(key, Some(Fragment(0, 2)), [v, w], rest);
    var held: Held<X> := Held(map[], 0);
    var none: Entry<X> := Entry(2, map[], None, 0, now);
    assert Fresh<X>(cfg, map[], now) == map[];
    assert [Arrival(short, now), Arrival(long, now)][..1] == [Arrival(short, now)];
    var e := WithPart(none, short);
    assert e.parts == map[0 := [v]];
    assert !Covered(e.parts, 1);
    var mid := Offer(cfg, held, short, now);
    assert mid == Offered(Held(map[key := e], 1), Waiting);
    assert Fresh(cfg, mid.held.partial, now) == mid.held.partial;
    assert Offer(cfg, mid.held, long, now).outcome == Waiting;
    var g := WithPart(none, long);
    assert g.parts == map[0 := [v, w]];
    assert Covers(g.parts, 0, 0) && Covers(g.parts, 0, 1);
    assert CoveredTo(g.parts, 2);
    TruePartsMakeWhole(g.parts, [v, w]);
    assert Offer(cfg, held, long, now).outcome == Passed(Bundle(key, None, [v, w], rest));
    OneArrival(cfg, long, now);
    OneArrival(cfg, short, now);
  }

  lemma OneArrival<X(!new)>(cfg: Config, b: Bundle<X>, now: nat)
    ensures Receive(cfg, [Arrival(b, now)]) == Offer(cfg, Held(map[], 0), b, now)
  {
    hide Offer;
    var none: Held<X> := Held(map[], 0);
    assert [Arrival(b, now)][..0] == [] && OfferAll<X>(cfg, none, []) == Offered(none, Waiting);
  }

  // ---- Pieces cut in any way ------------------------------------------------------------------------------

  /** Octets of this payload from some offset on, however it was cut. */
  predicate PieceOf<X>(b: Bundle<X>, payload: seq<byte>) {
    && b.frag.Some? && b.frag.value.total == |payload|
    && var o := b.frag.value.offset; o + |b.payload| <= |payload| && b.payload == payload[o..o + |b.payload|]
  }

  function Joined<X>(parts: Parts, b: Bundle<X>): Parts
    requires b.frag.Some?
  {
    var o := b.frag.value.offset;
    if o in parts then parts else parts[o := b.payload]
  }

  /** The first piece to arrive at each offset. */
  function FirstToArrive<X(!new)>(key: Key, arrivals: seq<Arrival<X>>): Parts {
    if arrivals == [] then map[]
    else
      var parts, b := FirstToArrive(key, arrivals[..|arrivals| - 1]), arrivals[|arrivals| - 1].bundle;
      if b.key == key && b.frag.Some? then Joined(parts, b) else parts
  }

  /** The last piece to arrive at offset 0, whose other blocks the bundle rebuilt has. */
  function LastAtZero<X(!new)>(key: Key, arrivals: seq<Arrival<X>>): Option<Bundle<X>> {
    if arrivals == [] then None
    else
      var b := arrivals[|arrivals| - 1].bundle;
      if b.key == key && b.frag.Some? && b.frag.value.offset == 0 then Some(b) else LastAtZero(key, arrivals[..|arrivals| - 1])
  }

  /** What arrives under this key is such a piece and finds room if it needs any; and once the first has arrived nothing
      comes so late that it has gone stale. Other bundles come as they like. */
  ghost predicate InTime<X(!new)>(cfg: Config, held: Held<X>, key: Key, payload: seq<byte>, arrivals: seq<Arrival<X>>) {
    forall k :: 0 <= k < |arrivals| ==> InTimeAt(cfg, held, key, payload, arrivals[..k], arrivals[k])
  }

  ghost predicate InTimeAt<X(!new)>(cfg: Config, held: Held<X>, key: Key, payload: seq<byte>, before: seq<Arrival<X>>, a: Arrival<X>) {
    && (a.bundle.key == key ==>
          && PieceOf(a.bundle, payload)
          && (a.bundle.frag.value.offset in FirstToArrive(key, before)
              || OfferAll(cfg, held, before).held.bytes + |a.bundle.payload| <= cfg.limit))
    && (Begun(key, before) ==> a.now - BeganAt(key, before) <= cfg.lifetime)
  }

  /** The set waits with these parts, if any have come. */
  ghost predicate Collects<X(!new)>(held: Held<X>, key: Key, begun: bool, parts: Parts, first: Option<Bundle<X>>, payload: seq<byte>, at: nat) {
    && TrueParts(parts, payload) && (first.Some? <==> 0 in parts) && (first.Some? ==> first.value.key == key)
    && if begun then key in held.partial && held.partial[key] == Entry(|payload|, parts, first, held.partial[key].bytes, at)
       else key !in held.partial && parts == map[] && first.None?
  }

  lemma CoversZero(parts: Parts, total: nat)
    requires total > 0 && CoveredTo(parts, total)
    ensures 0 in parts
  {
    assert Covered(parts, 0);
    var o: nat :| Covers(parts, o, 0);
  }

  /** The rebuilt payload of true parts. */
  lemma TrueEntryMakesWhole<X(!new)>(e: Entry<X>, b: Bundle<X>, payload: seq<byte>)
    requires payload != [] && PieceOf(b, payload) && TrueParts(e.parts, payload) && e.total == |payload|
    ensures WithPart(e, b).parts == Joined(e.parts, b) && TrueParts(Joined(e.parts, b), payload)
    ensures CoveredTo(Joined(e.parts, b), |payload|) ==> 0 in Joined(e.parts, b) && WholeOf(Joined(e.parts, b), |payload|) == payload
  {
    TruePartAdded(e, b, payload);
    hide CoveredTo, WholeOf, TrueParts;
    if CoveredTo(Joined(e.parts, b), |payload|) {
      CoversZero(Joined(e.parts, b), |payload|);
      TruePartsMakeWhole(Joined(e.parts, b), payload);
    }
  }

  /** A true piece that finds room is joined to its set, or completes it. */
  lemma OfferPiece<X(!new)>(cfg: Config, held: Held<X>, b: Bundle<X>, now: nat)
    requires b.frag.Some? && b.frag.value.total > 0 && b.frag.value.offset + |b.payload| <= b.frag.value.total
    requires var e := EntryFor(Fresh(cfg, held.partial, now), b.key, b.frag.value.total, now);
             && e.total == b.frag.value.total
             && (b.frag.value.offset in e.parts
                 || held.bytes - (Total(held.partial) - Total(Fresh(cfg, held.partial, now))) + |b.payload| <= cfg.limit)
    ensures var e := WithPart(EntryFor(Fresh(cfg, held.partial, now), b.key, b.frag.value.total, now), b); var r := Offer(cfg, held, b, now);
            if CoveredTo(e.parts, e.total) && e.first.Some?
            then r.outcome == Passed(Rebuilt(e.first.value, WholeOf(e.parts, e.total))) && b.key !in r.held.partial
            else r.outcome == Waiting && b.key in r.held.partial && r.held.partial[b.key] == e
  {
    hide CoveredTo, WholeOf, Total, Fresh, WithPart;
  }

  lemma PieceArrives<X(!new)>(cfg: Config, held: Held<X>, key: Key, begun: bool, parts: Parts, first: Option<Bundle<X>>,
                              payload: seq<byte>, at: nat, a: Arrival<X>)
    requires payload != [] && Accounted(cfg, held) && Collects(held, key, begun, parts, first, payload, at)
    requires a.bundle.key == key && PieceOf(a.bundle, payload)
    requires a.bundle.frag.value.offset in parts || held.bytes + |a.bundle.payload| <= cfg.limit
    requires begun ==> a.now - at <= cfg.lifetime
    ensures var r, parts' := Offer(cfg, held, a.bundle, a.now), Joined(parts, a.bundle);
            var first' := if a.bundle.frag.value.offset == 0 then Some(a.bundle) else first;
            if CoveredTo(parts', |payload|)
            then first'.Some? && r.outcome == Passed(Rebuilt(first'.value, payload)) && key !in r.held.partial
            else r.outcome == Waiting && Collects(r.held, key, true, parts', first', payload, if begun then at else a.now)
  {
    hide CoveredTo, WholeOf, Total, PartsSize, Offer, EntryAccounted, TrueParts;
    TotalFresh(cfg, held.partial, a.now);
    var e := EntryFor(Fresh(cfg, held.partial, a.now), key, |payload|, a.now);
    OfferPiece(cfg, held, a.bundle, a.now);
    TrueEntryMakesWhole(e, a.bundle, payload);
  }

  lemma InTimeBefore<X(!new)>(cfg: Config, held: Held<X>, key: Key, payload: seq<byte>, arrivals: seq<Arrival<X>>)
    requires arrivals != [] && InTime(cfg, held, key, payload, arrivals)
    ensures InTime(cfg, held, key, payload, arrivals[..|arrivals| - 1])
    ensures InTimeAt(cfg, held, key, payload, arrivals[..|arrivals| - 1], arrivals[|arrivals| - 1])
  {
    hide InTimeAt;
    var before := arrivals[..|arrivals| - 1];
    forall k | 0 <= k < |before| ensures InTimeAt(cfg, held, key, payload, before[..k], before[k]) {
      assert before[..k] == arrivals[..k] && before[k] == arrivals[k];
    }
  }

  ghost predicate Collected<X(!new)>(cfg: Config, held: Held<X>, key: Key, payload: seq<byte>, arrivals: seq<Arrival<X>>) {
    var r := OfferAll(cfg, held, arrivals).held;
    && Accounted(cfg, r)
    && Collects(r, key, Begun(key, arrivals), FirstToArrive(key, arrivals), LastAtZero(key, arrivals), payload, BeganAt(key, arrivals))
  }

  lemma OneMorePiece<X(!new)>(cfg: Config, held: Held<X>, key: Key, payload: seq<byte>, arrivals: seq<Arrival<X>>)
    requires payload != [] && arrivals != [] && Collected(cfg, held, key, payload, arrivals[..|arrivals| - 1])
    requires InTimeAt(cfg, held, key, payload, arrivals[..|arrivals| - 1], arrivals[|arrivals| - 1])
    ensures var r := OfferAll(cfg, held, arrivals);
            if arrivals[|arrivals| - 1].bundle.key != key then Collected(cfg, held, key, payload, arrivals)
            else if CoveredTo(FirstToArrive(key, arrivals), |payload|)
            then LastAtZero(key, arrivals).Some? && r.outcome == Passed(Rebuilt(LastAtZero(key, arrivals).value, payload))
                 && key !in r.held.partial
            else r.outcome == Waiting && Collected(cfg, held, key, payload, arrivals)
  {
    hide Offer, Accounted, CoveredTo, TrueParts, PieceOf;
    var before, last := arrivals[..|arrivals| - 1], arrivals[|arrivals| - 1];
    var h := OfferAll(cfg, held, before).held;
    assert arrivals == before + [last];
    BegunAfter(key, before, last);
    OfferKeepsAccounts(cfg, h, last.bundle, last.now);
    if last.bundle.key == key {
      assert last.bundle.frag.Some? by { PieceIsFragment(last.bundle, payload); }
      PieceArrives(cfg, h, key, Begun(key, before), FirstToArrive(key, before), LastAtZero(key, before), payload, BeganAt(key, before), last);
    } else {
      OthersLeaveIt(cfg, h, key, last.bundle, last.now);
    }
  }

  lemma PieceIsFragment<X>(b: Bundle<X>, payload: seq<byte>)
    requires PieceOf(b, payload)
    ensures b.frag.Some?
  {
  }

  /** What is covered stays so as pieces arrive. */
  lemma CoverageGrows<X(!new)>(key: Key, arrivals: seq<Arrival<X>>, total: nat)
    requires arrivals != [] && CoveredTo(FirstToArrive(key, arrivals[..|arrivals| - 1]), total)
    ensures CoveredTo(FirstToArrive(key, arrivals), total)
  {
    var was, now := FirstToArrive(key, arrivals[..|arrivals| - 1]), FirstToArrive(key, arrivals);
    forall x: nat | x < total ensures Covered(now, x) {
      assert Covered(was, x);
      var o: nat :| Covers(was, o, x);
      assert Covers(now, o, x);
    }
  }

  lemma {:induction false} CollectsUntilCovered<X(!new)>(cfg: Config, held: Held<X>, key: Key, payload: seq<byte>, arrivals: seq<Arrival<X>>)
    requires payload != [] && Accounted(cfg, held) && key !in held.partial && InTime(cfg, held, key, payload, arrivals)
    requires !CoveredTo(FirstToArrive(key, arrivals), |payload|)
    ensures Collected(cfg, held, key, payload, arrivals)
    decreases |arrivals|
  {
    hide OfferAll, Accounted, CoveredTo, InTime, InTimeAt, FirstToArrive, LastAtZero;
    if arrivals == [] {
      NothingCollected(cfg, held, key, payload);
    } else {
      InTimeBefore(cfg, held, key, payload, arrivals);
      if CoveredTo(FirstToArrive(key, arrivals[..|arrivals| - 1]), |payload|) { CoverageGrows(key, arrivals, |payload|); }
      CollectsUntilCovered(cfg, held, key, payload, arrivals[..|arrivals| - 1]);
      OneMorePiece(cfg, held, key, payload, arrivals);
    }
  }

  lemma NothingCollected<X(!new)>(cfg: Config, held: Held<X>, key: Key, payload: seq<byte>)
    requires Accounted(cfg, held) && key !in held.partial
    ensures Collected(cfg, held, key, payload, [])
  {
    hide Accounted;
  }

  /** Main result: the exact condition for pieces cut in any way, overlapping, repeated, in any order and
      with anything of other bundles in between, each finding room and before those held go stale. A set
      not yet complete is completed by the next piece, into the payload it was cut from, exactly when the
      first pieces to have arrived at each offset then cover it. */
  lemma CompletesExactlyWhenCovered<X(!new)>(cfg: Config, held: Held<X>, key: Key, payload: seq<byte>, arrivals: seq<Arrival<X>>)
    requires payload != [] && Accounted(cfg, held) && key !in held.partial && InTime(cfg, held, key, payload, arrivals)
    requires arrivals != [] && arrivals[|arrivals| - 1].bundle.key == key
    requires !CoveredTo(FirstToArrive(key, arrivals[..|arrivals| - 1]), |payload|)
    ensures var r := OfferAll(cfg, held, arrivals);
            if CoveredTo(FirstToArrive(key, arrivals), |payload|)
            then LastAtZero(key, arrivals).Some? && r.outcome == Passed(Rebuilt(LastAtZero(key, arrivals).value, payload))
                 && key !in r.held.partial
            else r.outcome == Waiting && key in r.held.partial && r.held.partial[key].parts == FirstToArrive(key, arrivals)
  {
    hide OfferAll, Accounted, CoveredTo, InTime, InTimeAt, FirstToArrive, LastAtZero;
    InTimeBefore(cfg, held, key, payload, arrivals);
    CollectsUntilCovered(cfg, held, key, payload, arrivals[..|arrivals| - 1]);
    OneMorePiece(cfg, held, key, payload, arrivals);
    assert Begun(key, arrivals) by { assert arrivals[|arrivals| - 1] in arrivals; }
  }

  // ---- The gateway's own set of fragments -----------------------------------------------------------------

  /** Sorted: each offset once, in increasing order. */
  ghost predicate InOrder(offs: seq<nat>, parts: Parts) {
    && (forall i, j :: 0 <= i < j < |offs| ==> offs[i] < offs[j])
    && (forall i :: 0 <= i < |offs| ==> offs[i] in parts)
    && (forall o: nat :: o in parts ==> o in offs)
  }

  method SortOffsets(parts: Parts) returns (offs: seq<nat>)
    ensures InOrder(offs, parts)
  {
    offs := [];
    var left := parts.Keys;
    while left != {}
      invariant left <= parts.Keys
      invariant forall i, j :: 0 <= i < j < |offs| ==> offs[i] < offs[j]
      invariant forall i :: 0 <= i < |offs| ==> offs[i] in parts && forall o :: o in left ==> offs[i] < o
      invariant forall o: nat :: o in parts ==> o in left || o in offs
      decreases |left|
    {
      var least := Least(left);
      offs := offs + [least];
      left := left - {least};
    }
  }

  method Least(s: set<nat>) returns (m: nat)
    requires s != {}
    ensures m in s && forall o :: o in s ==> m <= o
  {
    m :| m in s;
    var left := s - {m};
    while left != {}
      invariant left <= s && m in s && forall o :: o in s ==> o in left || m <= o
      decreases |left|
    {
      var o :| o in left;
      if o < m { m := o; }
      left := left - {o};
    }
  }

  /** The sweep over the sorted offsets finds a gap exactly when some octet is missing. */
  method SweepCoverage(parts: Parts, offs: seq<nat>, total: nat) returns (complete: bool)
    requires InOrder(offs, parts) && forall o: nat :: o in parts ==> o + |parts[o]| <= total
    ensures complete <==> CoveredTo(parts, total)
  {
    var end: nat := 0;
    var i := 0;
    while i < |offs|
      invariant 0 <= i <= |offs| && end <= total
      invariant CoveredTo(parts, end)
      invariant forall k :: 0 <= k < i ==> offs[k] + |parts[offs[k]]| <= end
    {
      var o := offs[i];
      if o > end {
        assert !Covered(parts, end) by { NotReached(parts, offs, i, end); }
        return false;
      }
      var stop := o + |parts[o]|;
      forall x: nat | end <= x < stop ensures Covered(parts, x) {
        assert Covers(parts, o, x);
      }
      if stop > end { end := stop; }
      i := i + 1;
    }
    if end < total {
      assert !Covered(parts, end) by { NotReached(parts, offs, i, end); }
    }
    return end >= total;
  }

  lemma NotReached(parts: Parts, offs: seq<nat>, i: nat, end: nat)
    requires InOrder(offs, parts) && i <= |offs| && (i < |offs| ==> offs[i] > end)
    requires forall k :: 0 <= k < i ==> offs[k] + |parts[offs[k]]| <= end
    ensures !Covered(parts, end)
  {
    forall c: nat | c in parts ensures !Covers(parts, c, end) {
      var k :| 0 <= k < |offs| && offs[k] == c;
      if k >= i { assert offs[i] <= offs[k]; }
    }
  }

  /** The parts of offsets offs[..i]. */
  function FirstParts(parts: Parts, offs: seq<nat>, i: nat): Parts
    requires i <= |offs|
  {
    map o | o in parts && o in offs[..i] :: parts[o]
  }

  /** Where the parts so far reach, the octets are those of the topmost. */
  ghost predicate Shows(whole: seq<byte>, parts: Parts, offs: seq<nat>, i: nat)
    requires i <= |offs|
  {
    forall o: nat, x: nat :: Top(FirstParts(parts, offs, i), o, x) && x < |whole| ==> whole[x] == parts[o][x - o]
  }

  ghost predicate Overwrites(before: seq<byte>, after: seq<byte>, part: seq<byte>, at: nat) {
    && |after| == |before|
    && forall x :: 0 <= x < |after| ==> after[x] == if at <= x < at + |part| then part[x - at] else before[x]
  }

  lemma OnePartMore(before: seq<byte>, after: seq<byte>, parts: Parts, offs: seq<nat>, i: nat)
    requires InOrder(offs, parts) && i < |offs| && Shows(before, parts, offs, i)
    requires Overwrites(before, after, parts[offs[i]], offs[i])
    ensures Shows(after, parts, offs, i + 1)
  {
    hide InOrder;
    forall p: nat, x: nat | Top(FirstParts(parts, offs, i + 1), p, x) && x < |after| ensures after[x] == parts[p][x - p] {
      TopOfMore(parts, offs, i, p, x);
    }
  }

  lemma AllPartsShown(whole: seq<byte>, parts: Parts, offs: seq<nat>, total: nat)
    requires InOrder(offs, parts) && CoveredTo(parts, total) && |whole| == total && Shows(whole, parts, offs, |offs|)
    ensures whole == WholeOf(parts, total)
  {
    hide OctetAt, WholeOf, CoveredTo;
    assert FirstParts(parts, offs, |offs|) == parts by { assert offs[..|offs|] == offs; }
    WholeFromTops(parts, total, whole);
  }

  lemma NothingShown(whole: seq<byte>, parts: Parts, offs: seq<nat>)
    ensures Shows(whole, parts, offs, 0)
  {
  }

  /** Copied in order of offset, a later part overwrites an earlier one where they overlap. */
  method CopyParts(parts: Parts, offs: seq<nat>, total: nat) returns (payload: seq<byte>)
    requires InOrder(offs, parts) && CoveredTo(parts, total)
    requires forall o: nat :: o in parts ==> o + |parts[o]| <= total
    ensures payload == WholeOf(parts, total)
  {
    hide OctetAt, WholeOf, CoveredTo, Shows, Overwrites;
    var whole := new byte[total];
    var i := 0;
    NothingShown(whole[..], parts, offs);
    while i < |offs|
      invariant 0 <= i <= |offs| && Shows(whole[..], parts, offs, i)
    {
      ghost var before := whole[..];
      CopyInto(whole, parts[offs[i]], offs[i]);
      OnePartMore(before, whole[..], parts, offs, i);
      i := i + 1;
    }
    AllPartsShown(whole[..], parts, offs, total);
    payload := whole[..];
  }

  /** The newest part, having the greatest offset, is on top wherever it reaches. */
  lemma TopOfMore(parts: Parts, offs: seq<nat>, i: nat, p: nat, x: nat)
    requires InOrder(offs, parts) && i < |offs| && Top(FirstParts(parts, offs, i + 1), p, x)
    ensures if offs[i] <= x < offs[i] + |parts[offs[i]]| then p == offs[i] else Top(FirstParts(parts, offs, i), p, x)
  {
    var now, next := FirstParts(parts, offs, i), FirstParts(parts, offs, i + 1);
    assert offs[..i + 1] == offs[..i] + [offs[i]];
    assert forall c :: c in next <==> c in now || c == offs[i];
    var o := offs[i];
    if o <= x < o + |parts[o]| {
      assert Covers(next, o, x);
      assert p <= o by {
        var k :| 0 <= k <= i && offs[k] == p;
      }
    } else {
      assert p != o;
      assert Covers(now, p, x);
      forall c: nat | Covers(now, c, x) ensures c <= p { assert Covers(next, c, x); }
    }
  }

  lemma WholeFromTops(parts: Parts, total: nat, w: seq<byte>)
    requires CoveredTo(parts, total) && |w| == total
    requires forall o: nat, x: nat :: Top(parts, o, x) && x < total ==> w[x] == parts[o][x - o]
    ensures w == WholeOf(parts, total)
  {
    forall x: nat | x < total ensures w[x] == WholeOf(parts, total)[x] {
      assert Covered(parts, x);
      var c: nat :| Covers(parts, c, x);
      TopAbove(parts, c, x);
      var o: nat :| Top(parts, o, x) && OctetAt(parts, x) == parts[o][x - o];
    }
  }

  method CopyInto(whole: array<byte>, part: seq<byte>, at: nat)
    requires at + |part| <= whole.Length
    modifies whole
    ensures Overwrites(old(whole[..]), whole[..], part, at)
  {
    var i := 0;
    while i < |part|
      invariant 0 <= i <= |part|
      invariant forall x :: 0 <= x < whole.Length ==> whole[x] == if at <= x < at + i then part[x - at] else old(whole[x])
    {
      whole[at + i] := part[i];
      i := i + 1;
    }
  }

  /** The payload of a set that covers it and has its first fragment. */
  method Finish<X(!new)>(e: Entry<X>) returns (whole: Option<seq<byte>>)
    requires forall o: nat :: o in e.parts ==> o + |e.parts[o]| <= e.total
    ensures whole.Some? <==> CoveredTo(e.parts, e.total) && e.first.Some?
    ensures whole.Some? ==> whole.value == WholeOf(e.parts, e.total)
  {
    var offs := SortOffsets(e.parts);
    var complete := SweepCoverage(e.parts, offs, e.total);
    if !complete || e.first.None? { return None; }
    var payload := CopyParts(e.parts, offs, e.total);
    return Some(payload);
  }

  class Reassembler<X(!new)> {
    const cfg: Config
    var partial: map<Key, Entry<X>>
    var partialBytes: int

    function View(): Held<X>
      reads this
    {
      Held(partial, partialBytes)
    }

    constructor (cfg: Config)
      ensures this.cfg == cfg && View() == Held(map[], 0)
    {
      this.cfg := cfg;
      partial, partialBytes := map[], 0;
    }

    /** Forgets every set whose first fragment is too old. */
    method Expire(now: nat)
      modifies this
      ensures partial == Fresh(cfg, old(partial), now)
      ensures partialBytes == old(partialBytes) - (Total(old(partial)) - Total(partial))
    {
      hide Total;
      var left := partial.Keys;
      while left != {}
        invariant left <= partial.Keys <= old(partial).Keys
        invariant forall k :: k in partial ==> partial[k] == old(partial)[k]
        invariant forall k :: k in old(partial) ==>
                    (k in partial <==> k in left || now - old(partial)[k].at <= cfg.lifetime)
        invariant partialBytes == old(partialBytes) - (Total(old(partial)) - Total(partial))
        decreases |left|
      {
        var k :| k in left;
        left := left - {k};
        var e := partial[k];
        if now - e.at > cfg.lifetime {
          TotalWithout(partial, k);
          partialBytes := partialBytes - e.bytes;
          partial := partial - {k};
        }
      }
      assert partial == Fresh(cfg, old(partial), now);
    }

    method Reassemble(b: Bundle<X>, now: nat) returns (outcome: Outcome<X>)
      requires Accounted(cfg, View())
      modifies this
      ensures Offer(cfg, old(View()), b, now) == Offered(View(), outcome)
      ensures Accounted(cfg, View())
    {
      hide CoveredTo, WholeOf, Total, Accounted, EntryAccounted, Fresh;
      ghost var target := Offer(cfg, View(), b, now);
      assert Accounted(cfg, target.held) by { OfferKeepsAccounts(cfg, View(), b, now); }
      if b.frag.None? { return Passed(b); }
      var f, part := b.frag.value, b.payload;
      if f.total == 0 || f.offset + |part| > f.total { return Threw(OutsideTotal); }
      ghost var given := View();
      Expire(now);
      var e: Entry<X>;
      if b.key in partial {
        e := partial[b.key];
      } else {
        e := Entry(f.total, map[], None, 0, now);
        partial := partial[b.key := e];
      }
      ghost var recent := Fresh(cfg, given.partial, now);
      assert e == EntryFor(recent, b.key, f.total, now) && partial == recent[b.key := e];
      if e.total != f.total {
        assert partial == recent;
        return Threw(TotalsDisagree);
      }
      if f.offset !in e.parts && partialBytes + |part| > cfg.limit { return Threw(BufferFull); }
      PartsWithin(cfg, given, b, now);
      outcome := Join(b, e);
      assert recent[b.key := e] - {b.key} == recent - {b.key};
    }

    /** The fragment joins its set, which is forgotten if that completes it. */
    method Join(b: Bundle<X>, held: Entry<X>) returns (outcome: Outcome<X>)
      requires b.frag.Some? && b.key in partial && partial[b.key] == held
      requires var e := WithPart(held, b); forall o: nat :: o in e.parts ==> o + |e.parts[o]| <= e.total
      modifies this
      ensures var e := WithPart(held, b); var bytes := old(partialBytes) + e.bytes - held.bytes;
              if CoveredTo(e.parts, e.total) && e.first.Some? then
                && partial == old(partial) - {b.key} && partialBytes == bytes - e.bytes
                && outcome == Passed(Rebuilt(e.first.value, WholeOf(e.parts, e.total)))
              else partial == old(partial)[b.key := e] && partialBytes == bytes && outcome == Waiting
    {
      hide CoveredTo, WholeOf;
      var e, f := held, b.frag.value;
      if f.offset !in e.parts {
        e := e.(parts := e.parts[f.offset := b.payload], bytes := e.bytes + |b.payload|);
        partialBytes := partialBytes + |b.payload|;
      }
      if f.offset == 0 { e := e.(first := Some(b)); }
      assert e == WithPart(held, b);
      partial := partial[b.key := e];
      var whole := Finish(e);
      if whole.None? { return Waiting; }
      partial := partial - {b.key};
      partialBytes := partialBytes - e.bytes;
      return Passed(Rebuilt(e.first.value, whole.value));
    }
  }

  /** No part held reaches beyond its total. */
  lemma PartsWithin<X(!new)>(cfg: Config, held: Held<X>, b: Bundle<X>, now: nat)
    requires Accounted(cfg, held) && b.frag.Some? && b.frag.value.offset + |b.payload| <= b.frag.value.total
    requires EntryFor(Fresh(cfg, held.partial, now), b.key, b.frag.value.total, now).total == b.frag.value.total
    ensures var e := WithPart(EntryFor(Fresh(cfg, held.partial, now), b.key, b.frag.value.total, now), b);
            forall o: nat :: o in e.parts ==> o + |e.parts[o]| <= e.total
  {
    hide Total, PartsSize;
  }
}
