/**
 Links with outages, of constellation/optical-isl.mjs: when a link is up, when a bundle is sent on it,
 and the sweep that finds the most bundles held at once. Times are reals; the random draws are inputs.
 */
module LinkSchedule {
  import opened Wrappers

  /** Up from a until just before b. */
  datatype Interval = Interval(a: real, b: real)

  ghost predicate InOrder(up: seq<Interval>) {
    && (forall i :: 0 <= i < |up| ==> up[i].a < up[i].b)
    && (forall i, j :: 0 <= i < j < |up| ==> up[i].b <= up[j].a)
  }

  ghost predicate UpAt(up: seq<Interval>, x: real) {
    exists i :: 0 <= i < |up| && up[i].a <= x < up[i].b
  }

  // ---- Fades -----------------------------------------------------------------------------------------

  /** The draws: the k-th fade begins a gap after the one before ends, and lasts between 2 and 10 s. */
  datatype Draws = Draws(gap: nat -> real, len: nat -> real)

  ghost predicate Possible(draws: Draws) {
    forall k: nat :: draws.gap(k) >= 0.0 && 2.0 <= draws.len(k) <= 10.0
  }

  function Min(x: real, y: real): real { if x < y then x else y }

  /** When the k-th fade begins. */
  function FadeFrom(start: real, end: real, draws: Draws, k: nat): real {
    if k == 0 then start + draws.gap(0)
    else Min(end, FadeFrom(start, end, draws, k - 1) + draws.len(k - 1)) + draws.gap(k)
  }

  ghost predicate Faded(start: real, end: real, draws: Draws, x: real) {
    exists k: nat :: FadedBy(start, end, draws, x, k)
  }

  ghost predicate FadedBy(start: real, end: real, draws: Draws, x: real, k: nat) {
    FadeFrom(start, end, draws, k) <= x < FadeFrom(start, end, draws, k) + draws.len(k)
  }

  /** Fades before the end come one after the other. */
  lemma {:induction false} FadesInOrder(start: real, end: real, draws: Draws, j: nat, k: nat)
    requires Possible(draws) && j < k
    ensures FadeFrom(start, end, draws, k) >= Min(end, FadeFrom(start, end, draws, j) + draws.len(j))
    decreases k
  {
    assert draws.gap(k) >= 0.0;
    if j < k - 1 {
      FadesInOrder(start, end, draws, j, k - 1);
      assert draws.len(k - 1) >= 2.0;
    }
  }

  /** Up to t the list is exactly the span without its first k fades. */
  ghost predicate UpSoFar(out: seq<Interval>, start: real, end: real, draws: Draws, k: nat, t: real) {
    && InOrder(out)
    && (forall i :: 0 <= i < |out| ==> start <= out[i].a && out[i].b <= t)
    && forall x :: start <= x < t ==> (UpAt(out, x) <==> !FadedBefore(start, end, draws, x, k))
  }

  ghost predicate FadedBefore(start: real, end: real, draws: Draws, x: real, k: nat) {
    exists j: nat :: j < k && FadedBy(start, end, draws, x, j)
  }

  lemma UpAtAppend(out: seq<Interval>, s: Interval, x: real)
    ensures UpAt(out + [s], x) <==> UpAt(out, x) || s.a <= x < s.b
  {
    var more := out + [s];
    if UpAt(out, x) {
      var i :| 0 <= i < |out| && out[i].a <= x < out[i].b;
      assert more[i] == out[i];
    }
    if s.a <= x < s.b { assert more[|out|] == s; }
    if UpAt(more, x) {
      var i :| 0 <= i < |more| && more[i].a <= x < more[i].b;
      assert i < |out| ==> out[i] == more[i];
    }
  }

  /** The first k fades are over by t. */
  ghost predicate NoneAfter(start: real, end: real, draws: Draws, k: nat, t: real) {
    forall x, j: nat :: j < k && t <= x < end ==> !FadedBy(start, end, draws, x, j)
  }

  /** The k-th fade, from f on, after an up stretch from t. */
  lemma OneMoreFade(out: seq<Interval>, start: real, end: real, draws: Draws, k: nat, t: real, f: real)
    requires Possible(draws) && UpSoFar(out, start, end, draws, k, t) && start <= t <= f < end
    requires f == FadeFrom(start, end, draws, k)
    requires NoneAfter(start, end, draws, k, t)
    ensures UpSoFar(if f > t then out + [Interval(t, f)] else out, start, end, draws, k + 1, Min(end, f + draws.len(k)))
  {
    hide FadeFrom, UpAt;
    var more := if f > t then out + [Interval(t, f)] else out;
    var t' := Min(end, f + draws.len(k));
    assert draws.len(k) >= 2.0;
    forall x | start <= x < t' ensures UpAt(more, x) <==> !FadedBefore(start, end, draws, x, k + 1) {
      UpAtAppend(out, Interval(t, f), x);
      NotUpPast(out, t, x);
      assert FadedBy(start, end, draws, x, k) <==> f <= x;
      assert FadedBefore(start, end, draws, x, k + 1) <==> FadedBefore(start, end, draws, x, k) || FadedBy(start, end, draws, x, k);
    }
  }

  lemma NotUpPast(out: seq<Interval>, t: real, x: real)
    requires forall i :: 0 <= i < |out| ==> out[i].b <= t
    ensures x >= t ==> !UpAt(out, x)
  {
  }

  lemma FadesAreOver(start: real, end: real, draws: Draws, k: nat, t: real, t': real, f: real)
    requires Possible(draws) && f == FadeFrom(start, end, draws, k) && t <= f < end
    requires t' == Min(end, f + draws.len(k))
    requires NoneAfter(start, end, draws, k, t)
    ensures NoneAfter(start, end, draws, k + 1, t')
  {
    hide FadeFrom;
    assert draws.len(k) >= 2.0;
    forall x, j: nat | j < k + 1 && t' <= x < end ensures !FadedBy(start, end, draws, x, j) {
      if j < k { assert t <= x; }
    }
  }

  /** `upIntervals`: up exactly where no fade falls. */
  method UpIntervals(start: real, end: real, fades: bool, draws: Draws) returns (out: seq<Interval>)
    requires Possible(draws) && start < end
    ensures InOrder(out)
    ensures forall i :: 0 <= i < |out| ==> start <= out[i].a && out[i].b <= end
    ensures forall x :: start <= x < end ==> (UpAt(out, x) <==> !(fades && Faded(start, end, draws, x)))
  {
    hide FadeFrom, UpAt, UpSoFar, NoneAfter;
    out := [];
    var t := start;
    ghost var n: nat := 0;
    NothingUp(start, end, draws);
    if fades {
      var k: nat := 0;
      assert draws.gap(0) >= 0.0;
      var f := start + draws.gap(0);
      while f < end
        invariant start <= t <= end && t <= f && f == FadeFrom(start, end, draws, k)
        invariant UpSoFar(out, start, end, draws, k, t) && NoneAfter(start, end, draws, k, t)
        decreases if f < end then (end - f).Floor + 1 else 0
      {
        var d := draws.len(k);
        assert 2.0 <= draws.len(k) && draws.gap(k + 1) >= 0.0;
        OneMoreFade(out, start, end, draws, k, t, f);
        FadesAreOver(start, end, draws, k, t, Min(end, f + d), f);
        NextFade(start, end, draws, k);
        if f > t { out := out + [Interval(t, f)]; }
        t := Min(end, f + d);
        f := t + draws.gap(k + 1);
        k := k + 1;
      }
      n := k;
    }
    UpToTheEnd(out, start, end, draws, n, t, fades);
    if t < end { out := out + [Interval(t, end)]; }
  }

  lemma NothingUp(start: real, end: real, draws: Draws)
    ensures UpSoFar([], start, end, draws, 0, start) && NoneAfter(start, end, draws, 0, start)
    ensures FadeFrom(start, end, draws, 0) == start + draws.gap(0)
  {
  }

  lemma NextFade(start: real, end: real, draws: Draws, k: nat)
    ensures FadeFrom(start, end, draws, k + 1) == Min(end, FadeFrom(start, end, draws, k) + draws.len(k)) + draws.gap(k + 1)
  {
  }

  /** The last up stretch. */
  lemma UpToTheEnd(out: seq<Interval>, start: real, end: real, draws: Draws, n: nat, t: real, fades: bool)
    requires Possible(draws) && UpSoFar(out, start, end, draws, n, t) && NoneAfter(start, end, draws, n, t) && start <= t <= end
    requires if fades then FadeFrom(start, end, draws, n) >= end else n == 0 && t == start
    ensures var more := if t < end then out + [Interval(t, end)] else out;
            && InOrder(more)
            && (forall i :: 0 <= i < |more| ==> start <= more[i].a && more[i].b <= end)
            && forall x :: start <= x < end ==> (UpAt(more, x) <==> !(fades && Faded(start, end, draws, x)))
  {
    hide FadeFrom, UpAt;
    var more := if t < end then out + [Interval(t, end)] else out;
    forall x | start <= x < end ensures UpAt(more, x) <==> !(fades && Faded(start, end, draws, x)) {
      UpAtAppend(out, Interval(t, end), x);
      NotUpPast(out, t, x);
      if fades { LaterFadesAreTooLate(start, end, draws, n, x); }
    }
  }

  lemma LaterFadesAreTooLate(start: real, end: real, draws: Draws, n: nat, x: real)
    requires Possible(draws) && FadeFrom(start, end, draws, n) >= end && x < end
    ensures Faded(start, end, draws, x) <==> FadedBefore(start, end, draws, x, n)
  {
    hide FadeFrom;
    if Faded(start, end, draws, x) {
      var j: nat :| FadedBy(start, end, draws, x, j);
      assert draws.len(n) >= 2.0;
      if j > n { FadesInOrder(start, end, draws, n, j); }
      assert j < n;
    }
  }

  // ---- Sending over a link ---------------------------------------------------------------------------------

  datatype Sent = Sent(start: real, end: real, contact: nat)

  /** A transmission of length tx beginning at t fits in the i-th up interval. */
  ghost predicate Fits(up: seq<Interval>, i: nat, t: real, tx: real) {
    i < |up| && up[i].a <= t < up[i].b && t + tx <= up[i].b
  }

  ghost predicate InsideContact(up: seq<Interval>, s: Sent) {
    s.start <= s.end && s.contact < |up| && up[s.contact].a <= s.start && s.end <= up[s.contact].b
  }

  /** Transmissions in the order made, none begun before the one before it ended. */
  ghost predicate NoOverlap(placed: seq<Sent>) {
    forall i, j :: 0 <= i < j < |placed| ==> placed[i].end <= placed[j].start
  }

  class Link {
    const up: seq<Interval>
    var freeAt: real
    var sent: nat
    var resent: nat
    /** Every transmission made so far. */
    ghost var placed: seq<Sent>

    ghost predicate Valid()
      reads this
    {
      && InOrder(up) && sent == |placed| && NoOverlap(placed)
      && (forall k :: 0 <= k < |placed| ==> InsideContact(up, placed[k]) && placed[k].end <= freeAt)
    }

    constructor (up: seq<Interval>)
      requires InOrder(up)
      ensures Valid() && this.up == up && placed == [] && freeAt == 0.0
    {
      this.up, freeAt, sent, resent, placed := up, 0.0, 0, 0, [];
    }

    /** The earliest moment from `ready` on at which the link is free and stays up long enough; None
        when there is none. Every up interval passed over too late is a transmission cut and resent. */
    method Send(ready: real, tx: real) returns (r: Option<Sent>)
      requires Valid() && tx >= 0.0
      modifies this
      ensures Valid()
      ensures var from := if ready < old(freeAt) then old(freeAt) else ready;
              match r
              case Some(s) =>
                && Fits(up, s.contact, s.start, tx) && s.end == s.start + tx && s.start >= from
                && (forall i, t :: Fits(up, i, t, tx) && t >= from ==> s.start <= t)
                && freeAt == s.end && placed == old(placed) + [s]
                && resent - old(resent) == |TooShort(up, s.contact, from)|
              case None =>
                && (forall i, t :: !(Fits(up, i, t, tx) && t >= from))
                && freeAt == old(freeAt) && placed == old(placed)
                && resent - old(resent) == |TooShort(up, |up|, from)|
    {
      var t := if ready < freeAt then freeAt else ready;
      ghost var from := t;
      ghost var resentBefore := resent;
      for i := 0 to |up|
        invariant Valid() && freeAt == old(freeAt) && placed == old(placed)
        invariant t >= from && forall k :: 0 <= k < i ==> up[k].b <= t
        invariant t == from || (i > 0 && t == up[i - 1].b)
        invariant forall k, t' :: 0 <= k < i ==> !(Fits(up, k, t', tx) && t' >= from)
        invariant resent - resentBefore == |TooShort(up, i, from)|
      {
        var a, b := up[i].a, up[i].b;
        TooShortNext(up, i, from);
        if t >= b { assert t == from; continue; }
        if t < a { t := a; }
        if t + tx <= b {
          freeAt := t + tx;
          sent := sent + 1;
          r := Some(Sent(t, t + tx, i));
          placed := placed + [r.value];
          assert Fits(up, i, t, tx);
          return;
        }
        resent := resent + 1;
        t := b;
      }
      r := None;
    }
  }

  /** The intervals before the i-th that were still up after `from`. */
  ghost function TooShort(up: seq<Interval>, i: nat, from: real): set<nat> {
    set k: nat | k < i && k < |up| && up[k].b > from
  }

  lemma TooShortNext(up: seq<Interval>, i: nat, from: real)
    requires i < |up|
    ensures |TooShort(up, i + 1, from)| == |TooShort(up, i, from)| + if up[i].b > from then 1 else 0
  {
    assert TooShort(up, i + 1, from) == if up[i].b > from then TooShort(up, i, from) + {i} else TooShort(up, i, from);
  }

  // ---- The most bundles held at once ------------------------------------------------------------------------

  /** How many bundles have arrived by x and not yet left. */
  ghost function HeldAt(arrivals: seq<real>, departures: seq<real>, x: real): nat
    requires |arrivals| == |departures|
  {
    if arrivals == [] then 0
    else (if arrivals[0] <= x < departures[0] then 1 else 0) + HeldAt(arrivals[1..], departures[1..], x)
  }

  ghost function CountUpTo(s: seq<real>, x: real): nat {
    if s == [] then 0 else (if s[0] <= x then 1 else 0) + CountUpTo(s[1..], x)
  }

  lemma {:induction false} HeldIsDifference(arrivals: seq<real>, departures: seq<real>, x: real)
    requires |arrivals| == |departures| && forall k :: 0 <= k < |arrivals| ==> arrivals[k] <= departures[k]
    ensures HeldAt(arrivals, departures, x) == CountUpTo(arrivals, x) - CountUpTo(departures, x)
  {
    if arrivals != [] { HeldIsDifference(arrivals[1..], departures[1..], x); }
  }

  function InsertReal(x: real, s: seq<real>): (r: seq<real>)
    ensures |r| == |s| + 1
  {
    if s == [] || x <= s[0] then [x] + s else [s[0]] + InsertReal(x, s[1..])
  }

  function SortReals(s: seq<real>): (r: seq<real>)
    ensures |r| == |s|
  {
    if s == [] then [] else InsertReal(s[0], SortReals(s[1..]))
  }

  ghost predicate Ascending(s: seq<real>) {
    forall i, j :: 0 <= i < j < |s| ==> s[i] <= s[j]
  }

  lemma {:induction false} InsertAscends(x: real, s: seq<real>)
    requires Ascending(s)
    ensures Ascending(InsertReal(x, s)) && forall y :: y in InsertReal(x, s) ==> y == x || y in s
  {
    if s != [] && x > s[0] {
      InsertAscends(x, s[1..]);
      var r := InsertReal(x, s[1..]);
      forall j | 0 <= j < |r| ensures s[0] <= r[j] { assert r[j] in r; }
    }
  }

  lemma {:induction false} SortAscends(s: seq<real>)
    ensures Ascending(SortReals(s))
  {
    if s != [] {
      SortAscends(s[1..]);
      InsertAscends(s[0], SortReals(s[1..]));
    }
  }

  lemma {:induction false} InsertCounts(y: real, s: seq<real>, x: real)
    ensures CountUpTo(InsertReal(y, s), x) == CountUpTo(s, x) + if y <= x then 1 else 0
  {
    if s == [] || y <= s[0] {
      assert ([y] + s)[1..] == s;
    } else {
      InsertCounts(y, s[1..], x);
      assert InsertReal(y, s)[1..] == InsertReal(y, s[1..]);
    }
  }

  lemma {:induction false} SortCounts(s: seq<real>, x: real)
    ensures CountUpTo(SortReals(s), x) == CountUpTo(s, x)
  {
    if s != [] {
      SortCounts(s[1..], x);
      InsertCounts(s[0], SortReals(s[1..]), x);
    }
  }

  /** In ascending order the count is a position. */
  lemma {:induction false} CountIsPosition(s: seq<real>, x: real, c: nat)
    requires Ascending(s) && c <= |s|
    ensures CountUpTo(s, x) == c <==> (c > 0 ==> s[c - 1] <= x) && (c < |s| ==> x < s[c])
    ensures CountUpTo(s, x) <= |s|
  {
    if s != [] {
      if c > 0 { NoneUpTo(s, x); CountIsPosition(s[1..], x, c - 1); }
      else { NoneUpTo(s, x); CountIsPosition(s[1..], x, 0); }
    }
  }

  lemma {:induction false} NoneUpTo(s: seq<real>, x: real)
    requires Ascending(s) && s != []
    ensures CountUpTo(s, x) == 0 <==> x < s[0]
  {
    if |s| > 1 { NoneUpTo(s[1..], x); }
  }

  /** Later, never fewer. */
  lemma {:induction false} CountGrows(s: seq<real>, x: real, y: real)
    requires x <= y
    ensures CountUpTo(s, x) <= CountUpTo(s, y)
  {
    if s != [] { CountGrows(s[1..], x, y); }
  }

  /** The peak sweep over arrivals and departures, each sorted. */
  method Peak(arrivals: seq<real>, departures: seq<real>) returns (peak: int)
    requires |arrivals| == |departures| && forall k :: 0 <= k < |arrivals| ==> arrivals[k] <= departures[k]
    ensures forall x :: HeldAt(arrivals, departures, x) <= peak
    ensures exists x :: HeldAt(arrivals, departures, x) == peak
  {
    hide CountUpTo, HeldAt, SortReals;
    peak := 0;
    var a, d := SortReals(arrivals), SortReals(departures);
    SortedSweep(arrivals, departures, a, d);
    var i, j, cur := 0, 0, 0;
    while i < |a|
      invariant 0 <= i <= |a| && 0 <= j <= |d| && cur == i - j
      invariant j > 0 && i < |a| ==> d[j - 1] <= a[i]
      invariant peak >= 0 && forall x :: Held(a, d, x) <= peak || CountUpTo(a, x) > i
      invariant exists x :: Held(a, d, x) >= peak
      decreases |a| - i + |d| - j
    {
      if j < |d| && d[j] <= a[i] {
        cur := cur - 1;
        j := j + 1;
      } else {
        CountIsPosition(d, a[i], j);
        OneMoreArrival(a, d, i, j, peak);
        cur := cur + 1;
        i := i + 1;
        peak := if peak < cur then cur else peak;
        assert i < |a| ==> a[i - 1] <= a[i];
      }
    }
    forall x ensures Held(a, d, x) <= peak { CountIsPosition(a, x, |a|); }
    ghost var x :| Held(a, d, x) >= peak;
    assert HeldAt(arrivals, departures, x) == peak;
  }

  ghost function Held(a: seq<real>, d: seq<real>, x: real): int {
    CountUpTo(a, x) - CountUpTo(d, x)
  }

  lemma SortedSweep(arrivals: seq<real>, departures: seq<real>, a: seq<real>, d: seq<real>)
    requires |arrivals| == |departures| && forall k :: 0 <= k < |arrivals| ==> arrivals[k] <= departures[k]
    requires a == SortReals(arrivals) && d == SortReals(departures)
    ensures |a| == |d| == |arrivals| && Ascending(a) && Ascending(d)
    ensures forall x :: Held(a, d, x) == HeldAt(arrivals, departures, x)
    ensures exists x :: Held(a, d, x) >= 0
    ensures forall x :: Held(a, d, x) <= 0 || CountUpTo(a, x) > 0
  {
    SortAscends(arrivals);
    SortAscends(departures);
    forall x ensures Held(a, d, x) == HeldAt(arrivals, departures, x) {
      SortCounts(arrivals, x);
      SortCounts(departures, x);
      HeldIsDifference(arrivals, departures, x);
    }
    assert Held(a, d, 0.0) >= 0;
  }

  /** With all that left by the i-th arrival taken off, the count is what is held then. */
  lemma OneMoreArrival(a: seq<real>, d: seq<real>, i: nat, j: nat, peak: int)
    requires Ascending(a) && Ascending(d) && i < |a| && CountUpTo(d, a[i]) == j
    requires forall x :: Held(a, d, x) <= peak || CountUpTo(a, x) > i
    ensures forall x :: Held(a, d, x) <= peak || Held(a, d, x) <= i + 1 - j || CountUpTo(a, x) > i + 1
    ensures Held(a, d, a[i]) >= i + 1 - j
  {
    hide CountUpTo;
    forall x ensures Held(a, d, x) <= peak || Held(a, d, x) <= i + 1 - j || CountUpTo(a, x) > i + 1 {
      if CountUpTo(a, x) == i + 1 {
        CountIsPosition(a, x, i + 1);
        CountGrows(d, a[i], x);
      }
    }
    var c := CountUpTo(a, a[i]);
    CountIsPosition(a, a[i], 0);
    CountIsPosition(a, a[i], c);
  }
}
