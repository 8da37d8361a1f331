/**
 The gateway's sender (`fromIp` and `_pump` of gateway/gateway.mjs) over its disk spool, and every run
 of it: bundles added, the link coming and going, sends that fail, crashes and restarts.

 A send over a session that acknowledges (version 4, or version 3 when both ends ask for it) resolves
 only after the peer has emitted the bundle, at most once per send: GatewaySends. Over a version 3
 session without acknowledgements it resolves once the octets are handed to the operating system, and
 the bundle arrives later or not at all. What has not arrived when a session is torn down is dropped.
 */
module GatewayPump {
  import opened Wrappers
  import opened IdOrder
  import S = Spool

  /** The bundle being sent: its file, and whether the peer has emitted it. */
  datatype Sending = Sending(file: nat, arrived: bool)

  datatype Session = Down | Up(acks: bool)

  /** The spool's files by number, each holding the bundle added under that index; the next number
      while the gateway runs; the session; what is being sent; bundles whose sends have resolved
      though they are still on their way; every bundle ever added; the peer's log of arrivals; and
      what was still on its way when a session ended. Bundles go by their index. */
  datatype World = World(
    files: map<nat, nat>, next: nat, running: bool,
    session: Session, sending: Option<Sending>, onWay: seq<nat>,
    added: seq<seq<int>>, log: seq<nat>, dropped: set<nat>)

  datatype Step =
    | Start                     // the process starts and reads its spool directory
    | Add(bytes: seq<int>)      // a bundle is wrapped and spooled
    | Connect(acks: bool)       // whether its sends wait for acknowledgements
    | Pick                      // the oldest file is read and sent
    | Arrive                    // the peer has the last octet and emits the bundle
    | Resolve                   // the send resolves after that, and the file is deleted
    | HandOver                  // unacknowledged, it resolves before: the octets are on their way
    | ArriveLate                // and the peer emits the bundle then
    | Fail                      // the send is refused or times out: the session is torn down
    | LinkDrop
    | Crash

  const Empty := World(map[], 1, false, Down, None, [], [], [], {})

  /** The session is gone, and with it what was on its way. */
  function Disconnected(w: World): World {
    w.(session := Down, sending := None, onWay := [], dropped := w.dropped + set i | i in w.onWay)
  }

  /** The first file in the order of the names. */
  ghost predicate IsOldest(files: map<nat, nat>, n: nat) {
    n in files && forall m :: m in files && m != n ==> Below(S.Name(n), S.Name(m))
  }

  /** The number after the highest there is, or one. */
  ghost predicate IsNextNumber(files: map<nat, nat>, next: nat) {
    if files == map[] then next == 1
    else next > 0 && next - 1 in files && forall n :: n in files ==> n < next
  }

  ghost predicate Next(w: World, step: Step, w': World) {
    match step
    case Start =>
      !w.running && IsNextNumber(w.files, w'.next) && w' == w.(running := true, next := w'.next)
    case Add(bytes) =>
      w.running && w' == w.(files := w.files[w.next := |w.added|], next := w.next + 1, added := w.added + [bytes])
    case Connect(acks) => w.running && w.session.Down? && w' == w.(session := Up(acks))
    case Pick =>
      && w.running && w.session.Up? && w.sending.None? && w'.sending.Some?
      && IsOldest(w.files, w'.sending.value.file)
      && w' == w.(sending := Some(Sending(w'.sending.value.file, false)))
    case Arrive =>
      && w.session.Up? && w.onWay == [] && w.sending.Some? && !w.sending.value.arrived && w.sending.value.file in w.files
      && w' == w.(sending := Some(w.sending.value.(arrived := true)), log := w.log + [w.files[w.sending.value.file]])
    case Resolve =>
      && w.running && w.sending.Some? && w.sending.value.arrived
      && w' == w.(files := w.files - {w.sending.value.file}, sending := None)
    case HandOver =>
      && w.running && w.session == Up(false) && w.sending.Some? && !w.sending.value.arrived && w.sending.value.file in w.files
      && w' == w.(files := w.files - {w.sending.value.file}, sending := None, onWay := w.onWay + [w.files[w.sending.value.file]])
    case ArriveLate =>
      w.session.Up? && w.onWay != [] && w' == w.(onWay := w.onWay[1..], log := w.log + [w.onWay[0]])
    case Fail => w.running && w.sending.Some? && w' == Disconnected(w)
    case LinkDrop => w' == Disconnected(w)
    case Crash => w' == Disconnected(w).(running := false)
  }

  /** A sequence of worlds from the empty one, each reached from the one before by some step; when
      `acked`, every session acknowledges. */
  ghost predicate IsRun(ws: seq<World>, acked: bool) {
    && ws != [] && ws[0] == Empty
    && forall i :: 0 <= i < |ws| - 1 ==> CanStep(ws[i], ws[i + 1], acked)
  }

  ghost predicate CanStep(w: World, w': World, acked: bool) {
    exists step :: Next(w, step, w') && Allowed(step, acked)
  }

  predicate Allowed(step: Step, acked: bool) {
    step.Connect? && acked ==> step.acks
  }

  // ---- The invariant ----------------------------------------------------------------------------------

  /** Exactly the bundles from index `a` on are waiting, later ones under higher numbers. */
  ghost predicate WaitingFrom(w: World, a: nat) {
    && a <= |w.added|
    && (forall n :: n in w.files ==> a <= w.files[n] < |w.added|)
    && (forall n, m :: n in w.files && m in w.files && n < m ==> w.files[n] < w.files[m])
    && (forall i: nat :: a <= i < |w.added| ==> Holds(w.files, i))
  }

  ghost predicate Holds(files: map<nat, nat>, i: nat) {
    exists n :: n in files && files[n] == i
  }

  /** Those before it have arrived, are on their way, or were dropped. */
  ghost predicate Accounted(w: World, a: nat) {
    forall i: nat :: i < a ==> i in w.log || i in w.onWay || i in w.dropped
  }

  predicate Rising(s: seq<nat>) {
    forall i, j :: 0 <= i < j < |s| ==> s[i] <= s[j]
  }

  /** Arrivals and what is still on its way are in the order added, and come before what waits. */
  ghost predicate Ordered(w: World, a: nat) {
    && Rising(w.log + w.onWay)
    && (forall i :: i in w.log || i in w.onWay ==> i <= a)
    && (forall i :: i in w.log ==> i < |w.added|)
    && (forall i :: i in w.onWay ==> i < a)
  }

  /** Numbers are below the next one, and too few to reach thirteen digits. */
  ghost predicate NumbersBounded(w: World) {
    && w.next <= |w.added| + 1
    && (forall n :: n in w.files ==> n <= |w.added|)
    && (w.running ==> forall n :: n in w.files ==> n < w.next)
  }

  /** What is being sent is the first of those waiting, and with it the log ends once it has arrived. */
  ghost predicate SendingFirst(w: World, a: nat) {
    && (!w.running ==> w.sending.None? && w.session.Down?)
    && (w.sending.Some? ==>
          && w.sending.value.file in w.files && w.files[w.sending.value.file] == a
          && (w.sending.value.arrived ==> w.onWay == [] && a in w.log))
  }

  ghost predicate Inv(w: World, a: nat, acked: bool) {
    && WaitingFrom(w, a) && Accounted(w, a) && Ordered(w, a) && NumbersBounded(w) && SendingFirst(w, a)
    && (acked ==> w.session != Up(false) && w.onWay == [] && w.dropped == {})
  }

  /** Below the limit of the names, the first file by name is the first added. */
  lemma OldestIsFirst(w: World, a: nat, n: nat)
    requires WaitingFrom(w, a) && IsOldest(w.files, n)
    requires forall k :: k in w.files ==> k < S.NAME_LIMIT
    ensures w.files[n] == a
  {
    hide Below, S.Name;
    assert Holds(w.files, a);
    var k :| k in w.files && w.files[k] == a;
    if k < n {
      S.NamesInOrder(k, n);
      BelowIsTotal(S.Name(k), S.Name(n));
    }
  }

  lemma AddKeeps(w: World, a: nat, acked: bool, bytes: seq<int>, w': World)
    requires Inv(w, a, acked) && Next(w, Add(bytes), w')
    ensures Inv(w', a, acked)
  {
    hide Rising;
    forall i: nat | a <= i < |w'.added| ensures Holds(w'.files, i) {
      if i < |w.added| {
        assert Holds(w.files, i);
        var n :| n in w.files && w.files[n] == i;
        assert w'.files[n] == i;
      } else {
        assert w'.files[w.next] == i;
      }
    }
  }

  /** Deleting the file of the first bundle waiting leaves the later ones. */
  lemma DeleteKeepsWaiting(w: World, a: nat, w': World)
    requires WaitingFrom(w, a) && SendingFirst(w, a) && w.sending.Some?
    requires w'.files == w.files - {w.sending.value.file} && w'.added == w.added
    ensures WaitingFrom(w', a + 1)
  {
    var f := w.sending.value.file;
    forall n | n in w'.files ensures a + 1 <= w'.files[n] {
      assert n < f || f < n;
    }
    forall i: nat | a + 1 <= i < |w'.added| ensures Holds(w'.files, i) {
      assert Holds(w.files, i);
      var n :| n in w.files && w.files[n] == i;
      assert n in w'.files && w'.files[n] == i;
    }
  }

  lemma ResolveKeeps(w: World, a: nat, acked: bool, w': World)
    requires Inv(w, a, acked) && Next(w, Resolve, w')
    ensures Inv(w', a + 1, acked)
  {
    hide WaitingFrom, Rising;
    DeleteKeepsWaiting(w, a, w');
  }

  lemma HandOverKeeps(w: World, a: nat, acked: bool, w': World)
    requires Inv(w, a, acked) && Next(w, HandOver, w')
    ensures Inv(w', a + 1, acked)
  {
    hide WaitingFrom;
    DeleteKeepsWaiting(w, a, w');
    assert a in w'.onWay;
    RisingMore(w.log + w.onWay, a);
    assert w'.log + w'.onWay == (w.log + w.onWay) + [a];
  }

  lemma RisingMore(s: seq<nat>, a: nat)
    requires Rising(s) && forall i :: i in s ==> i <= a
    ensures Rising(s + [a])
  {
    forall i | 0 <= i < |s| ensures s[i] <= a {
      assert s[i] in s;
    }
  }

  lemma ArriveKeeps(w: World, a: nat, acked: bool, w': World)
    requires Inv(w, a, acked) && Next(w, Arrive, w')
    ensures Inv(w', a, acked)
  {
    assert w.log + [] == w.log;
    RisingMore(w.log, a);
    assert w'.log + [] == w'.log == w.log + [a];
  }

  lemma ArriveLateKeeps(w: World, a: nat, acked: bool, w': World)
    requires Inv(w, a, acked) && Next(w, ArriveLate, w')
    ensures Inv(w', a, acked)
  {
    hide Rising;
    var first := w.onWay[0];
    assert first in w.onWay;
    assert w'.log + w'.onWay == w.log + w.onWay;
    forall i ensures i in w.onWay <==> i == first || i in w'.onWay {
      assert w.onWay == [first] + w'.onWay;
    }
    forall i ensures i in w'.log <==> i == first || i in w.log {
    }
  }

  lemma StartKeeps(w: World, a: nat, acked: bool, w': World)
    requires Inv(w, a, acked) && Next(w, Start, w')
    ensures Inv(w', a, acked)
  {
    hide Rising;
  }

  lemma ConnectKeeps(w: World, a: nat, acked: bool, acks: bool, w': World)
    requires Inv(w, a, acked) && Next(w, Connect(acks), w') && Allowed(Connect(acks), acked)
    ensures Inv(w', a, acked)
  {
    hide Rising;
  }

  lemma DisconnectKeeps(w: World, a: nat, acked: bool, step: Step, w': World)
    requires Inv(w, a, acked) && Next(w, step, w')
    requires step.Fail? || step.LinkDrop? || step.Crash?
    ensures Inv(w', a, acked)
  {
    assert forall i, j :: 0 <= i < j < |w.log| ==> w.log[i] == (w.log + w.onWay)[i] && w.log[j] == (w.log + w.onWay)[j];
    assert w.log + [] == w.log;
  }

  lemma PickKeeps(w: World, a: nat, acked: bool, w': World)
    requires Inv(w, a, acked) && Next(w, Pick, w') && |w.added| < S.NAME_LIMIT
    ensures Inv(w', a, acked)
  {
    hide Rising, IsOldest;
    OldestIsFirst(w, a, w'.sending.value.file);
    assert w'.sending.value.file in w.files by { OldestIsThere(w.files, w'.sending.value.file); }
  }

  lemma OldestIsThere(files: map<nat, nat>, n: nat)
    requires IsOldest(files, n)
    ensures n in files
  {
    hide Below, S.Name;
  }

  lemma StepKeeps(w: World, a: nat, acked: bool, step: Step, w': World) returns (a': nat)
    requires Inv(w, a, acked) && Next(w, step, w') && Allowed(step, acked) && |w.added| < S.NAME_LIMIT
    ensures Inv(w', a', acked)
  {
    hide Inv, Next, Allowed;
    a' := a;
    match step
    case Start => StartKeeps(w, a, acked, w');
    case Add(bytes) => AddKeeps(w, a, acked, bytes, w');
    case Connect(acks) => ConnectKeeps(w, a, acked, acks, w');
    case Pick => PickKeeps(w, a, acked, w');
    case Arrive => ArriveKeeps(w, a, acked, w');
    case Resolve => ResolveKeeps(w, a, acked, w'); a' := a + 1;
    case HandOver => HandOverKeeps(w, a, acked, w'); a' := a + 1;
    case ArriveLate => ArriveLateKeeps(w, a, acked, w');
    case _ => DisconnectKeeps(w, a, acked, step, w');
  }

  lemma {:induction false} RunKeeps(ws: seq<World>, acked: bool) returns (a: nat)
    requires IsRun(ws, acked) && |ws[|ws| - 1].added| < S.NAME_LIMIT
    ensures Inv(ws[|ws| - 1], a, acked)
    decreases |ws|
  {
    hide Inv, Allowed;
    if |ws| == 1 {
      a := 0;
      EmptyInv(acked);
    } else {
      var before, w, w' := ws[..|ws| - 1], ws[|ws| - 2], ws[|ws| - 1];
      assert CanStep(ws[|ws| - 2], ws[|ws| - 2 + 1], acked);
      var step :| Next(w, step, w') && Allowed(step, acked);
      AddedOnlyGrows(w, step, w');
      a := RunKeeps(before, acked);
      a := StepKeeps(w, a, acked, step, w');
    }
  }

  lemma EmptyInv(acked: bool)
    ensures Inv(Empty, 0, acked)
  {
  }

  lemma AddedOnlyGrows(w: World, step: Step, w': World)
    requires Next(w, step, w')
    ensures w.added <= w'.added
  {
  }

  // ---- What every run guarantees --------------------------------------------------------------------------

  /** Conservation, whatever the sessions: every bundle added is in the spool, was delivered, is on its
      way, or was on its way when a session ended; and bundles arrive in the order added, with only
      immediate repeats. */
  lemma OnlySessionsLoseBundles(ws: seq<World>, acked: bool)
    requires IsRun(ws, acked) && |ws[|ws| - 1].added| < S.NAME_LIMIT
    ensures var w := ws[|ws| - 1];
            && Rising(w.log) && (forall i :: i in w.log ==> i < |w.added|)
            && (forall i: nat :: i < |w.added| ==> Holds(w.files, i) || i in w.log || i in w.onWay || i in w.dropped)
  {
    var a := RunKeeps(ws, acked);
    var w := ws[|ws| - 1];
    assert forall i, j :: 0 <= i < j < |w.log| ==> w.log[i] == (w.log + w.onWay)[i] && w.log[j] == (w.log + w.onWay)[j];
  }

  /** Arrivals in the order added, with nothing skipped and only immediate repeats. */
  ghost predicate InOrder(log: seq<nat>) {
    && (log != [] ==> log[0] == 0)
    && forall i :: 0 < i < |log| ==> log[i] == log[i - 1] || log[i] == log[i - 1] + 1
  }

  lemma NothingSkipped(log: seq<nat>, a: nat)
    requires Rising(log) && (forall i: nat :: i < a ==> i in log) && (forall i :: i in log ==> i <= a)
    ensures InOrder(log)
  {
    if log != [] {
      assert log[0] in log;
      if a > 0 { assert 0 in log; }
    }
    forall i | 0 < i < |log| ensures log[i] == log[i - 1] || log[i] == log[i - 1] + 1 {
      var next := log[i - 1] + 1;
      assert log[i] in log;
      if next < a {
        assert next in log;
        var k :| 0 <= k < |log| && log[k] == next;
        assert i - 1 <= k;
      }
    }
  }

  /** Main result: over any run of adds, link drops, send failures, crashes and restarts whose sessions
      acknowledge, with fewer than 10^12 bundles added, every bundle added is in the spool or was
      delivered, and the peer's log is the added sequence in order with only immediate repeats. */
  lemma NothingIsLost(ws: seq<World>)
    requires IsRun(ws, true) && |ws[|ws| - 1].added| < S.NAME_LIMIT
    ensures var w := ws[|ws| - 1];
            && InOrder(w.log)
            && (forall i :: i in w.log ==> i < |w.added|)
            && (forall i: nat :: i < |w.added| ==> Holds(w.files, i) || i in w.log)
  {
    hide Rising, InOrder;
    var a := RunKeeps(ws, true);
    var w := ws[|ws| - 1];
    assert w.log + [] == w.log;
    NothingSkipped(w.log, a);
  }

  /** Waiting, delivered or still on its way. */
  ghost predicate AllKept(w: World) {
    forall i: nat :: i < |w.added| ==> Holds(w.files, i) || i in w.log || i in w.onWay
  }

  /** Main result: the exact condition. No run loses a bundle exactly when every session acknowledges;
      the gateway takes version 3 sessions that do not. */
  lemma NothingIsLostIffAcknowledged(acked: bool)
    ensures (forall ws: seq<World> :: IsRun(ws, acked) && |ws[|ws| - 1].added| < S.NAME_LIMIT ==> AllKept(ws[|ws| - 1])) <==> acked
  {
    hide CanStep, AllKept;
    if acked {
      forall ws: seq<World> | IsRun(ws, acked) && |ws[|ws| - 1].added| < S.NAME_LIMIT ensures AllKept(ws[|ws| - 1]) {
        KeptWhenAcknowledged(ws);
      }
    } else {
      hide LosingRun;
      LosingRunIsRun();
      LosingRunLoses();
      var ws := LosingRun();
      assert IsRun(ws, false) && !AllKept(ws[|ws| - 1]);
    }
  }

  lemma KeptWhenAcknowledged(ws: seq<World>)
    requires IsRun(ws, true) && |ws[|ws| - 1].added| < S.NAME_LIMIT
    ensures AllKept(ws[|ws| - 1])
  {
    hide IsRun, InOrder;
    NothingIsLost(ws);
  }

  /** One bundle spooled and sent without acknowledgement; the send resolves, the file is deleted, and
      the link drops before the octets arrive. */
  function LosingRun(): (ws: seq<World>)
    ensures |ws| == 7
  {
    var w1 := Empty.(running := true);
    var w2 := w1.(files := map[1 := 0], next := 2, added := [[]]);
    var w3 := w2.(session := Up(false));
    var w4 := w3.(sending := Some(Sending(1, false)));
    var w5 := w4.(files := map[], sending := None, onWay := [0]);
    [Empty, w1, w2, w3, w4, w5, Disconnected(w5)]
  }

  lemma LosingRunIsRun()
    ensures IsRun(LosingRun(), false)
  {
    var ws := LosingRun();
    assert Next(ws[0], Start, ws[1]);
    assert Next(ws[1], Add([]), ws[2]);
    assert Next(ws[2], Connect(false), ws[3]);
    assert IsOldest(ws[3].files, 1);
    assert Next(ws[3], Pick, ws[4]);
    assert ws[4].files - {1} == map[];
    assert Next(ws[4], HandOver, ws[5]);
    assert Next(ws[5], LinkDrop, ws[6]);
    forall i | 0 <= i < 6 ensures CanStep(ws[i], ws[i + 1], false) {
      hide Next, IsOldest;
    }
  }

  lemma LosingRunLoses()
    ensures LosingRun()[6].added == [[]] && !AllKept(LosingRun()[6])
  {
    assert !Holds(LosingRun()[6].files, 0);
  }
}
