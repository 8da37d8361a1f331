/**
 The gateway's sender over sessions of octets that acknowledge, of either version, reconnects and restarts
 included. Every run of it is a run of GatewayPump, so no bundle is lost down to the octets.
 */
module GatewayRuns {
  import opened Wrappers
  import opened Bytes
  import opened GatewayPump
  import opened GatewaySends
  import S = Spool
  import L = Tcpcl4Octets
  import V3 = Tcpcl3Link
  import Settling = Tcpcl3Settles

  // ---- A connection --------------------------------------------------------------------------------------

  /** The limits of the two ends and what has happened since the session was established. */
  datatype Connection =
    | Four(segA: nat, xferA: nat, segB: nat, xferB: nat, es: seq<L.Event>)
    | Three(segA: nat, xferA: nat, segB: nat, xferB: nat, happened: seq<V3.Event>)

  /** Limits that can be announced. */
  predicate Sized(c: Connection) {
    match c
    case Four(_, xferA, _, xferB, _) => xferA < TWO_64 && xferB < TWO_64
    case Three(segA, xferA, segB, xferB, _) => V3.Fits(V3.NewLink(segA, xferA, segB, xferB))
  }

  function FourNow(c: Connection): L.Link
    requires c.Four?
  {
    L.Run(L.NewLink(c.segA, c.xferA, c.segB, c.xferB), c.es)
  }

  function ThreeNow(c: Connection): V3.Link
    requires c.Three? && Sized(c)
  {
    V3.Run(V3.NewLink(c.segA, c.xferA, c.segB, c.xferB), c.happened)
  }

  /** The bundles whose sends have begun, and those the peer has emitted. */
  function Begun(c: Connection): seq<seq<byte>>
    requires Sized(c)
  {
    if c.Four? then FourNow(c).a.sent else ThreeNow(c).a.begun
  }

  function Emitted(c: Connection): seq<seq<byte>>
    requires Sized(c)
  {
    if c.Four? then FourNow(c).b.emitted else ThreeNow(c).b.emitted
  }

  /** Whether the last send's bundle has come, and whether the send has resolved. */
  predicate Come(c: Connection)
    requires Sized(c)
  {
    if c.Four? then |FourNow(c).b.emitted| == |FourNow(c).a.sent| else |ThreeNow(c).b.emitted| == ThreeNow(c).a.before + 1
  }

  predicate Settled(c: Connection)
    requires Sized(c)
  {
    if c.Four? then SendingOf(FourNow(c), 0).None? else SendingOverV3(ThreeNow(c), 0).None?
  }

  /** Whether the session would start a send, and the connection once it has. */
  predicate Accepts(c: Connection, bundle: seq<byte>)
    requires Sized(c)
  {
    if c.Four? then L.Starts(FourNow(c).a.s, bundle) else V3.Starts(ThreeNow(c).a, V3.Begin(bundle))
  }

  function WithSend(c: Connection, bundle: seq<byte>): Connection {
    if c.Four? then c.(es := c.es + [L.AtA(L.Send(bundle))]) else c.(happened := c.happened + [V3.AtA(V3.Begin(bundle))])
  }

  /** Anything else that can happen on it. */
  predicate Follows(c: Connection, c': Connection) {
    if c.Four? then c'.Four? && c'.es != [] && !(c'.es[|c'.es| - 1].AtA? && c'.es[|c'.es| - 1].step.Send?) && c == c'.(es := c'.es[..|c'.es| - 1])
    else c'.Three? && c'.happened != [] && !(c'.happened[|c'.happened| - 1].AtA? && c'.happened[|c'.happened| - 1].step.Begin?)
         && c == c'.(happened := c'.happened[..|c'.happened| - 1])
  }

  /** Used by the pump: one send at a time, and none after one has failed. */
  ghost predicate InUse(c: Connection) {
    && Sized(c)
    && if c.Four? then OneAtATime(FourNow(c))
       else V3.PatientRun(V3.NewLink(c.segA, c.xferA, c.segB, c.xferB), c.happened) && Fresh(ThreeNow(c).a)
  }

  lemma NewConnection(c: Connection)
    requires Sized(c) && if c.Four? then c.es == [] else c.happened == []
    ensures InUse(c) && Begun(c) == [] && Emitted(c) == [] && Settled(c)
  {
  }

  lemma SendOnFour(c: Connection, bundle: seq<byte>)
    requires c.Four? && InUse(c) && Settled(c) && Accepts(c, bundle)
    ensures var c' := WithSend(c, bundle);
            InUse(c') && Begun(c') == Begun(c) + [bundle] && Emitted(c') == Emitted(c) && !Settled(c') && !Come(c')
  {
    hide L.Run, L.NewLink, L.Next, L.Starts, OneAtATime;
    var start, e := L.NewLink(c.segA, c.xferA, c.segB, c.xferB), L.AtA(L.Send(bundle));
    SendIsPick(c.segA, c.xferA, c.segB, c.xferB, c.es, bundle, 0);
    SendBegins(FourNow(c), bundle);
    RunGoesOn(start, c.es, e);
  }

  lemma SendOnThree(c: Connection, bundle: seq<byte>)
    requires c.Three? && InUse(c) && Settled(c) && Accepts(c, bundle)
    ensures var c' := WithSend(c, bundle);
            InUse(c') && Begun(c') == Begun(c) + [bundle] && Emitted(c') == Emitted(c) && !Settled(c') && !Come(c')
  {
    hide V3.Run, V3.NewLink, V3.Next, V3.Starts, Fresh, V3.PatientRun;
    V3SendIsPick(c.segA, c.xferA, c.segB, c.xferB, c.happened, bundle, 0);
  }

  lemma Sends(c: Connection, bundle: seq<byte>)
    requires InUse(c) && Settled(c) && Accepts(c, bundle)
    ensures var c' := WithSend(c, bundle);
            InUse(c') && Begun(c') == Begun(c) + [bundle] && Emitted(c') == Emitted(c) && !Settled(c') && !Come(c')
  {
    if c.Four? { SendOnFour(c, bundle); } else { SendOnThree(c, bundle); }
  }

  /** The bundle of the send under way arrives; or nothing the pump would notice but that it resolves. */
  ghost predicate Goes(c: Connection, c': Connection) {
    && InUse(c) && InUse(c') && Begun(c') == Begun(c)
    && ((Emitted(c') == Emitted(c) && Come(c') == Come(c))
        || (Begun(c) != [] && !Settled(c) && !Come(c) && Come(c') && Emitted(c') == Emitted(c) + [Begun(c)[|Begun(c)| - 1]]))
    && (Settled(c) ==> Settled(c'))
  }

  lemma OnlySendsSend(l: L.Link, e: L.Event)
    requires !(e.AtA? && e.step.Send?)
    ensures L.Next(l, e).a.sent == l.a.sent
  {
  }

  lemma StaysOneAtATime(l: L.Link, l': L.Link)
    requires OneAtATime(l) && l'.a.sent == l.a.sent && l.a.resolved <= l'.a.resolved
    ensures OneAtATime(l')
  {
  }

  lemma FourGoes(c: Connection, c': Connection)
    requires c.Four? && InUse(c) && Follows(c, c')
    ensures Goes(c, c')
  {
    hide L.Run, L.NewLink, L.Next, OneAtATime;
    var start, e := L.NewLink(c.segA, c.xferA, c.segB, c.xferB), c'.es[|c'.es| - 1];
    assert c'.es == c.es + [e];
    RunGoesOn(start, c.es, e);
    OnlySendsSend(FourNow(c), e);
    OneEndAtATime(FourNow(c), e);
    StaysOneAtATime(FourNow(c), FourNow(c'));
    SendIsArriveThenAck(c.segA, c.xferA, c.segB, c.xferB, c.es, e, 0);
  }

  lemma ThreeGoes(c: Connection, c': Connection)
    requires c.Three? && InUse(c) && Follows(c, c')
    ensures Goes(c, c')
  {
    hide V3.Run, V3.NewLink, V3.Next, Fresh, V3.PatientRun;
    var start, e := V3.NewLink(c.segA, c.xferA, c.segB, c.xferB), c'.happened[|c'.happened| - 1];
    assert c'.happened == c.happened + [e];
    RunGoesOnOverV3(start, c.happened, e);
    NextOfV3(ThreeNow(c), e);
    StaysFresh(ThreeNow(c), e);
    V3SendIsArriveThenAck(c.segA, c.xferA, c.segB, c.xferB, c.happened, e, 0);
  }

  /** A settled send's bundle has come. */
  lemma SettledHasCome(c: Connection)
    requires InUse(c) && Settled(c) && Begun(c) != []
    ensures Come(c)
  {
    hide L.Run, L.NewLink, V3.Run, V3.NewLink, Fresh, V3.PatientRun;
    if c.Four? { RunIsTruthful(c.segA, c.xferA, c.segB, c.xferB, c.es); }
    else { RunIsTruthfulOverV3(c.segA, c.xferA, c.segB, c.xferB, c.happened); }
  }

  /** Nothing is on its way either way, and the connection is up and has not been cut. */
  predicate Quiet(c: Connection)
    requires Sized(c)
  {
    if c.Four? then L.Idle(FourNow(c).a) && L.Idle(FourNow(c).b) else Settling.Idle(ThreeNow(c).a) && Settling.Idle(ThreeNow(c).b)
  }

  /** The last send has timed out, or was of a bundle that version 3 never acknowledges: empty, or too large. */
  predicate Failed(c: Connection)
    requires Sized(c) && Begun(c) != []
  {
    if c.Four? then |Begun(c)| - 1 in L.GaveUp(c.es, true)
    else ThreeNow(c).a.late || !Settling.Welcome(Begun(c)[|Begun(c)| - 1], ThreeNow(c).b)
  }

  /** Main result: the pump is not left waiting. Once nothing is on its way, the send it awaits has resolved or
      failed. */
  lemma QuietSendHasSettled(c: Connection)
    requires InUse(c) && Begun(c) != [] && Quiet(c)
    ensures Settled(c) || Failed(c)
  {
    hide L.Run, L.NewLink, V3.Run, V3.NewLink, V3.PatientRun, OneAtATime, Fresh, L.Idle, Settling.Idle, L.GaveUp, Settling.Welcome;
    if c.Four? { L.IdleSendsHaveResolved(c.segA, c.xferA, c.segB, c.xferB, c.es); }
    else { Settling.IdleSendsHaveResolved(c.segA, c.xferA, c.segB, c.xferB, c.happened); }
  }

  // ---- The gateway ----------------------------------------------------------------------------------------

  /** The spool's files by number, the next number, whether the process runs, the connection, the file
      whose send is awaited, the bundles added, and those emitted by the peer over earlier connections. */
  datatype Gateway = Gateway(
    files: map<nat, nat>, next: nat, running: bool, connection: Option<Connection>, file: Option<nat>,
    added: seq<seq<byte>>, earlier: seq<seq<byte>>)

  const New := Gateway(map[], 1, false, None, None, [], [])

  /** All that the peer has emitted, in order. */
  function Log(g: Gateway): seq<seq<byte>>
    requires g.connection.Some? ==> Sized(g.connection.value)
  {
    g.earlier + if g.connection.Some? then Emitted(g.connection.value) else []
  }

  function Ended(g: Gateway): Gateway
    requires g.connection.Some? ==> Sized(g.connection.value)
  {
    g.(connection := None, file := None, earlier := Log(g))
  }

  datatype Act =
    | Starts                    // the process starts and reads its spool directory
    | Adds(bytes: seq<byte>)    // a bundle is wrapped and spooled
    | Connects(c: Connection)
    | Picks(file: nat)          // the oldest file is read and sent; a session that refuses it is torn down
    | Happens(c: Connection)    // something happens on the connection
    | Deletes                   // the send has resolved, and its file is deleted
    | Fails                     // it is rejected, or has timed out: the session is torn down
    | Drops
    | Crashes

  ghost predicate Acts(g: Gateway, act: Act, g': Gateway) {
    && (g.connection.Some? ==> Sized(g.connection.value))
    && match act
       case Starts => !g.running && IsNextNumber(g.files, g'.next) && g' == g.(running := true, next := g'.next)
       case Adds(bytes) =>
         g.running && g' == g.(files := g.files[g.next := |g.added|], next := g.next + 1, added := g.added + [bytes])
       case Connects(c) =>
         g.running && g.connection.None? && Sized(c) && (if c.Four? then c.es == [] else c.happened == []) && g' == g.(connection := Some(c))
       case Picks(file) =>
         && g.running && g.connection.Some? && g.file.None? && IsOldest(g.files, file) && g.files[file] < |g.added|
         && (if Accepts(g.connection.value, g.added[g.files[file]])
             then g' == g.(connection := Some(WithSend(g.connection.value, g.added[g.files[file]])), file := Some(file))
             else g' == Ended(g))
       case Happens(c) => g.connection.Some? && Follows(g.connection.value, c) && g' == g.(connection := Some(c))
       case Deletes =>
         && g.running && g.connection.Some? && g.file.Some? && Settled(g.connection.value)
         && g' == g.(files := g.files - {g.file.value}, file := None)
       case Fails => g.running && g.file.Some? && g' == Ended(g)
       case Drops => g' == Ended(g)
       case Crashes => g' == Ended(g).(running := false)
  }

  // ---- Its runs are the pump's -------------------------------------------------------------------------------

  /** The bundle whose send is awaited is the last begun, read from its file. */
  ghost predicate Steady(g: Gateway) {
    && (g.running ==> forall n :: n in g.files ==> n < g.next)
    && (forall n :: n in g.files ==> g.files[n] < |g.added|)
    && (g.connection.None? || !g.running ==> g.file.None? && g.connection.None?)
    && (g.connection.Some? ==> InUse(g.connection.value) && SendingFile(g, g.connection.value))
  }

  ghost predicate SendingFile(g: Gateway, c: Connection)
    requires Sized(c)
  {
    match g.file
    case None => Settled(c)
    case Some(n) =>
      && n in g.files && g.files[n] < |g.added|
      && Begun(c) != [] && Begun(c)[|Begun(c)| - 1] == g.added[g.files[n]]
  }

  /** The peer's log by index. */
  predicate Indexes(log: seq<nat>, bundles: seq<seq<byte>>, added: seq<seq<byte>>) {
    |log| == |bundles| && forall i :: 0 <= i < |log| ==> log[i] < |added| && bundles[i] == added[log[i]]
  }

  ghost predicate Matches(g: Gateway, w: World) {
    && (g.connection.Some? ==> Sized(g.connection.value))
    && w.files == g.files && w.next == g.next && w.running == g.running && w.added == g.added && w.onWay == [] && w.dropped == {}
    && w.session == (if g.connection.Some? then Up(true) else Down)
    && w.sending == (if g.file.Some? && g.connection.Some? then Some(Sending(g.file.value, Come(g.connection.value))) else None)
    && Indexes(w.log, Log(g), g.added)
  }

  ghost predicate PumpRun(ws: seq<World>, g: Gateway) {
    IsRun(ws, true) && Matches(g, ws[|ws| - 1])
  }

  lemma OneMore(ws: seq<World>, step: Step, w: World)
    requires IsRun(ws, true) && GatewayPump.Next(ws[|ws| - 1], step, w) && Allowed(step, true)
    ensures IsRun(ws + [w], true)
  {
    hide GatewayPump.Next, Allowed;
    var more := ws + [w];
    forall i | 0 <= i < |more| - 1 ensures CanStep(more[i], more[i + 1], true) {
      if i < |ws| - 1 {
        assert more[i] == ws[i] && more[i + 1] == ws[i + 1];
        assert CanStep(ws[i], ws[i + 1], true);
      }
    }
  }

  lemma HasBegun(ws: seq<World>)
    requires IsRun(ws, true)
    ensures ws != []
  {
  }

  /** A step of the pump that leads where the gateway has gone. */
  lemma OneStep(g': Gateway, ws: seq<World>, step: Step, w': World) returns (ws': seq<World>)
    requires IsRun(ws, true) && GatewayPump.Next(ws[|ws| - 1], step, w') && Allowed(step, true) && Matches(g', w')
    ensures PumpRun(ws', g')
  {
    hide GatewayPump.Next, Allowed, Matches;
    OneMore(ws, step, w');
    ws' := ws + [w'];
  }

  lemma IndexesMore(log: seq<nat>, bundles: seq<seq<byte>>, added: seq<seq<byte>>, i: nat)
    requires Indexes(log, bundles, added) && i < |added|
    ensures Indexes(log + [i], bundles + [added[i]], added)
  {
  }

  /** The session ends. */
  lemma EndsMatch(g: Gateway, w: World)
    requires Matches(g, w) && Steady(g)
    ensures Steady(Ended(g)) && Matches(Ended(g), Disconnected(w))
  {
    hide Settled, Emitted, Come, InUse, SendingFile;
    assert w.dropped + (set i | i in w.onWay) == {};
    assert Log(Ended(g)) == Log(g);
  }

  /** The world once the pump has picked a file. */
  function Picked(w: World, file: nat): World {
    w.(sending := Some(Sending(file, false)))
  }

  lemma AcceptedMatches(g: Gateway, c: Connection, c': Connection, file: nat, w: World)
    requires Matches(g, w) && g.connection == Some(c) && g.file.None?
    requires Sized(c') && Emitted(c') == Emitted(c) && !Come(c')
    ensures Matches(g.(connection := Some(c'), file := Some(file)), Picked(w, file))
  {
    hide Emitted, Come, Indexes;
  }

  lemma AcceptedSteady(g: Gateway, c: Connection, c': Connection, file: nat)
    requires Steady(g) && g.connection == Some(c) && file in g.files && g.running && g.files[file] < |g.added|
    requires InUse(c') && Begun(c') == Begun(c) + [g.added[g.files[file]]]
    ensures Steady(g.(connection := Some(c'), file := Some(file)))
  {
    UsedIsSized(c');
    hide Emitted, Come, InUse, Settled, Begun;
  }

  lemma PickIsPick(g: Gateway, file: nat, w: World)
    requires Matches(g, w) && g.connection.Some? && g.running && g.file.None? && IsOldest(g.files, file)
    ensures GatewayPump.Next(w, Pick, Picked(w, file))
  {
    hide IsOldest, Settled, Emitted, Come, InUse, Begun, Indexes;
  }

  lemma PicksRun(g: Gateway, file: nat, g': Gateway, ws: seq<World>) returns (ws': seq<World>)
    requires PumpRun(ws, g) && Steady(g) && Acts(g, Picks(file), g')
    ensures PumpRun(ws', g') && Steady(g')
  {
    HasBegun(ws);
    OldestIsThere(g.files, file);
    hide IsRun, IsOldest, Accepts, Matches, Steady, Log, WithSend, Emitted, Come, InUse, Settled, Begun, GatewayPump.Next, Picked;
    var w := ws[|ws| - 1];
    PickIsPick(g, file, w);
    OneMore(ws, Pick, Picked(w, file));
    if Accepts(g.connection.value, g.added[g.files[file]]) {
      var c := g.connection.value;
      var c' := WithSend(c, g.added[g.files[file]]);
      assert InUse(c) && Settled(c) by { IdleIsSettled(g, c); }
      Sends(c, g.added[g.files[file]]);
      UsedIsSized(c');
      AcceptedMatches(g, c, c', file, w);
      AcceptedSteady(g, c, c', file);
      ws' := ws + [Picked(w, file)];
    } else {
      EndsMatch(g, w);
      FailsThen(w, file);
      ws' := OneStep(g', ws + [Picked(w, file)], Step.Fail, Disconnected(w));
    }
  }

  lemma IdleIsSettled(g: Gateway, c: Connection)
    requires Steady(g) && g.connection == Some(c) && g.file.None?
    ensures InUse(c) && Settled(c)
  {
    hide InUse, Settled, Begun;
  }

  lemma FailsThen(w: World, file: nat)
    requires GatewayPump.Next(w, Pick, Picked(w, file))
    ensures GatewayPump.Next(Picked(w, file), Step.Fail, Disconnected(w))
  {
    hide IsOldest;
  }

  lemma SteadyFollows(g: Gateway, c: Connection, c': Connection)
    requires Steady(g) && g.connection == Some(c) && Goes(c, c')
    ensures Steady(g.(connection := Some(c')))
  {
    hide Settled, Emitted, Come, InUse, Begun;
    assert Sized(c') by { UsedIsSized(c'); }
  }

  lemma UsedIsSized(c: Connection)
    requires InUse(c)
    ensures Sized(c)
  {
  }

  lemma StillMatches(g: Gateway, c: Connection, c': Connection, w: World)
    requires Matches(g, w) && g.connection == Some(c) && Sized(c') && Emitted(c') == Emitted(c) && Come(c') == Come(c)
    ensures Matches(g.(connection := Some(c')), w)
  {
    hide Emitted, Come, Indexes;
  }

  /** The world once the bundle being sent has arrived. */
  function Arrived(w: World, file: nat): World
    requires file in w.files
  {
    w.(sending := Some(Sending(file, true)), log := w.log + [w.files[file]])
  }

  lemma ArrivedMatches(g: Gateway, c: Connection, c': Connection, file: nat, w: World)
    requires Matches(g, w) && g.connection == Some(c) && g.file == Some(file) && file in g.files && g.files[file] < |g.added|
    requires Sized(c') && !Come(c) && Come(c') && Emitted(c') == Emitted(c) + [g.added[g.files[file]]]
    ensures GatewayPump.Next(w, Step.Arrive, Arrived(w, file)) && Matches(g.(connection := Some(c')), Arrived(w, file))
  {
    hide Emitted, Come, Indexes;
    IndexesMore(w.log, Log(g), g.added, g.files[file]);
    assert Log(g.(connection := Some(c'))) == Log(g) + [g.added[g.files[file]]];
  }

  lemma FollowsRun(g: Gateway, c: Connection, c': Connection, g': Gateway, ws: seq<World>) returns (ws': seq<World>)
    requires PumpRun(ws, g) && Steady(g) && g.connection == Some(c) && Follows(c, c') && g' == g.(connection := Some(c'))
    ensures PumpRun(ws', g') && Steady(g')
  {
    HasBegun(ws);
    assert InUse(c) && SendingFile(g, c);
    hide IsRun, Follows, Settled, Emitted, Come, InUse, Begun, Matches, Steady, GatewayPump.Next, Arrived;
    var w := ws[|ws| - 1];
    if c.Four? { FourGoes(c, c'); } else { ThreeGoes(c, c'); }
    UsedIsSized(c');
    SteadyFollows(g, c, c');
    if Emitted(c') == Emitted(c) {
      LogGrew(Emitted(c), Begun(c));
      StillMatches(g, c, c', w);
      ws' := ws;
    } else {
      assert g.file.Some?;
      var file := g.file.value;
      ArrivedMatches(g, c, c', file, w);
      assert file in w.files by { SameFiles(g, w); }
      ws' := OneStep(g', ws, Step.Arrive, Arrived(w, file));
    }
  }

  lemma SameFiles(g: Gateway, w: World)
    requires Matches(g, w)
    ensures w.files == g.files
  {
    hide Emitted, Come, Indexes;
  }

  lemma LogGrew(x: seq<seq<byte>>, y: seq<seq<byte>>)
    ensures y != [] ==> x != x + [y[|y| - 1]]
  {
    if y != [] { assert |x + [y[|y| - 1]]| == |x| + 1; }
  }

  lemma DeletesRun(g: Gateway, g': Gateway, ws: seq<World>) returns (ws': seq<World>)
    requires PumpRun(ws, g) && Steady(g) && Acts(g, Deletes, g')
    ensures PumpRun(ws', g') && Steady(g')
  {
    HasBegun(ws);
    hide IsRun, Settled, Emitted, Come, InUse, Begun, Indexes;
    SettledHasCome(g.connection.value);
    var w := ws[|ws| - 1];
    ws' := OneStep(g', ws, Step.Resolve, w.(files := g'.files, sending := None));
  }

  lemma ConnectsRun(g: Gateway, c: Connection, g': Gateway, ws: seq<World>) returns (ws': seq<World>)
    requires PumpRun(ws, g) && Steady(g) && Acts(g, Connects(c), g')
    ensures PumpRun(ws', g') && Steady(g')
  {
    HasBegun(ws);
    NewConnection(c);
    hide IsRun, Settled, Emitted, Come, InUse, Begun, Indexes;
    var w := ws[|ws| - 1];
    assert Log(g') == Log(g);
    ws' := OneStep(g', ws, Step.Connect(true), w.(session := Up(true)));
  }

  lemma StartsRun(g: Gateway, g': Gateway, ws: seq<World>) returns (ws': seq<World>)
    requires PumpRun(ws, g) && Steady(g) && Acts(g, Starts, g')
    ensures PumpRun(ws', g') && Steady(g')
  {
    HasBegun(ws);
    hide IsRun, Settled, Emitted, Come, InUse, Begun, Indexes;
    var w := ws[|ws| - 1];
    ws' := OneStep(g', ws, Step.Start, w.(running := true, next := g'.next));
  }

  lemma IndexesOfMore(log: seq<nat>, bundles: seq<seq<byte>>, added: seq<seq<byte>>, bytes: seq<byte>)
    requires Indexes(log, bundles, added)
    ensures Indexes(log, bundles, added + [bytes])
  {
  }

  lemma AddedMatches(g: Gateway, bytes: seq<byte>, w: World)
    requires Matches(g, w) && Steady(g) && g.running
    ensures var g' := g.(files := g.files[g.next := |g.added|], next := g.next + 1, added := g.added + [bytes]);
            var w' := w.(files := g'.files, next := g'.next, added := g'.added);
            Matches(g', w') && GatewayPump.Next(w, Step.Add(bytes), w')
  {
    hide Settled, Emitted, Come, InUse, Begun, Indexes, SendingFile;
    IndexesOfMore(w.log, Log(g), g.added, bytes);
  }

  lemma AddedSteady(g: Gateway, bytes: seq<byte>)
    requires Steady(g) && g.running
    ensures Steady(g.(files := g.files[g.next := |g.added|], next := g.next + 1, added := g.added + [bytes]))
  {
    hide Settled, Emitted, Come, InUse, Begun;
  }

  lemma AddsRun(g: Gateway, bytes: seq<byte>, g': Gateway, ws: seq<World>) returns (ws': seq<World>)
    requires PumpRun(ws, g) && Steady(g) && Acts(g, Adds(bytes), g')
    ensures PumpRun(ws', g') && Steady(g')
  {
    HasBegun(ws);
    hide IsRun, Matches, Steady, GatewayPump.Next;
    var w := ws[|ws| - 1];
    AddedMatches(g, bytes, w);
    AddedSteady(g, bytes);
    ws' := OneStep(g', ws, Step.Add(bytes), w.(files := g'.files, next := g'.next, added := g'.added));
  }

  lemma EndsRun(g: Gateway, act: Act, g': Gateway, ws: seq<World>) returns (ws': seq<World>)
    requires PumpRun(ws, g) && Steady(g) && Acts(g, act, g') && (act.Fails? || act.Drops? || act.Crashes?)
    ensures PumpRun(ws', g') && Steady(g')
  {
    HasBegun(ws);
    hide IsRun, Settled, Emitted, Come, InUse, Begun, Indexes, Matches, Steady, GatewayPump.Next, Log;
    var w := ws[|ws| - 1];
    EndsMatch(g, w);
    DisconnectsNext(g, w);
    match act
    case Fails => ws' := OneStep(g', ws, Step.Fail, Disconnected(w));
    case Drops => ws' := OneStep(g', ws, Step.LinkDrop, Disconnected(w));
    case Crashes =>
      StopsMatch(Ended(g), Disconnected(w));
      ws' := OneStep(g', ws, Step.Crash, Disconnected(w).(running := false));
  }

  lemma DisconnectsNext(g: Gateway, w: World)
    requires Matches(g, w) && Steady(g)
    ensures g.running && g.file.Some? ==> GatewayPump.Next(w, Step.Fail, Disconnected(w))
    ensures GatewayPump.Next(w, Step.LinkDrop, Disconnected(w))
    ensures GatewayPump.Next(w, Step.Crash, Disconnected(w).(running := false))
  {
    hide Settled, Emitted, Come, InUse, Begun, Indexes, SendingFile, Log;
  }

  lemma StopsMatch(g: Gateway, w: World)
    requires Matches(g, w) && Steady(g) && g.connection.None? && g.file.None?
    ensures Matches(g.(running := false), w.(running := false)) && Steady(g.(running := false))
  {
    hide Emitted, Come, Indexes;
  }

  lemma ActRuns(g: Gateway, act: Act, g': Gateway, ws: seq<World>) returns (ws': seq<World>)
    requires PumpRun(ws, g) && Steady(g) && Acts(g, act, g')
    ensures PumpRun(ws', g') && Steady(g')
  {
    hide PumpRun, Steady, Follows, IsOldest, IsNextNumber, Accepts, Settled;
    match act
    case Starts => ws' := StartsRun(g, g', ws);
    case Adds(bytes) => ws' := AddsRun(g, bytes, g', ws);
    case Connects(c) => ws' := ConnectsRun(g, c, g', ws);
    case Picks(file) => ws' := PicksRun(g, file, g', ws);
    case Happens(c) => ws' := FollowsRun(g, g.connection.value, c, g', ws);
    case Deletes => ws' := DeletesRun(g, g', ws);
    case _ => ws' := EndsRun(g, act, g', ws);
  }

  // ---- What every run guarantees ---------------------------------------------------------------------------------

  ghost predicate CanAct(g: Gateway, g': Gateway) {
    exists act :: Acts(g, act, g')
  }

  /** A sequence of gateways from the new one, each reached from the one before. */
  ghost predicate IsGatewayRun(gs: seq<Gateway>) {
    && gs != [] && gs[0] == New
    && forall i :: 0 <= i < |gs| - 1 ==> CanAct(gs[i], gs[i + 1])
  }

  /** Main result: a run of the gateway over octets is, seen from its spool and the peer's log, a run of the
      pump over sessions that acknowledge. */
  lemma {:induction false} GatewayRunIsPumpRun(gs: seq<Gateway>) returns (ws: seq<World>)
    requires IsGatewayRun(gs)
    ensures PumpRun(ws, gs[|gs| - 1]) && Steady(gs[|gs| - 1])
    decreases |gs|
  {
    hide PumpRun, Steady, Acts;
    if |gs| == 1 {
      ws := [Empty];
      NewMatches();
    } else {
      ws := GatewayRunIsPumpRun(gs[..|gs| - 1]);
      assert CanAct(gs[|gs| - 2], gs[|gs| - 2 + 1]);
      var act :| Acts(gs[|gs| - 2], act, gs[|gs| - 1]);
      ws := ActRuns(gs[|gs| - 2], act, gs[|gs| - 1], ws);
    }
  }

  lemma NewMatches()
    ensures PumpRun([Empty], New) && Steady(New)
  {
  }

  /** Main result: over any run of the gateway, sessions failing at any octet, crashes and restarts included,
      with fewer than 10^12 bundles added: every bundle is in the spool or has been emitted by the peer, and
      what the peer has emitted is the bundles added, in order, with only immediate repeats. */
  lemma NothingIsLostOverOctets(gs: seq<Gateway>) returns (log: seq<nat>)
    requires IsGatewayRun(gs) && |gs[|gs| - 1].added| < S.NAME_LIMIT
    ensures var g := gs[|gs| - 1];
            && (g.connection.Some? ==> Sized(g.connection.value))
            && Indexes(log, Log(g), g.added) && InOrder(log)
            && (forall i: nat :: i < |g.added| ==> Holds(g.files, i) || i in log)
  {
    var ws := GatewayRunIsPumpRun(gs);
    HasBegun(ws);
    hide IsGatewayRun, IsRun, InOrder, Indexes, Emitted, Come, Holds;
    NothingIsLost(ws);
    log := ws[|ws| - 1].log;
  }
}
