/**
 That sends over TCPCLv3 sessions do resolve (gateway/tcpcl3.mjs): while neither direction has been cut, every
 bundle the peer takes is acknowledged in full, so once nothing is on its way no send waits that could still resolve.
 */
module Tcpcl3Settles {
  import opened Wrappers
  import opened Bytes
  import opened Framing
  import opened Tcpcl3Wire
  import opened Tcpcl3Transfer
  import opened Tcpcl3Link

  /** A bundle the peer takes; an empty one has no segments and is never acknowledged. */
  predicate Welcome(bundle: seq<byte>, t: End) {
    0 < |bundle| <= t.transferMru
  }

  predicate HasRefusal(ms: seq<Msg>) {
    exists i :: 0 <= i < |ms| && ms[i].Refuse?
  }

  /** The replies due to the send that waits: the last says all, unless some are lost, and none refuses a bundle
      that is not too large. */
  ghost predicate Served(f: End, t: End, v: View) {
    f.open && !f.late && f.current.Some? && f.begun != [] ==>
      var last, due := f.begun[|f.begun| - 1], v.rs + Pending(t, v).out;
      && f.current == Some(|last|)
      && (v.clear && v.far && Welcome(last, t) ==> SaysAll(due, |last|))
      && (HasRefusal(due) ==> |last| > t.transferMru)
  }

  /** Each send begun has resolved or was not welcome, but for one that waits or has timed out. */
  ghost predicate Stands(f: End, t: End) {
    f.open ==> forall id :: 0 <= id < |f.begun| ==>
      id in f.resolved || !Welcome(f.begun[id], t) || (id == |f.begun| - 1 && (f.current.Some? || f.late))
  }

  lemma HearsReplyServed(f: End, t: End, v: View, f': End, t': End, v': View)
    requires Orderly(f, t, v) && Served(f, t, v) && SameReceiver(t, t') && HearsReply(f, v, f', v')
    ensures Served(f', t', v')
  {
    hide TakeAll;
    var due, rest := v.rs + Pending(t, v).out, v'.rs + Pending(t', v').out;
    assert due == [v.rs[0]] + rest && due[0] == v.rs[0];
    assert forall i :: 0 <= i < |rest| ==> rest[i] == due[i + 1];
  }

  lemma HearsReplyStands(f: End, t: End, v: View, f': End, t': End, v': View)
    requires Orderly(f, t, v) && Served(f, t, v) && Stands(f, t) && SameReceiver(t, t') && HearsReply(f, v, f', v')
    ensures Stands(f', t')
  {
    hide TakeAll, Proper, SaysAll;
    var due := v.rs + Pending(t, v).out;
    assert due[0] == v.rs[0];
    if v.rs[0].Refuse? { assert HasRefusal(due); }
  }

  lemma TakesSegmentServed(f: End, t: End, v: View, f': End, t': End, v': View)
    requires Served(f, t, v) && SameSender(f, f') && TakesSegment(t, v, t', v')
    ensures Served(f', t', v')
  {
    hide OnSegment, Pending, SaysAll;
    var x := OnSegment(t.r, t.transferMru, v.ms[0].flags, v.ms[0].data);
    var rest := Pending(t', v').out;
    PendingAfter(t, v, t', v', 0);
    assert (v.rs + x.out) + rest == v.rs + (x.out + rest);
    if !v.clear && HasRefusal(v'.rs + rest) {
      var due, less := v.rs + Pending(t, v).out, v'.rs + rest;
      var i :| 0 <= i < |less| && less[i].Refuse?;
      assert due[if i < |v.rs| then i else i + |x.out|] == less[i];
    }
  }

  lemma FadesServed(f: End, t: End, v: View, f': End, t': End, v': View)
    requires Served(f, t, v) && SameSender(f, f') && SameReceiver(t, t') && Fades(v, v')
    ensures Served(f', t', v')
  {
    hide TakeAll, SaysAll;
    PendingPrefix(t.r, t.transferMru, v.ms, v'.ms);
    var due, less := v.rs + Pending(t, v).out, v'.rs + Pending(t', v').out;
    if HasRefusal(less) {
      var i :| 0 <= i < |less| && less[i].Refuse?;
      assert due[if i < |v'.rs| then i else i + |v.rs| - |v'.rs|] == less[i];
    }
  }

  lemma MovesServe(f: End, t: End, v: View, f': End, t': End, v': View)
    requires Orderly(f, t, v) && Served(f, t, v) && Stands(f, t) && Moves(f, t, v, f', t', v')
    ensures Served(f', t', v') && Stands(f', t')
  {
    hide Orderly, Fades, TakeAll;
    if SameReceiver(t, t') && HearsReply(f, v, f', v') {
      HearsReplyServed(f, t, v, f', t', v');
      HearsReplyStands(f, t, v, f', t', v');
    } else if SameReceiver(t, t') && GivesUp(f, v, f', v') {
    } else if SameSender(f, f') && TakesSegment(t, v, t', v') {
      TakesSegmentServed(f, t, v, f', t', v');
    } else {
      FadesServed(f, t, v, f', t', v');
    }
  }

  /** What a whole transfer's replies are. */
  lemma TransferReplies(f: End, t: End, bundle: seq<byte>, r: Receiving)
    ensures var out := TakeAll(r, t.transferMru, Added(f, t, bundle)).out;
            && (Delivers(t, bundle) ==> SaysAll(out, |bundle|))
            && (HasRefusal(out) ==> |bundle| > t.transferMru)
  {
    hide OnSegment, SegmentsFrom, Clear, Early, AllFit, TakeAll;
    AddedIs(f, t, bundle, r, false);
    TransferOutcome(r, t.transferMru, bundle, SegmentSize(f.segmentMru), 0);
    TransferIs(r, t.transferMru, bundle, SegmentSize(f.segmentMru), 0, false);
    NoneTaken(r, t.transferMru);
    if bundle == [] { NoSegments(r, t.transferMru, bundle, SegmentSize(f.segmentMru)); }
  }

  lemma BeginServes(f: End, t: End, v: View, bundle: seq<byte>, t': End, v': View)
    requires v == Seen(f, t) && Orderly(f, t, v) && f.open && !f.late && f.current.None? && SameReceiver(t, t')
    requires v' == v.(ms := v.ms + Added(f, t, bundle), far := v'.far) && (v'.far ==> Clear(t))
    ensures Served(Begun(f, t, bundle), t', v')
  {
    hide OnSegment, TakeAll, Added, Clear, SaysAll, HasRefusal, Seen;
    var p := Pending(t, v);
    TakeBoth(t.r, t.transferMru, v.ms, Added(f, t, bundle));
    TransferReplies(f, t, bundle, p.r);
    var x := TakeAll(p.r, t.transferMru, Added(f, t, bundle));
    assert v.rs == [] && p.out == [];
    assert [] + ([] + x.out) == x.out;
  }

  lemma BeginStands(f: End, t: End, bundle: seq<byte>, t': End)
    requires Stands(f, t) && !f.late && f.current.None? && t'.transferMru == t.transferMru
    ensures Stands(Begun(f, t, bundle), t')
  {
  }

  ghost predicate LinkServed(l: Link) {
    LinkOrderly(l) && Served(l.a, l.b, Seen(l.a, l.b)) && Stands(l.a, l.b)
  }

  lemma NextServes(l: Link, e: Event)
    requires Fits(l) && LinkServed(l) && Patient(l, e)
    ensures LinkServed(Next(l, e))
  {
    hide Next, Whole, Orderly, Served, Stands, Seen, Moves, Begun, Added;
    var l', v := Next(l, e), Seen(l.a, l.b);
    NextOrderly(l, e);
    NextIs(l, e);
    if e.AtA? && Starts(l.a, e.step) {
      BeginServes(l.a, l.b, v, e.step.bundle, l'.b, Seen(l'.a, l'.b));
      BeginStands(l.a, l.b, e.step.bundle, l'.b);
    } else {
      MovesServe(l.a, l.b, v, l'.a, l'.b, Seen(l'.a, l'.b));
    }
  }

  lemma {:induction false} RunServes(l: Link, es: seq<Event>)
    requires Fits(l) && LinkServed(l) && PatientRun(l, es)
    ensures LinkServed(Run(l, es))
    decreases |es|
  {
    hide LinkServed, Next, Patient;
    if es != [] {
      RunServes(l, es[..|es| - 1]);
      NextServes(Run(l, es[..|es| - 1]), es[|es| - 1]);
    }
  }

  lemma NewLinkServed(segA: nat, xferA: nat, segB: nat, xferB: nat)
    ensures LinkServed(NewLink(segA, xferA, segB, xferB))
  {
    NewLinkKept(segA, xferA, segB, xferB);
    hide LinkOrderly, Seen;
  }

  /** An end that is up and was never cut off, with no octet on its way and nothing whole in its parser. */
  predicate Idle(e: End) {
    e.open && !e.cut && e.wire == [] && NextMessage(e).None?
  }

  lemma IdleHearsNothing(e: End)
    requires Idle(e)
    ensures Clear(e) && Through(e) == []
  {
    hide ParseMessage, Drain;
    assert e.buf + e.wire == e.buf;
    DrainOnce(V3(e.transferMru), e.buf, true);
  }

  lemma NothingDue(l: Link)
    requires LinkServed(l) && Idle(l.a) && Idle(l.b)
    ensures forall id :: 0 <= id < |l.a.begun| && Welcome(l.a.begun[id], l.b) ==>
              id in l.a.resolved || (l.a.late && id == |l.a.begun| - 1)
  {
    IdleHearsNothing(l.a);
    IdleHearsNothing(l.b);
    NoneTaken(l.b.r, l.b.transferMru);
    hide Idle, TakeAll;
    var v := Seen(l.a, l.b);
    assert v.rs == [] && v.ms == [];
    assert v.rs + Pending(l.b, v).out == [];
  }

  /** Main result: in every patient run, once both ends are idle, every send of a bundle the peer takes has resolved,
      unless it is the last and has timed out. */
  lemma IdleSendsHaveResolved(segA: nat, xferA: nat, segB: nat, xferB: nat, es: seq<Event>)
    requires Fits(NewLink(segA, xferA, segB, xferB)) && PatientRun(NewLink(segA, xferA, segB, xferB), es)
    ensures var l := Run(NewLink(segA, xferA, segB, xferB), es);
            Idle(l.a) && Idle(l.b) ==>
              forall id :: 0 <= id < |l.a.begun| && Welcome(l.a.begun[id], l.b) ==>
                id in l.a.resolved || (l.a.late && id == |l.a.begun| - 1)
  {
    hide Run, NewLink, PatientRun, LinkServed, Idle, Welcome;
    NewLinkServed(segA, xferA, segB, xferB);
    RunServes(NewLink(segA, xferA, segB, xferB), es);
    var l := Run(NewLink(segA, xferA, segB, xferB), es);
    if Idle(l.a) && Idle(l.b) { NothingDue(l); }
  }
}
