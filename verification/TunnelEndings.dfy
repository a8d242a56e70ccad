/** What is given up only at shutdown: a chunk in hand, a DESTROY, a tick; and what closes a
    socket from the server's side. */
module TunnelEndings {
  import opened Bytes
  import opened Framing
  import opened Outcomes
  import opened Tunnel
  import opened TunnelQueue
  import opened TunnelRouting
  import opened TunnelSessions

  /** The session dropped a chunk, or went on to remove itself without a DESTROY. */
  predicate GaveUp(sess: Session) {
    || sess.lost != []
    || ((sess.pc.Removing? || sess.pc.Ended?) && !sess.destroyed)
  }

  /** A DESTROY for the id is among the packets. */
  ghost predicate DestroyIn(ps: seq<Packet>, id: uint16) {
    exists i :: 0 <= i < |ps| && IsDestroyFor(ps[i], id)
  }

  predicate IsDestroyFor(p: Packet, id: uint16) {
    p.cmd == CMD_DESTROY && ParseDestroy(p.payload) == Some(id)
  }

  ghost predicate EndingAt(s: State, t: nat)
    requires t < |s.sessions|
  {
    && (GaveUp(s.sessions[t]) ==> s.done)
    && (s.sessions[t].ordered ==> DestroyIn(s.handled, s.sessions[t].id))
  }

  ghost predicate EndingsInv(s: State) {
    && (forall t :: 0 <= t < |s.sessions| ==> EndingAt(s, t))
    && (s.ticker.Stopped? ==> s.done)
  }

  lemma AfterGaveUp(sess: Session, a: SessionAct, seen: nat, finished: bool, room: bool, done: bool)
    requires Ready(sess, a, room, done) && Ready(sess, a, true, true)
    requires BytesInv(sess)
    ensures GaveUp(After(sess, a, seen, finished)) ==> GaveUp(sess) || done
    ensures var sess' := After(sess, a, seen, finished);
      sess'.ordered == sess.ordered && sess'.id == sess.id
  {
    match a
    case DialFails(_) =>
    case SendFailure =>
    case SendSuccess =>
    case Register =>
    case ReadDest(_, _) =>
    case Forward =>
    case DropChunk =>
    case SendDestroy =>
    case SkipDestroy =>
    case Remove =>
    case _ =>
  }

  lemma EndingsKept(s: State, a: Action)
    requires Enabled(s, a) && SessionsInv(s) && BlockedInv(s) && DestInv(s) && EndingsInv(s)
    ensures EndingsInv(Do(s, a))
  {
    match a
    case SessionStep(t, act) => EndingsKeptBySession(s, t, act);
    case ReaderStep(r) => EndingsKeptByReader(s, r);
    case _ => SameEndings(s, Do(s, a));
  }

  lemma SameEndings(s: State, s': State)
    requires EndingsInv(s) && s'.sessions == s.sessions && s'.handled == s.handled && (s.done ==> s'.done)
    requires s'.ticker.Stopped? ==> s'.done
    ensures EndingsInv(s')
  {
    forall t | 0 <= t < |s'.sessions| ensures EndingAt(s', t) {
      assert EndingAt(s, t);
    }
  }

  lemma EndingsKeptBySession(s: State, t: nat, act: SessionAct)
    requires Enabled(s, SessionStep(t, act)) && SessionsInv(s) && EndingsInv(s)
    ensures EndingsInv(DoSession(s, t, act))
  {
    var s' := DoSession(s, t, act);
    var sess := s.sessions[t];
    assert SessionInv(s.conf, sess) && EndingAt(s, t);
    AfterGaveUp(sess, act, |DataFor(s.handled, sess.id)|, s.reader.Finished?, Room(s), s.done);
    forall u | 0 <= u < |s'.sessions| ensures EndingAt(s', u) {
      assert EndingAt(s, u);
    }
  }

  /** How the reader's step leaves a session that was there before. */
  predicate LeftAt(sess: Session, sess': Session) {
    && sess'.id == sess.id && sess'.lost == sess.lost && sess'.destroyed == sess.destroyed
    && (sess'.pc == sess.pc || sess'.pc.Refused?)
  }

  ghost predicate Leaves(s: State, ss': seq<Session>, handled: seq<Packet>) {
    && |s.sessions| <= |ss'|
    && (forall t :: 0 <= t < |s.sessions| ==>
         && LeftAt(s.sessions[t], ss'[t])
         && (ss'[t].ordered ==> s.sessions[t].ordered || DestroyIn(handled, s.sessions[t].id)))
    && (forall t :: |s.sessions| <= t < |ss'| ==> !GaveUp(ss'[t]) && !ss'[t].ordered)
  }

  lemma EndingsKeptByReader(s: State, r: ReaderAct)
    requires ReaderReady(s, r) && BlockedInv(s) && DestInv(s) && EndingsInv(s)
    ensures EndingsInv(DoReader(s, r))
  {
    var s' := DoReader(s, r);
    if r.HandleNext? {
      HandleLeaves(s, r.renewed);
    } else {
      ReaderLeaves(s, r);
    }
    forall t | 0 <= t < |s'.sessions| ensures EndingAt(s', t) {
      if t < |s.sessions| {
        assert EndingAt(s, t) && LeftAt(s.sessions[t], s'.sessions[t]);
        DestroyStaysIn(s.handled, s'.handled, s.sessions[t].id);
      }
    }
  }

  lemma DestroyStaysIn(ps: seq<Packet>, ps': seq<Packet>, id: uint16)
    requires ps <= ps'
    ensures DestroyIn(ps, id) ==> DestroyIn(ps', id)
  {
    if DestroyIn(ps, id) {
      var i :| 0 <= i < |ps| && IsDestroyFor(ps[i], id);
      assert ps'[i] == ps[i];
    }
  }

  lemma ReaderLeaves(s: State, r: ReaderAct)
    requires ReaderReady(s, r) && BlockedInv(s) && !r.HandleNext?
    ensures var s' := DoReader(s, r);
      && Leaves(s, s'.sessions, s'.handled) && s'.handled == s.handled
      && (s.done ==> s'.done) && (s'.ticker.Stopped? ==> s.ticker.Stopped?)
  {
  }

  lemma HandleLeaves(s: State, renewed: bool)
    requires ReaderReady(s, HandleNext(renewed)) && DestInv(s)
    ensures var s' := DoReader(s, HandleNext(renewed));
      && Leaves(s, s'.sessions, s'.handled) && s.handled <= s'.handled
      && s'.done == s.done && s'.ticker == s.ticker
  {
    var p, next, err := s.reader.next[0], s.reader.next[1..], s.reader.err;
    var s1 := s.(handled := s.handled + [p]);
    HandleFrame(s1, p, next, err, renewed);
    assert s1.handled[|s.handled|] == p;
    if p.cmd == CMD_CREATE_REQUEST {
      CreateLeaves(s1, p.payload, next, err);
    } else if p.cmd == CMD_DESTROY {
      CloseLeaves(s1, p);
    } else if p.cmd == CMD_DATA {
      DataLeaves(s1, p.payload, next, err);
    }
  }

  lemma CreateLeaves(s: State, payload: bytes, next: seq<Packet>, err: Option<RunResult>)
    ensures Leaves(s, HandleCreate(s, payload, next, err).sessions, s.handled)
  {
    CreateSessions(s, payload, next, err);
    var ss' := HandleCreate(s, payload, next, err).sessions;
    if ParseCreateRequest(payload).Some? {
      assert forall t :: 0 <= t < |s.sessions| ==> ss'[t] == ss'[..|s.sessions|][t];
    }
  }

  lemma CloseLeaves(s: State, p: Packet)
    requires DestInv(s) && p.cmd == CMD_DESTROY && |s.handled| > 0 && s.handled[|s.handled| - 1] == p
    ensures Leaves(s, Close(s.sessions, s.dests, p.payload), s.handled)
  {
    if ParseDestroy(p.payload).Some? {
      assert IsDestroyFor(s.handled[|s.handled| - 1], ParseDestroy(p.payload).value);
    }
  }

  lemma DataLeaves(s: State, payload: bytes, next: seq<Packet>, err: Option<RunResult>)
    ensures Leaves(s, HandleData(s, payload, next, err).sessions, s.handled)
  {
  }
}
