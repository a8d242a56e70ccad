/** The queue's history, session by session: every session has put in the queue exactly the
    packets its histories tell, and they form a word of the protocol's session language. */
module TunnelEmits {
  import opened Bytes
  import opened Framing
  import opened Tunnel
  import opened TunnelQueue
  import opened TunnelSessions

  lemma ProjQueued(es: seq<Entry>, t: nat, p: Option<Packet>, u: nat)
    ensures Proj(es + Queued(Of(t), p), u) == Proj(es, u) + if u == t then AsSeq(p) else []
  {
    match p
    case None => assert es + [] == es;
    case Some(pkt) => ProjSnoc(es, Entry(Of(t), pkt), u);
  }

  lemma {:induction false} ProjNone(es: seq<Entry>, tag: nat)
    requires forall i :: 0 <= i < |es| ==> es[i].origin != Of(tag)
    ensures Proj(es, tag) == []
  {
    if es != [] {
      ProjNone(es[..|es| - 1], tag);
    }
  }

  predicate EmitsInv(s: State) {
    EmitInv(s) && TagInv(s)
  }

  lemma EmitsKept(s: State, a: Action)
    requires Enabled(s, a) && SessionsInv(s) && BlockedInv(s) && EmitsInv(s)
    ensures EmitsInv(Do(s, a))
  {
    match a
    case SessionStep(t, act) => EmitsKeptBySession(s, t, act);
    case ReaderStep(r) =>
      if r.HandleNext? {
        EmitsKeptByHandle(s, r.renewed);
      } else if r.SendRefusal? {
        EmitsKeptByRefusal(s);
      } else {
        ReaderSessions(s, r);
        SameEmitted(s.sessions, DoReader(s, r).sessions);
        if r.SendRenewRequest? && s.conf.renewal {
          AgentPut(s, DoReader(s, r), RenewRequest(s.conf.identifier));
        } else {
          assert s.enqueued + [] == s.enqueued;
        }
      }
    case SendKeepalive => AgentPut(s, Do(s, a), Keepalive());
    case _ =>
  }

  /** A packet of the agent's own leaves every session's packets as they were. */
  lemma AgentPut(s: State, s': State, p: Packet)
    requires s'.enqueued == s.enqueued + [Entry(Agent, p)]
    requires s'.sessions == s.sessions && EmitsInv(s)
    ensures EmitsInv(s')
  {
    forall u: nat | u <= |s'.sessions| ensures Proj(s'.enqueued, u) == EmittedBy(s'.sessions, u) {
      ProjSnoc(s.enqueued, Entry(Agent, p), u);
    }
  }

  lemma EmitsKeptBySession(s: State, t: nat, act: SessionAct)
    requires Enabled(s, SessionStep(t, act)) && SessionsInv(s) && EmitsInv(s)
    ensures EmitsInv(DoSession(s, t, act))
  {
    var sess := s.sessions[t];
    var seen, finished := |DataFor(s.handled, sess.id)|, s.reader.Finished?;
    AfterEmits(s.conf, sess, act, seen, finished);
    SessionPut(s, DoSession(s, t, act), t, After(sess, act, seen, finished), Emits(sess, act));
  }

  lemma SessionPut(s: State, s': State, t: nat, sess': Session, p: Option<Packet>)
    requires t < |s.sessions| && s'.sessions == s.sessions[t := sess'] && EmitsInv(s)
    requires s'.enqueued == s.enqueued + Queued(Of(t), p)
    requires Emitted(sess') == Emitted(s.sessions[t]) + AsSeq(p)
    ensures EmitsInv(s')
  {
    forall u: nat | u <= |s'.sessions| ensures Proj(s'.enqueued, u) == EmittedBy(s'.sessions, u) {
      ProjQueued(s.enqueued, t, p, u);
    }
  }

  lemma SameEmitted(ss: seq<Session>, ss': seq<Session>)
    requires AllTouched(ss, ss')
    ensures forall t: nat :: EmittedBy(ss', t) == EmittedBy(ss, t)
  {
  }

  lemma EmitsKeptByHandle(s: State, renewed: bool)
    requires ReaderReady(s, HandleNext(renewed)) && EmitsInv(s)
    ensures EmitsInv(DoReader(s, HandleNext(renewed)))
  {
    var s' := DoReader(s, HandleNext(renewed));
    var p := s.reader.next[0];
    HandleFrame(s.(handled := s.handled + [p]), p, s.reader.next[1..], s.reader.err, renewed);
    ReaderSessions(s, HandleNext(renewed));
    if AllTouched(s.sessions, s'.sessions) {
      SameEmitted(s.sessions, s'.sessions);
    } else {
      NewEmitsNothing(s, s'.sessions);
      ProjNone(s.enqueued, |s'.sessions|);
    }
  }

  lemma NewEmitsNothing(s: State, ss': seq<Session>)
    requires Adds(s, ss')
    ensures forall t: nat :: EmittedBy(ss', t) == EmittedBy(s.sessions, t)
  {
    forall t: nat ensures EmittedBy(ss', t) == EmittedBy(s.sessions, t) {
      if t < |s.sessions| {
        assert ss'[t] == ss'[..|s.sessions|][t];
      }
    }
  }

  lemma EmitsKeptByRefusal(s: State)
    requires ReaderReady(s, SendRefusal) && SessionsInv(s) && BlockedInv(s) && EmitsInv(s)
    ensures EmitsInv(DoReader(s, SendRefusal))
  {
    var s' := DoReader(s, SendRefusal);
    var t, p := s.reader.tag, CreateResponse(s.sessions[s.reader.tag].id, 1, s.reader.reason);
    assert SessionInv(s.conf, s.sessions[t]);
    RefusalEmits(s.conf, s.sessions[t], s.reader.reason);
    forall u: nat | u <= |s'.sessions| ensures Proj(s'.enqueued, u) == EmittedBy(s'.sessions, u) {
      ProjSnoc(s.enqueued, Entry(Of(t), p), u);
    }
  }

  lemma RefusalEmits(conf: Config, sess: Session, reason: bytes)
    requires SessionInv(conf, sess) && sess.pc.Refusing?
    ensures Emitted(sess) == []
    ensures Emitted(sess.(pc := Refused, answer := Failed(reason))) == [CreateResponse(sess.id, 1, reason)]
  {
  }

  // ---- The session language ----

  /** Where a session stands on the wire: nothing said, accepted and open, or over. */
  datatype Phase = Silent | Open | Over

  /** The automaton a server can run on the packets for one id; None is a protocol error. */
  function Advance(phase: Phase, id: uint16, p: Packet): Option<Phase> {
    match phase
    case Silent =>
      if p == CreateResponse(id, 0, []) then Some(Open)
      else if p.cmd == CMD_CREATE_RESPONSE && |p.payload| >= 3 && Get16(p.payload) == id && p.payload[2] == 1
      then Some(Over)
      else None
    case Open =>
      if p == Destroy(id) then Some(Over)
      else if p.cmd == CMD_DATA && |p.payload| >= 2 && Get16(p.payload) == id then Some(Open)
      else None
    case Over => None
  }

  function Follow(ps: seq<Packet>, id: uint16): Option<Phase> {
    if ps == [] then Some(Silent) else
      match Follow(ps[..|ps| - 1], id)
      case None => None
      case Some(phase) => Advance(phase, id, ps[|ps| - 1])
  }

  lemma FollowSnoc(ps: seq<Packet>, p: Packet, id: uint16)
    ensures Follow(ps + [p], id) ==
      match Follow(ps, id) case None => None case Some(phase) => Advance(phase, id, p)
  {
    assert (ps + [p])[..|ps|] == ps;
  }

  lemma {:induction false} FollowPrefix(ps: seq<Packet>, n: nat, id: uint16)
    requires n <= |ps| && Follow(ps, id).Some?
    ensures Follow(ps[..n], id).Some?
  {
    if n == |ps| {
      assert ps[..n] == ps;
    } else {
      FollowPrefix(ps[..|ps| - 1], n, id);
      assert ps[..|ps| - 1][..n] == ps[..n];
    }
  }

  lemma {:induction false} FollowData(id: uint16, answered: seq<Packet>, chunks: seq<bytes>)
    requires Follow(answered, id) == Some(Open)
    ensures Follow(answered + DataPackets(id, chunks), id) == Some(Open)
  {
    if chunks == [] {
      assert answered + DataPackets(id, chunks) == answered;
    } else {
      var front, last := chunks[..|chunks| - 1], chunks[|chunks| - 1];
      FollowData(id, answered, front);
      assert answered + DataPackets(id, chunks) == (answered + DataPackets(id, front)) + [Data(id, last)];
      FollowSnoc(answered + DataPackets(id, front), Data(id, last), id);
      assert Data(id, last).payload[..2] == Put16(id);
    }
  }

  lemma FailureFollows(id: uint16, reason: bytes)
    ensures Follow([CreateResponse(id, 1, reason)], id).Some?
  {
    var p := CreateResponse(id, 1, reason);
    FollowSnoc([], p, id);
    assert [] + [p] == [p];
    assert p.payload[..2] == Put16(id);
  }

  lemma SuccessFollows(id: uint16, chunks: seq<bytes>, destroyed: bool)
    ensures var open := [CreateResponse(id, 0, [])] + DataPackets(id, chunks);
      Follow(open + if destroyed then [Destroy(id)] else [], id).Some?
  {
    var p := CreateResponse(id, 0, []);
    FollowSnoc([], p, id);
    assert [] + [p] == [p];
    FollowData(id, [p], chunks);
    var open := [p] + DataPackets(id, chunks);
    FollowSnoc(open, Destroy(id), id);
    assert open + [] == open;
  }

  /** What a session's histories tell is a word of the language: one failure, or a success,
      DATA packets and at most one DESTROY at the end. */
  lemma EmittedFollows(conf: Config, sess: Session)
    requires SessionInv(conf, sess)
    ensures Follow(Emitted(sess), sess.id).Some?
  {
    match sess.answer
    case NoAnswer =>
      assert Emitted(sess) == [];
    case Failed(reason) =>
      assert Emitted(sess) == [CreateResponse(sess.id, 1, reason)];
      FailureFollows(sess.id, reason);
    case Succeeded =>
      SuccessFollows(sess.id, sess.forwarded, sess.destroyed);
  }
}
