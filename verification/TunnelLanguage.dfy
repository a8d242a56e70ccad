/** The session language on the queue and on the wire, and what becomes of it when the server
    uses an id more than once. */
module TunnelLanguage {
  import opened Bytes
  import opened Framing
  import opened Tunnel
  import opened TunnelCounts
  import opened TunnelEmits
  import opened TunnelEndings
  import opened TunnelFidelity
  import opened TunnelQueue
  import opened TunnelRouting
  import opened TunnelRuns
  import opened TunnelSessions

  /** Session language, in queue order: at every length of the queue's history a session's
      packets are a word of the language; ids may be reused. */
  lemma SessionLanguage(conf: Config, s: State, t: nat, n: nat)
    requires Reachable(conf, s) && t < |s.sessions| && n <= |s.enqueued|
    ensures Follow(Proj(s.enqueued[..n], t), s.sessions[t].id).Some?
    ensures Proj(s.enqueued[..n], t) <= Emitted(s.sessions[t])
  {
    ReachableAt(conf, s, t);
    EmittedFollows(s.conf, s.sessions[t]);
    ProjPrefix(s.enqueued, n, t);
    PrefixFollows(Emitted(s.sessions[t]), Proj(s.enqueued[..n], t), s.sessions[t].id);
  }

  lemma PrefixFollows(all: seq<Packet>, front: seq<Packet>, id: uint16)
    requires front <= all && Follow(all, id).Some?
    ensures Follow(front, id).Some?
  {
    FollowPrefix(all, |front|, id);
    assert all[..|front|] == front;
  }

  lemma {:induction false} ProjPrefix(es: seq<Entry>, n: nat, t: nat)
    requires n <= |es|
    ensures Proj(es[..n], t) <= Proj(es, t)
  {
    if n == |es| {
      assert es[..n] == es;
    } else {
      ProjPrefix(es[..|es| - 1], n, t);
      assert es[..|es| - 1][..n] == es[..n];
    }
  }

  /** A failure response for the id. */
  predicate IsFailure(p: Packet, id: uint16) {
    && p.cmd == CMD_CREATE_RESPONSE && |p.payload| >= 3
    && p.payload[..2] == Put16(id) && p.payload[2] == 1
  }

  predicate IsData(p: Packet, id: uint16) {
    p.cmd == CMD_DATA && |p.payload| >= 2 && p.payload[..2] == Put16(id)
  }

  /** Nothing; or one failure; or the success, DATA packets and at most a DESTROY at the end. */
  predicate IsWord(ps: seq<Packet>, id: uint16) {
    || ps == []
    || (|ps| == 1 && IsFailure(ps[0], id))
    || (&& ps[0] == CreateResponse(id, 0, [])
        && (forall i :: 1 <= i < |ps| - 1 ==> IsData(ps[i], id))
        && (|ps| > 1 ==> IsData(ps[|ps| - 1], id) || ps[|ps| - 1] == Destroy(id)))
  }

  /** What has been said in a word, with nothing, something or everything said. */
  function PhaseOf(ps: seq<Packet>, id: uint16): Phase {
    if ps == [] then Silent
    else if ps[0] != CreateResponse(id, 0, []) || (|ps| > 1 && ps[|ps| - 1] == Destroy(id)) then Over
    else Open
  }

  /** The automaton accepts exactly the words of the language. */
  lemma {:induction false} WordsExactly(ps: seq<Packet>, id: uint16)
    ensures Follow(ps, id).Some? <==> IsWord(ps, id)
    ensures IsWord(ps, id) ==> Follow(ps, id) == Some(PhaseOf(ps, id))
  {
    if ps != [] {
      var front, p := ps[..|ps| - 1], ps[|ps| - 1];
      WordsExactly(front, id);
      SayOneMore(front, p, id);
      assert ps == front + [p];
    }
  }

  lemma SayOneMore(front: seq<Packet>, p: Packet, id: uint16)
    ensures IsWord(front + [p], id) <==> IsWord(front, id) && Advance(PhaseOf(front, id), id, p).Some?
    ensures IsWord(front + [p], id) ==> Advance(PhaseOf(front, id), id, p) == Some(PhaseOf(front + [p], id))
  {
    var ps := front + [p];
    IdInFront(p, id);
    if front != [] {
      assert ps[0] == front[0];
      assert forall i :: 0 <= i < |front| ==> ps[i] == front[i];
      NotBoth(front[|front| - 1], id);
      if IsWord(ps, id) {
        assert |front| > 1 ==> IsData(ps[|front| - 1], id);
      }
    }
  }

  lemma IdInFront(p: Packet, id: uint16)
    ensures |p.payload| >= 2 ==> (Get16(p.payload) == id <==> p.payload[..2] == Put16(id))
  {
    if |p.payload| >= 2 {
      Put16OfGet16(p.payload);
    }
  }

  lemma NotBoth(p: Packet, id: uint16)
    ensures !(IsData(p, id) && p == Destroy(id))
    ensures !(IsData(p, id) && IsFailure(p, id))
  {
  }

  /** While done is open, a session whose goroutine is over has said its whole word: one
      failure, or the success, its DATA and a DESTROY, and no chunk was dropped. */
  lemma WholeWord(conf: Config, s: State, t: nat)
    requires Reachable(conf, s) && t < |s.sessions| && !s.done
    ensures s.sessions[t].lost == []
    ensures SaidAll(s.sessions[t].pc) ==> Follow(Proj(s.enqueued, t), s.sessions[t].id) == Some(Over)
    ensures !s.sessions[t].pc.Abandoned?
  {
    ReachableAt(conf, s, t);
    ReachableCounts(conf, s);
    if SaidAll(s.sessions[t].pc) {
      WholeEmitted(s.conf, s.sessions[t]);
    }
  }

  /** The goroutine has nothing more to say. */
  predicate SaidAll(pc: Pc) {
    pc.Refused? || pc.Unreachable? || pc.Removing? || pc.Ended?
  }

  lemma WholeEmitted(conf: Config, sess: Session)
    requires SessionInv(conf, sess) && SaidAll(sess.pc) && !GaveUp(sess)
    ensures Follow(Emitted(sess), sess.id) == Some(Over)
  {
    EmittedFollows(conf, sess);
    AllSaid(conf, sess);
    if sess.answer.Failed? {
      FailureIsOver(sess);
    } else {
      SuccessIsOver(sess);
    }
    OverInPhase(Emitted(sess), sess.id);
  }

  lemma AllSaid(conf: Config, sess: Session)
    requires SessionInv(conf, sess) && SaidAll(sess.pc) && !GaveUp(sess)
    ensures if sess.answer.Failed? then sess.forwarded == [] && !sess.destroyed
      else sess.answer.Succeeded? && sess.destroyed
  {
  }

  lemma OverInPhase(ps: seq<Packet>, id: uint16)
    requires Follow(ps, id).Some? && PhaseOf(ps, id) == Over
    ensures Follow(ps, id) == Some(Over)
  {
    WordsExactly(ps, id);
  }

  lemma FailureIsOver(sess: Session)
    requires sess.answer.Failed? && sess.forwarded == [] && !sess.destroyed
    ensures PhaseOf(Emitted(sess), sess.id) == Over
  {
    var ps := Emitted(sess);
    assert ps == [CreateResponse(sess.id, 1, sess.answer.reason)];
    assert ps[0].payload[2] == 1 && CreateResponse(sess.id, 0, []).payload[2] == 0;
  }

  lemma SuccessIsOver(sess: Session)
    requires sess.answer.Succeeded? && sess.destroyed
    ensures PhaseOf(Emitted(sess), sess.id) == Over
  {
    var ps := Emitted(sess);
    assert ps[|ps| - 1] == Destroy(sess.id) && |ps| > 1;
  }

  // ---- Responses ----

  /** Responses among a session's packets. */
  function ResponsesIn(ps: seq<Packet>): nat {
    if ps == [] then 0
    else ResponsesIn(ps[..|ps| - 1]) + One(ps[|ps| - 1].cmd == CMD_CREATE_RESPONSE)
  }

  /** No request is answered twice. */
  lemma AnsweredAtMostOnce(conf: Config, s: State, t: nat)
    requires Reachable(conf, s) && t < |s.sessions|
    ensures ResponsesIn(Proj(s.enqueued, t)) == One(StageOf(s.sessions[t].pc) == Answered)
  {
    ReachableAt(conf, s, t);
    ResponsesInEmitted(s.sessions[t]);
  }

  lemma ResponsesInEmitted(sess: Session)
    ensures ResponsesIn(Emitted(sess)) == One(sess.answer != NoAnswer)
  {
    var r := Response(sess.id, sess.answer);
    assert ResponsesIn(r) == One(sess.answer != NoAnswer) by {
      if r != [] {
        assert r[..0] == [];
      }
    }
    NoResponseInData(r, sess.id, sess.forwarded);
    var open := r + DataPackets(sess.id, sess.forwarded);
    if sess.destroyed {
      assert Emitted(sess)[..|open|] == open;
    } else {
      assert Emitted(sess) == open;
    }
  }

  lemma {:induction false} NoResponseInData(r: seq<Packet>, id: uint16, chunks: seq<bytes>)
    ensures ResponsesIn(r + DataPackets(id, chunks)) == ResponsesIn(r)
  {
    var ps := r + DataPackets(id, chunks);
    if chunks == [] {
      assert ps == r;
    } else {
      var front := chunks[..|chunks| - 1];
      NoResponseInData(r, id, front);
      assert ps[..|ps| - 1] == r + DataPackets(id, front);
    }
  }

  /** A word of the language holds at most one response, and none while nothing is said. */
  lemma {:induction false} FollowResponses(ps: seq<Packet>, id: uint16)
    requires Follow(ps, id).Some?
    ensures ResponsesIn(ps) == if Follow(ps, id) == Some(Silent) then 0 else 1
  {
    if ps != [] {
      FollowResponses(ps[..|ps| - 1], id);
    }
  }

  lemma {:induction false} OpensWithResponse(ps: seq<Packet>)
    requires ps != [] && ps[0].cmd == CMD_CREATE_RESPONSE
    ensures ResponsesIn(ps) >= 1
  {
    if |ps| > 1 {
      OpensWithResponse(ps[..|ps| - 1]);
    }
  }

  /** What a session says opens with its response. */
  lemma EmittedOpens(conf: Config, sess: Session)
    requires SessionInv(conf, sess)
    ensures Emitted(sess) != [] <==> sess.answer != NoAnswer
    ensures Emitted(sess) != [] ==> Emitted(sess)[0].cmd == CMD_CREATE_RESPONSE
  {
  }

  lemma SpeakerResponds(conf: Config, s: State, n: nat, t: nat)
    requires Reachable(conf, s) && t < |s.sessions| && n <= |s.enqueued| && Proj(s.enqueued[..n], t) != []
    ensures ResponsesIn(Proj(s.enqueued[..n], t)) >= 1
  {
    ReachableAt(conf, s, t);
    SessionLanguage(conf, s, t, n);
    EmittedOpens(s.conf, s.sessions[t]);
    OpensWithResponse(Proj(s.enqueued[..n], t));
  }

  // ---- The packets for an id ----

  /** Among the first n packets queued, those of at most one session with the id. */
  predicate OneSpeaks(s: State, n: nat, id: uint16)
    requires n <= |s.enqueued|
  {
    forall t, u :: 0 <= t < u < |s.sessions| && s.sessions[t].id == id == s.sessions[u].id ==>
      Proj(s.enqueued[..n], t) == [] || Proj(s.enqueued[..n], u) == []
  }

  /** At most one session with the id has been answered. */
  predicate OneAnswered(ss: seq<Session>, id: uint16) {
    forall t, u :: 0 <= t < u < |ss| && ss[t].id == id == ss[u].id ==>
      ss[t].answer == NoAnswer || ss[u].answer == NoAnswer
  }

  /** Packets for an id come from sessions with that id, and all of theirs are. */
  lemma AboutOwners(s: State, i: nat, id: uint16)
    requires SpeaksInv(s) && i < |s.enqueued|
    ensures About(s.enqueued[i].pkt, id) <==>
      && s.enqueued[i].origin.Of? && s.enqueued[i].origin.tag < |s.sessions|
      && s.sessions[s.enqueued[i].origin.tag].id == id
  {
    EntryShape(s, i);
  }

  /** When the session alone speaks for the id, the packets for it are the session's. */
  lemma SoleSpeaker(s: State, n: nat, id: uint16, t: nat)
    requires SpeaksInv(s) && n <= |s.enqueued|
    requires forall u :: 0 <= u < |s.sessions| && s.sessions[u].id == id && u != t ==> Proj(s.enqueued[..n], u) == []
    requires t < |s.sessions| ==> s.sessions[t].id == id
    ensures PacketsFor(Packets(s.enqueued[..n]), id) == Proj(s.enqueued[..n], t)
  {
    var es := s.enqueued[..n];
    forall i | 0 <= i < |es| ensures About(es[i].pkt, id) <==> es[i].origin == Of(t) {
      AboutOwners(s, i, id);
      if About(es[i].pkt, id) {
        InProj(es, i, es[i].origin.tag);
      }
    }
    PacketsForIsProj(es, t, id);
  }

  lemma {:induction false} ResponsesOfTwo(es: seq<Entry>, t: nat, u: nat, id: uint16)
    requires t != u
    requires forall i :: 0 <= i < |es| && (es[i].origin == Of(t) || es[i].origin == Of(u)) ==> About(es[i].pkt, id)
    ensures ResponsesIn(PacketsFor(Packets(es), id)) >= ResponsesIn(Proj(es, t)) + ResponsesIn(Proj(es, u))
  {
    if es != [] {
      var n := |es| - 1;
      ResponsesOfTwo(es[..n], t, u, id);
      assert Packets(es)[..n] == Packets(es[..n]);
      ResponsesSnocIf(PacketsFor(Packets(es[..n]), id), es[n].pkt, About(es[n].pkt, id));
      ResponsesSnocIf(Proj(es[..n], t), es[n].pkt, es[n].origin == Of(t));
      ResponsesSnocIf(Proj(es[..n], u), es[n].pkt, es[n].origin == Of(u));
    }
  }

  lemma ResponsesSnocIf(ps: seq<Packet>, p: Packet, more: bool)
    ensures ResponsesIn(if more then ps + [p] else ps)
         == ResponsesIn(ps) + One(more && p.cmd == CMD_CREATE_RESPONSE)
  {
    assert (ps + [p])[..|ps|] == ps;
  }

  /** The packets queued for an id, at any length of the history, are a word of the session
      language if and only if at most one session with that id has spoken by then. */
  lemma LanguageOfId(conf: Config, s: State, n: nat, id: uint16)
    requires Reachable(conf, s) && n <= |s.enqueued|
    ensures Follow(PacketsFor(Packets(s.enqueued[..n]), id), id).Some? <==> OneSpeaks(s, n, id)
  {
    if OneSpeaks(s, n, id) {
      OneSpeakerFollows(conf, s, n, id);
    } else {
      var t, u :| 0 <= t < u < |s.sessions| && s.sessions[t].id == id == s.sessions[u].id
        && Proj(s.enqueued[..n], t) != [] && Proj(s.enqueued[..n], u) != [];
      TwoSpeakersBreak(conf, s, n, id, t, u);
    }
  }

  lemma OneSpeakerFollows(conf: Config, s: State, n: nat, id: uint16)
    requires Reachable(conf, s) && n <= |s.enqueued| && OneSpeaks(s, n, id)
    ensures Follow(PacketsFor(Packets(s.enqueued[..n]), id), id).Some?
  {
    ReachableSpeaks(conf, s);
    if t :| 0 <= t < |s.sessions| && s.sessions[t].id == id && Proj(s.enqueued[..n], t) != [] {
      SoleSpeaker(s, n, id, t);
      SessionLanguage(conf, s, t, n);
    } else {
      var t := |s.sessions|;
      SoleSpeaker(s, n, id, t);
      ProjNone(s.enqueued[..n], t);
    }
  }

  lemma TwoSpeakersBreak(conf: Config, s: State, n: nat, id: uint16, t: nat, u: nat)
    requires Reachable(conf, s) && n <= |s.enqueued| && t < u < |s.sessions|
    requires s.sessions[t].id == id == s.sessions[u].id
    requires Proj(s.enqueued[..n], t) != [] && Proj(s.enqueued[..n], u) != []
    ensures Follow(PacketsFor(Packets(s.enqueued[..n]), id), id) == None
  {
    ReachableSpeaks(conf, s);
    var es := s.enqueued[..n];
    forall i | 0 <= i < |es| && (es[i].origin == Of(t) || es[i].origin == Of(u)) ensures About(es[i].pkt, id) {
      AboutOwners(s, i, id);
    }
    ResponsesOfTwo(es, t, u, id);
    SpeakerResponds(conf, s, n, t);
    SpeakerResponds(conf, s, n, u);
    if Follow(PacketsFor(Packets(es), id), id).Some? {
      FollowResponses(PacketsFor(Packets(es), id), id);
    }
  }

  /** So, of everything queued so far: if and only if at most one session with the id has been
      answered. A second request for the id that is never answered does no harm. */
  lemma LanguageOfReusedId(conf: Config, s: State, id: uint16)
    requires Reachable(conf, s)
    ensures Follow(PacketsFor(Packets(s.enqueued), id), id).Some? <==> OneAnswered(s.sessions, id)
  {
    assert s.enqueued[..|s.enqueued|] == s.enqueued;
    LanguageOfId(conf, s, |s.enqueued|, id);
    forall t: nat | t < |s.sessions| ensures Proj(s.enqueued, t) == [] <==> s.sessions[t].answer == NoAnswer {
      ReachableAt(conf, s, t);
      EmittedOpens(s.conf, s.sessions[t]);
    }
  }

  /** The same as the server sees it: the packets for an id decoded from the wire are accepted
      by the automaton if and only if they come from at most one session; so always with ids
      not reused. */
  lemma WireLanguage(conf: Config, s: State, id: uint16)
    requires Reachable(conf, s) && TextsFit(s)
    ensures |Decode(s.wire).packets| <= |s.enqueued|
    ensures Follow(PacketsFor(Decode(s.wire).packets, id), id).Some?
       <==> OneSpeaks(s, |Decode(s.wire).packets|, id)
    ensures Distinct(s.sessions) ==> Follow(PacketsFor(Decode(s.wire).packets, id), id).Some?
  {
    WireDecodes(conf, s);
    var w := Decode(s.wire).packets;
    assert w == Packets(s.enqueued[..|w|]);
    LanguageOfId(conf, s, |w|, id);
  }
}
