/** The tunnel towards the server: what a server that decodes the wire sees of each session,
    in every interleaving. */
module TunnelFidelity {
  import opened Bytes
  import opened Framing
  import opened Tunnel
  import opened TunnelQueue
  import opened TunnelReader
  import opened TunnelRouting
  import opened TunnelRuns
  import opened TunnelSessions

  // ---- Every frame fits ----

  /** The texts the source does not bound: the version identifier and dial errors. */
  predicate TextsFit(s: State) {
    && |s.conf.identifier| <= 65532
    && forall t :: 0 <= t < |s.sessions| && s.sessions[t].answer.Failed? ==>
         |s.sessions[t].answer.reason| <= 65529
  }

  /** A packet that carries a session's id. */
  predicate About(p: Packet, id: uint16) {
    && p.cmd in {CMD_CREATE_RESPONSE, CMD_DESTROY, CMD_DATA}
    && |p.payload| >= 2 && Get16(p.payload) == id
  }

  lemma {:induction false} InProj(es: seq<Entry>, i: nat, t: nat)
    requires i < |es| && es[i].origin == Of(t)
    ensures es[i].pkt in Proj(es, t)
  {
    var n := |es| - 1;
    if i < n {
      InProj(es[..n], i, t);
    }
  }

  lemma CarriesId(id: uint16, more: bytes)
    ensures Get16(Put16(id) + more) == id
  {
    assert (Put16(id) + more)[..2] == Put16(id);
  }

  /** A session's packets carry its id; only a failure text can overflow a frame. */
  lemma EmittedShape(conf: Config, sess: Session, p: Packet)
    requires SessionInv(conf, sess) && p in Emitted(sess)
    ensures About(p, sess.id)
    ensures (sess.answer.Failed? ==> |sess.answer.reason| <= 65529) ==> Fits(p)
  {
    if p in Response(sess.id, sess.answer) {
      if sess.answer.Failed? {
        CarriesId(sess.id, [1] + sess.answer.reason);
        assert Put16(sess.id) + [1] + sess.answer.reason == Put16(sess.id) + ([1] + sess.answer.reason);
      } else {
        CarriesId(sess.id, [0] + []);
        assert Put16(sess.id) + [0] + [] == Put16(sess.id) + ([0] + []);
      }
    } else if p in DataPackets(sess.id, sess.forwarded) {
      var i :| 0 <= i < |sess.forwarded| && p == Data(sess.id, sess.forwarded[i]);
      CarriesId(sess.id, sess.forwarded[i]);
    } else {
      assert p == Destroy(sess.id);
    }
  }

  lemma EntryShape(s: State, i: nat)
    requires SpeaksInv(s) && i < |s.enqueued|
    ensures s.enqueued[i].origin.Of? ==>
      && s.enqueued[i].origin.tag < |s.sessions|
      && About(s.enqueued[i].pkt, s.sessions[s.enqueued[i].origin.tag].id)
    ensures s.enqueued[i].origin.Agent? ==> s.enqueued[i].pkt.cmd in {CMD_KEEPALIVE, CMD_RENEW_REQUEST}
    ensures TextsFit(s) ==> Fits(s.enqueued[i].pkt)
  {
    var e := s.enqueued[i];
    if e.origin.Of? {
      var t := e.origin.tag;
      InProj(s.enqueued, i, t);
      assert Proj(s.enqueued, t) == EmittedBy(s.sessions, t);
      assert SessionInv(s.conf, s.sessions[t]);
      EmittedShape(s.conf, s.sessions[t], e.pkt);
    }
  }

  lemma FramesFit(s: State)
    requires SpeaksInv(s) && TextsFit(s)
    ensures AllFit(Packets(s.enqueued))
  {
    forall i | 0 <= i < |s.enqueued| ensures Fits(Packets(s.enqueued)[i]) {
      EntryShape(s, i);
    }
  }

  /** A DATA frame never overflows the length field: no condition on texts is needed. */
  lemma DataFramesFit(conf: Config, s: State, i: nat)
    requires Reachable(conf, s) && i < |s.enqueued| && s.enqueued[i].pkt.cmd == CMD_DATA
    ensures |s.enqueued[i].pkt.payload| <= 32770 && Fits(s.enqueued[i].pkt)
  {
    ReachableSpeaks(conf, s);
    EntryShape(s, i);
    var t := s.enqueued[i].origin.tag;
    InProj(s.enqueued, i, t);
    ReachableAt(conf, s, t);
    DataPacketFits(s.conf, s.sessions[t], s.enqueued[i].pkt);
  }

  lemma DataPacketFits(conf: Config, sess: Session, p: Packet)
    requires SessionInv(conf, sess) && p in Emitted(sess) && p.cmd == CMD_DATA
    ensures |p.payload| <= 2 + CHUNK
  {
    assert p in DataPackets(sess.id, sess.forwarded);
    var k :| 0 <= k < |sess.forwarded| && p == Data(sess.id, sess.forwarded[k]);
  }

  // ---- The wire ----

  /** Decoding the wire gives a prefix of the packets queued, in queue order; when the writer
      is between packets, exactly those it has taken. */
  lemma WireDecodes(conf: Config, s: State)
    requires Reachable(conf, s) && TextsFit(s)
    ensures Decode(s.wire).packets <= Packets(s.enqueued)
    ensures s.taken <= |s.enqueued|
    ensures s.writer.Waiting? ==> Decode(s.wire) == Decoded(Packets(s.enqueued[..s.taken]), [])
  {
    ReachableSpeaks(conf, s);
    ReachableQueue(conf, s);
    FramesFit(s);
    var ps := Packets(s.enqueued[..s.taken]);
    assert ps <= Packets(s.enqueued);
    assert AllFit(ps) by {
      assert forall i :: 0 <= i < |ps| ==> ps[i] == Packets(s.enqueued)[i];
    }
    DecodePrefix(s.wire, ps);
    if s.writer.Waiting? {
      assert Undecodable([]);
      RoundTrip(ps, []);
      assert Frames(ps) + [] == s.wire;
    }
  }

  /** Exactly: with the writer between packets, the wire decodes to what was taken if and only
      if none of it was too long for a frame. */
  lemma WireDecodesExactly(conf: Config, s: State)
    requires Reachable(conf, s) && s.writer.Waiting?
    ensures s.taken <= |s.enqueued|
    ensures Decode(s.wire) == Decoded(Packets(s.enqueued[..s.taken]), [])
       <==> AllFit(Packets(s.enqueued[..s.taken]))
  {
    ReachableQueue(conf, s);
    var ps := Packets(s.enqueued[..s.taken]);
    assert Undecodable([]);
    RoundTrip(ps, []);
    assert Frames(ps) + [] == s.wire;
  }

  // ---- One session's packets ----

  /** The packets in ps that carry an id, as a server sorts them out. */
  function PacketsFor(ps: seq<Packet>, id: uint16): seq<Packet> {
    if ps == [] then [] else
      var front, p := PacketsFor(ps[..|ps| - 1], id), ps[|ps| - 1];
      if About(p, id) then front + [p] else front
  }

  lemma {:induction false} PacketsForPrefix(ps: seq<Packet>, n: nat, id: uint16)
    requires n <= |ps|
    ensures PacketsFor(ps[..n], id) <= PacketsFor(ps, id)
  {
    if n == |ps| {
      assert ps[..n] == ps;
    } else {
      PacketsForPrefix(ps[..|ps| - 1], n, id);
      assert ps[..|ps| - 1][..n] == ps[..n];
    }
  }

  lemma {:induction false} DataOfPacketsFor(ps: seq<Packet>, id: uint16)
    ensures DataFor(ps, id) == DataFor(PacketsFor(ps, id), id)
  {
    if ps != [] {
      var front, p := ps[..|ps| - 1], ps[|ps| - 1];
      DataOfPacketsFor(front, id);
      DataForSnoc(PacketsFor(front, id), p, id);
    }
  }

  lemma {:induction false} DataForPrefix(ps: seq<Packet>, n: nat, id: uint16)
    requires n <= |ps|
    ensures DataFor(ps[..n], id) <= DataFor(ps, id)
  {
    if n == |ps| {
      assert ps[..n] == ps;
    } else {
      DataForPrefix(ps[..|ps| - 1], n, id);
      assert ps[..|ps| - 1][..n] == ps[..n];
    }
  }

  /** When the packets that carry the id are exactly the session's, sorting by id finds what
      the session queued. */
  lemma {:induction false} PacketsForIsProj(es: seq<Entry>, t: nat, id: uint16)
    requires forall i :: 0 <= i < |es| ==> (About(es[i].pkt, id) <==> es[i].origin == Of(t))
    ensures PacketsFor(Packets(es), id) == Proj(es, t)
  {
    if es != [] {
      var n := |es| - 1;
      PacketsForIsProj(es[..n], t, id);
      assert Packets(es)[..n] == Packets(es[..n]);
    }
  }

  lemma DistinctOwner(s: State, t: nat)
    requires SpeaksInv(s) && Distinct(s.sessions) && t < |s.sessions|
    ensures PacketsFor(Packets(s.enqueued), s.sessions[t].id) == Emitted(s.sessions[t])
  {
    var id := s.sessions[t].id;
    forall i | 0 <= i < |s.enqueued|
      ensures About(s.enqueued[i].pkt, id) <==> s.enqueued[i].origin == Of(t)
    {
      EntryShape(s, i);
      var o := s.enqueued[i].origin;
      assert o.Of? && o.tag != t ==> s.sessions[o.tag].id != id;
    }
    PacketsForIsProj(s.enqueued, t, id);
    assert Proj(s.enqueued, t) == EmittedBy(s.sessions, t);
  }

  lemma {:induction false} DataForData(answered: seq<Packet>, id: uint16, chunks: seq<bytes>)
    requires DataFor(answered, id) == []
    ensures DataFor(answered + DataPackets(id, chunks), id) == chunks
  {
    if chunks == [] {
      assert answered + DataPackets(id, chunks) == answered;
    } else {
      var front, last := chunks[..|chunks| - 1], chunks[|chunks| - 1];
      DataForData(answered, id, front);
      assert answered + DataPackets(id, chunks) == (answered + DataPackets(id, front)) + [Data(id, last)];
      DataForSnoc(answered + DataPackets(id, front), Data(id, last), id);
      DataIsFor(id, last);
    }
  }

  lemma DataIsFor(id: uint16, data: bytes)
    ensures IsDataFor(Data(id, data), id) && Data(id, data).payload[2..] == data
  {
    CarriesId(id, data);
  }

  lemma DataForEmitted(sess: Session)
    ensures DataFor(Emitted(sess), sess.id) == sess.forwarded
  {
    var r := Response(sess.id, sess.answer);
    assert DataFor(r, sess.id) == [] by {
      if r != [] {
        assert r[..0] == [];
      }
    }
    DataForData(r, sess.id, sess.forwarded);
    var open := r + DataPackets(sess.id, sess.forwarded);
    DataForSnoc(open, Destroy(sess.id), sess.id);
    assert Emitted(sess) == if sess.destroyed then open + [Destroy(sess.id)] else open;
  }

  lemma FlattenPrefix(a: seq<bytes>, b: seq<bytes>)
    requires a <= b
    ensures Flatten(a) <= Flatten(b)
  {
    FlattenAppend(a, b[|a|..]);
    assert b == a + b[|a|..];
  }

  // ---- Theorems ----

  /** End-to-end fidelity: in every reachable state, with ids not reused on the connection,
      decoding the wire and joining the DATA payloads for a session's id gives a prefix of the
      bytes read from its destination. */
  lemma EndToEnd(conf: Config, s: State, t: nat)
    requires Reachable(conf, s) && TextsFit(s) && Distinct(s.sessions) && t < |s.sessions|
    ensures var sess := s.sessions[t];
      && DataFor(Decode(s.wire).packets, sess.id) <= sess.forwarded
      && Flatten(DataFor(Decode(s.wire).packets, sess.id)) <= sess.read
  {
    ReachableSpeaks(conf, s);
    ReachableAt(conf, s, t);
    WireDecodes(conf, s);
    var sess, all, w := s.sessions[t], Packets(s.enqueued), Decode(s.wire).packets;
    assert w == all[..|w|];
    DataForPrefix(all, |w|, sess.id);
    DistinctOwner(s, t);
    DataOfPacketsFor(all, sess.id);
    DataForEmitted(sess);
    FlattenPrefix(DataFor(w, sess.id), sess.forwarded);
  }

  /** At most one chunk is ever read and not queued, and a chunk is at most 32768 bytes. Ids
      may be reused. */
  lemma AtMostOneChunkLost(conf: Config, s: State, t: nat)
    requires Reachable(conf, s) && t < |s.sessions|
    ensures var sess := s.sessions[t];
      && Flatten(sess.forwarded) <= sess.read
      && |sess.read| <= |Flatten(sess.forwarded)| + 32768
      && (sess.read != Flatten(sess.forwarded) ==> sess.pc.Forwarding? || sess.lost != [])
  {
    ReachableAt(conf, s, t);
  }

  /** Once the queue is drained, nothing is in hand and nothing was dropped, the server has
      every byte read from the destination. */
  lemma CompleteWhenDrained(conf: Config, s: State, t: nat)
    requires Reachable(conf, s) && TextsFit(s) && Distinct(s.sessions) && t < |s.sessions|
    requires s.queue == [] && s.writer.Waiting?
    requires !s.sessions[t].pc.Forwarding? && s.sessions[t].lost == []
    ensures Flatten(DataFor(Decode(s.wire).packets, s.sessions[t].id)) == s.sessions[t].read
  {
    ReachableSpeaks(conf, s);
    ReachableQueue(conf, s);
    ReachableAt(conf, s, t);
    WireDecodes(conf, s);
    var sess := s.sessions[t];
    assert s.enqueued[..s.taken] == s.enqueued;
    DistinctOwner(s, t);
    DataOfPacketsFor(Packets(s.enqueued), sess.id);
    DataForEmitted(sess);
  }

  /** With renewal the first packet ever queued is the renewal request with the agent's
      identifier, and no other is ever queued; without renewal none is. The branch for a full
      queue is never taken. No condition on texts. */
  lemma RenewRequestFirstAndOnce(conf: Config, s: State)
    requires Reachable(conf, s)
    ensures !Enabled(s, ReaderStep(SkipRenewRequest))
    ensures conf.renewal && !s.reader.Starting? ==>
      s.enqueued != [] && s.enqueued[0] == Entry(Agent, RenewRequest(conf.identifier))
    ensures forall i :: 0 <= i < |s.enqueued| ==>
      (s.enqueued[i].pkt.cmd == CMD_RENEW_REQUEST <==> conf.renewal && i == 0)
  {
    ReachableReader(conf, s);
    ReachableConf(conf, s);
    forall i | 0 <= i < |s.enqueued|
      ensures s.enqueued[i].pkt.cmd == CMD_RENEW_REQUEST <==> conf.renewal && i == 0
    {
      assert IsRenewRequest(s.enqueued[i]) <==> s.enqueued[i].pkt.cmd == CMD_RENEW_REQUEST;
    }
  }

  /** So on the wire: with renewal it opens with that request and holds no other. */
  lemma WireOpensWithRenewRequest(conf: Config, s: State)
    requires Reachable(conf, s) && TextsFit(s)
    ensures var w := Decode(s.wire).packets;
      && (conf.renewal && w != [] ==> w[0] == RenewRequest(conf.identifier))
      && forall i :: 0 <= i < |w| ==> (w[i].cmd == CMD_RENEW_REQUEST <==> conf.renewal && i == 0)
  {
    WireDecodes(conf, s);
    RenewRequestFirstAndOnce(conf, s);
    NothingWhileStarting(conf, s);
    var w := Decode(s.wire).packets;
    assert forall i :: 0 <= i < |w| ==> w[i] == Packets(s.enqueued)[i] == s.enqueued[i].pkt;
  }

  lemma NothingWhileStarting(conf: Config, s: State)
    requires Reachable(conf, s)
    ensures s.reader.Starting? ==> s.enqueued == []
  {
    ReachableReader(conf, s);
  }
}
