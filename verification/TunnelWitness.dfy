/** Runs that show what the tunnel does not promise: the hypotheses of the theorems are needed. */
module TunnelWitness {
  import opened Bytes
  import opened Framing
  import opened Outcomes
  import opened Tunnel
  import opened TunnelEmits
  import opened TunnelFidelity
  import opened TunnelQueue
  import opened TunnelRouting
  import opened TunnelRuns
  import opened TunnelSessions
  import opened TunnelEnds
  import opened TunnelLanguage
  import opened TunnelTheorems

  /** The packet of a request, as the server sends it. */
  function RequestPacket(r: Request): Packet {
    Packet(CMD_CREATE_REQUEST, Put16(r.id) + r.host + [SLASH] + r.port)
  }

  /** A request whose frame fits one read. */
  predicate Sendable(r: Request) {
    SLASH !in r.host && |Frame(RequestPacket(r))| <= CHUNK
  }

  lemma RequestArrives(r: Request, buf: bytes)
    requires Sendable(r) && buf == []
    ensures Decode(buf + Frame(RequestPacket(r))) == Decoded([RequestPacket(r)], [])
    ensures Frame(RequestPacket(r)) != []
    ensures ParseCreateRequest(RequestPacket(r).payload) == Some(r)
  {
    OneFrame(RequestPacket(r));
    assert buf + Frame(RequestPacket(r)) == Frame(RequestPacket(r));
    ParseCreateRequestExact(RequestPacket(r).payload, r);
  }

  /** The state after Run has queued its renewal request, if any. */
  function Started(conf: Config): State {
    var es := if conf.renewal then [Entry(Agent, RenewRequest(conf.identifier))] else [];
    Init(conf).(reader := AtRead, ticker := Idle, queue := es, enqueued := es)
  }

  lemma StartedReachable(conf: Config)
    ensures Reachable(conf, Started(conf))
  {
    assert Path(Init(conf), [], Init(conf));
    ReachableStep(conf, Init(conf), ReaderStep(SendRenewRequest));
    assert Do(Init(conf), ReaderStep(SendRenewRequest)) == Started(conf);
  }

  // ---- A reader blocked for good ----

  /** n keepalives, one tick each. */
  lemma {:induction false} KeepalivesQueue(conf: Config, s: State, n: nat) returns (s': State)
    requires Reachable(conf, s) && s.ticker.Idle? && |s.queue| + n <= QUEUE_CAPACITY
    ensures Reachable(conf, s') && |s'.queue| == |s.queue| + n
    ensures s' == s.(queue := s'.queue, enqueued := s'.enqueued)
    decreases n
  {
    if n == 0 {
      s' := s;
    } else {
      ReachableStep(conf, s, Tick);
      var s1 := Do(s, Tick);
      ReachableStep(conf, s1, SendKeepalive);
      s' := KeepalivesQueue(conf, Do(s1, SendKeepalive), n - 1);
    }
  }

  /** The writer takes a packet and its write fails. */
  lemma WriterFails(conf: Config, s: State) returns (s': State)
    requires Reachable(conf, s) && s.writer.Waiting? && s.queue != []
    ensures Reachable(conf, s')
    ensures s' == s.(queue := s.queue[1..], taken := s.taken + 1, writer := Exited)
  {
    ReachableStep(conf, s, TakePacket);
    var s1 := Do(s, TakePacket);
    ReachableStep(conf, s1, WriteServer(0, true));
    s' := Do(s1, WriteServer(0, true));
    assert s1.writer.rest[..0] == [] && s.wire + [] == s.wire;
  }

  /** A request arrives and is handled. */
  lemma RequestHandled(conf: Config, s: State, r: Request) returns (s': State)
    requires Reachable(conf, s) && s.reader.AtRead? && s.buf == [] && Sendable(r) && s.conf == conf
    ensures Reachable(conf, s')
    ensures var p := RequestPacket(r);
      s' == HandleCreate(s.(inbound := s.inbound + Frame(p), readErr := None, handled := s.handled + [p]),
        p.payload, [], None)
  {
    var p := RequestPacket(r);
    var read := ReaderStep(ReadServer(Frame(p), None));
    RequestArrives(r, s.buf);
    ReachableStep(conf, s, read);
    var s1 := Do(s, read);
    assert s1 == s.(inbound := s.inbound + Frame(p), readErr := None, reader := Handling([p], None));
    ReachableStep(conf, s1, ReaderStep(HandleNext(false)));
    s' := Do(s1, ReaderStep(HandleNext(false)));
    assert [p][1..] == [];
  }

  /** Run can hang: for every configuration and every request its list refuses there is a run
      after which, in every continuation, the reader stays in its send and done stays open. */
  lemma RunCanHang(conf: Config, r: Request) returns (s: State)
    requires Sendable(r) && !Allowed(conf, r.host)
    ensures Reachable(conf, s) && !s.done
    ensures forall steps, s' :: Path(s, steps, s') ==> s'.reader == s.reader && !s'.done
  {
    StartedReachable(conf);
    var s1 := KeepalivesQueue(conf, Started(conf), 1);
    var s2 := WriterFails(conf, s1);
    var s3 := KeepalivesQueue(conf, s2, QUEUE_CAPACITY - |s2.queue|);
    s := RequestHandled(conf, s3, r);
    RequestArrives(r, []);
    forall steps, s' | Path(s, steps, s') ensures s'.reader == s.reader && !s'.done {
      BlockedForever(s, steps, s');
    }
  }

  // ---- A destination left open ----

  lemma Connects(conf: Config, s: State, t: nat) returns (s': State)
    requires Reachable(conf, s) && t < |s.sessions| && s.sessions[t].pc.Dialing? && Room(s)
    ensures Reachable(conf, s')
    ensures var e := Entry(Of(t), CreateResponse(s.sessions[t].id, 0, []));
      s' == s.(queue := s.queue + [e], enqueued := s.enqueued + [e],
        sessions := s.sessions[t := s.sessions[t].(pc := Registering, open := true, answer := Succeeded)])
  {
    ReachableStep(conf, s, SessionStep(t, DialSucceeds));
    var s1 := Do(s, SessionStep(t, DialSucceeds));
    assert s.queue + [] == s.queue && s.enqueued + [] == s.enqueued;
    assert s1 == s.(sessions := s.sessions[t := s.sessions[t].(pc := Connected, open := true)]);
    ReachableStep(conf, s1, SessionStep(t, SendSuccess));
    s' := Do(s1, SessionStep(t, SendSuccess));
  }

  /** The server closes the connection and Run shuts down. */
  lemma Closes(conf: Config, s: State) returns (s': State)
    requires Reachable(conf, s) && s.reader.AtRead? && s.dests == map[]
    ensures Reachable(conf, s')
    ensures s' == s.(done := true, readErr := Some(Eof), reader := Finished(Eof))
  {
    var read := ReaderStep(ReadServer([], Some(Eof)));
    ReachableStep(conf, s, read);
    var s1 := Do(s, read);
    assert s.inbound + [] == s.inbound;
    ReachableStep(conf, s1, ReaderStep(CloseDone));
    var s2 := Do(s1, ReaderStep(CloseDone));
    ReachableStep(conf, s2, ReaderStep(EmptyDests));
    s' := Do(s2, ReaderStep(EmptyDests));
    assert s'.sessions == s.sessions;
  }

  /** Run can return and leave a destination socket open: the goroutine that had sent its
      response registers after the map was emptied. */
  lemma SocketLeftOpen(conf: Config, r: Request) returns (s: State)
    requires Sendable(r) && Allowed(conf, r.host)
    ensures Reachable(conf, s) && s.reader.Finished?
    ensures r.id in s.dests && s.dests[r.id] < |s.sessions| && s.sessions[s.dests[r.id]].open
  {
    StartedReachable(conf);
    RequestArrives(r, []);
    var s1 := RequestHandled(conf, Started(conf), r);
    AllowedIsAddress(conf, r.host);
    assert s1.sessions == [NewSession(r, Dialing)] && s1.reader == AtRead;
    var s2 := Connects(conf, s1, 0);
    var s3 := Closes(conf, s2);
    ReachableStep(conf, s3, SessionStep(0, Register));
    s := Do(s3, SessionStep(0, Register));
  }

  // ---- DATA that comes too early ----

  /** The writer takes and writes everything queued. */
  lemma {:induction false} Drains(conf: Config, s: State) returns (s': State)
    requires Reachable(conf, s) && s.writer.Waiting?
    ensures Reachable(conf, s') && s'.writer.Waiting?
    ensures s' == s.(queue := [], taken := s.taken + |s.queue|, wire := s'.wire)
    decreases |s.queue|
  {
    if s.queue == [] {
      s' := s;
    } else {
      var frame := Frame(s.queue[0].pkt);
      ReachableStep(conf, s, TakePacket);
      var s1 := Do(s, TakePacket);
      assert frame[..|frame|] == frame;
      ReachableStep(conf, s1, WriteServer(|frame|, false));
      s' := Drains(conf, Do(s1, WriteServer(|frame|, false)));
    }
  }

  /** DATA arrives for an id that is not in the map. */
  lemma DataDropped(s: State, id: uint16, data: bytes) returns (steps: seq<Action>, s': State)
    requires s.reader.AtRead? && s.buf == [] && id !in s.dests && |data| <= CHUNK - 5
    ensures Path(s, steps, s')
    ensures var p := Data(id, data);
      s' == s.(inbound := s.inbound + Frame(p), readErr := None, handled := s.handled + [p])
  {
    var p := Data(id, data);
    var read, handle := ReaderStep(ReadServer(Frame(p), None)), ReaderStep(HandleNext(false));
    OneFrame(p);
    assert [] + Frame(p) == Frame(p);
    var s1 := s.(inbound := s.inbound + Frame(p), readErr := None, reader := Handling([p], None));
    assert Enabled(s, read) && Do(s, read) == s1;
    PathSnoc(s, [], s, read);
    HandledAndDropped(s1, id, data);
    PathSnoc(s, [read], s1, handle);
    steps, s' := [read, handle], Do(s1, handle);
    assert [] + [read] == [read] && [read] + [handle] == steps;
  }

  lemma HandledAndDropped(s: State, id: uint16, data: bytes)
    requires s.reader == Handling([Data(id, data)], None) && id !in s.dests
    ensures Enabled(s, ReaderStep(HandleNext(false)))
    ensures Do(s, ReaderStep(HandleNext(false))) == s.(handled := s.handled + [Data(id, data)], reader := AtRead)
  {
    CarriesId(id, data);
    assert [Data(id, data)][1..] == [];
  }

  lemma FirstData(ps: seq<Packet>, id: uint16, data: bytes)
    requires DataFor(ps, id) == []
    ensures DataFor(ps + [Data(id, data)], id) == [data]
  {
    DataForSnoc(ps, Data(id, data), id);
    DataIsFor(id, data);
  }

  /** A request is granted and the response is on the wire; the session is not registered. */
  lemma ResponseSent(conf: Config, r: Request) returns (s: State)
    requires Sendable(r) && Allowed(conf, r.host) && |conf.identifier| <= 65532
    ensures Reachable(conf, s) && CreateResponse(r.id, 0, []) in Decode(s.wire).packets
    ensures s.reader.AtRead? && s.buf == [] && s.dests == map[] && s.handled == [RequestPacket(r)]
    ensures |s.sessions| == 1 && s.sessions[0].pc.Registering? && s.sessions[0].id == r.id
  {
    StartedReachable(conf);
    RequestArrives(r, []);
    AllowedIsAddress(conf, r.host);
    var s1 := RequestHandled(conf, Started(conf), r);
    assert s1.sessions == [NewSession(r, Dialing)];
    var s2 := Connects(conf, s1, 0);
    s := Drains(conf, s2);
    ResponseOnWire(conf, s, r);
  }

  lemma Registers(s: State) returns (s': State)
    requires |s.sessions| == 1 && s.sessions[0].pc.Registering? && |DataFor(s.handled, s.sessions[0].id)| == 1
    ensures Enabled(s, SessionStep(0, Register)) && s' == Do(s, SessionStep(0, Register))
    ensures |s'.sessions| == 1 && s'.sessions[0].pc.Reading? && s'.sessions[0].start == 1
    ensures s'.handled == s.handled
  {
    s' := Do(s, SessionStep(0, Register));
  }

  /** The response is queued before the session is in the map: DATA the server sends on
      receiving it can be lost. The server has the response on the wire and sends the data
      afterwards; the session then registers, and never gets it. */
  lemma EarlyDataLost(conf: Config, r: Request, data: bytes)
    returns (s0: State, steps: seq<Action>, s: State)
    requires Sendable(r) && Allowed(conf, r.host) && |data| <= CHUNK - 5 && |conf.identifier| <= 65532
    ensures Reachable(conf, s0) && CreateResponse(r.id, 0, []) in Decode(s0.wire).packets
    ensures DataFor(s0.handled, r.id) == [] && Path(s0, steps, s)
    ensures |s.sessions| == 1 && s.sessions[0].pc.Reading? && DataFor(s.handled, r.id) == [data]
    ensures forall more, s' :: Path(s, more, s') ==> |s'.sessions| > 0 && s'.sessions[0].start == 1
  {
    s0 := ResponseSent(conf, r);
    var dropped, s1 := DataDropped(s0, r.id, data);
    assert [RequestPacket(r)][..0] == [];
    FirstData(s0.handled, r.id, data);
    s := Registers(s1);
    PathSnoc(s0, dropped, s1, SessionStep(0, Register));
    steps := dropped + [SessionStep(0, Register)];
    LostForGood(conf, s0, steps, s);
  }

  lemma ResponseOnWire(conf: Config, s: State, r: Request)
    requires Reachable(conf, s) && s.writer.Waiting? && s.queue == [] && s.conf == conf
    requires |conf.identifier| <= 65532 && |s.sessions| == 1 && s.sessions[0].answer == Succeeded
    requires |s.enqueued| > 0 && s.enqueued[|s.enqueued| - 1].pkt == CreateResponse(r.id, 0, [])
    ensures CreateResponse(r.id, 0, []) in Decode(s.wire).packets
  {
    WireDecodes(conf, s);
    ReachableQueue(conf, s);
    assert s.enqueued[..s.taken] == s.enqueued;
    assert Packets(s.enqueued)[|s.enqueued| - 1] == CreateResponse(r.id, 0, []);
  }

  lemma LostForGood(conf: Config, s0: State, steps: seq<Action>, s: State)
    requires Reachable(conf, s0) && Path(s0, steps, s) && |s.sessions| == 1
    requires s.sessions[0].pc.Reading? && s.sessions[0].start == 1
    ensures forall more, s' :: Path(s, more, s') ==> |s'.sessions| > 0 && s'.sessions[0].start == 1
  {
    var first :| Path(Init(conf), first, s0);
    PathAppend(Init(conf), first, s0, steps, s);
    ReachableSpeaks(conf, s);
    ReachableMap(conf, s);
    assert SessionInv(s.conf, s.sessions[0]);
    forall more, s' | Path(s, more, s') ensures |s'.sessions| > 0 && s'.sessions[0].start == 1 {
      StartStays(s, 0, more, s');
    }
  }

  // ---- Ids used twice ----

  /** The session language is about sessions: when the server uses an id twice and both
      requests are answered, the packets for the id are not a word of it. */
  lemma ReusedIdBreaksLanguage(conf: Config, r: Request) returns (s: State)
    requires Sendable(r) && Allowed(conf, r.host)
    ensures Reachable(conf, s)
    ensures Follow(PacketsFor(Packets(s.enqueued), r.id), r.id) == None
  {
    StartedReachable(conf);
    RequestArrives(r, []);
    AllowedIsAddress(conf, r.host);
    var s1 := RequestHandled(conf, Started(conf), r);
    var s2 := RequestHandled(conf, s1, r);
    assert s2.sessions == [NewSession(r, Dialing), NewSession(r, Dialing)];
    var s3 := Connects(conf, s2, 0);
    s := Connects(conf, s3, 1);
    assert s.sessions[0].id == r.id == s.sessions[1].id;
    LanguageOfReusedId(conf, s, r.id);
  }
}
