/** Which sockets stay open, and how far the connection's end has come: what shutdown finds
    and what it leaves. */
module TunnelSockets {
  import opened Bytes
  import opened Framing
  import opened Outcomes
  import opened Tunnel
  import opened TunnelQueue
  import opened TunnelReader
  import opened TunnelRouting
  import opened TunnelSessions

  /** Neither the server's DESTROY nor Run's shutdown closed the socket. */
  predicate Spared(sess: Session) {
    !sess.ordered && !sess.swept
  }

  /** A session's socket is spared before its registration, and if it registered after Run had
      emptied the map; until its own read loop ends it is open exactly if it was spared. */
  predicate SocketOk(sess: Session) {
    && (sess.pc.Dialing? || sess.pc.Connected? || sess.pc.Registering? || sess.late ==> Spared(sess))
    && (sess.pc.Connected? || sess.pc.Registering? ==> sess.open)
    && (sess.pc.Reading? || sess.pc.Forwarding? ==> (sess.open <==> Spared(sess)))
  }

  predicate SocketsInv(s: State) {
    && (forall t :: 0 <= t < |s.sessions| ==> SocketOk(s.sessions[t]))
    && (forall t :: 0 <= t < |s.sessions| && s.sessions[t].swept ==> s.reader.Finished?)
  }

  /** done is closed exactly once the read loop is over and Run has gone on; the ticker runs
      from the first read on; a reader handling packets has one left. */
  predicate EndInv(s: State) {
    && (s.done <==> s.reader.DoneClosed? || s.reader.Finished?)
    && (s.ticker.NotStarted? ==> s.reader.Starting?)
    && (s.reader.Handling? ==> s.reader.next != [])
  }

  lemma AfterSocket(sess: Session, a: SessionAct, seen: nat, finished: bool)
    requires Ready(sess, a, true, true) && SocketOk(sess)
    ensures SocketOk(After(sess, a, seen, finished))
    ensures After(sess, a, seen, finished).swept == sess.swept
  {
    match a
    case DialFails(_) =>
    case SendFailure =>
    case SendSuccess =>
    case Register =>
    case ReadDest(_, _) =>
    case Forward =>
    case DropChunk =>
    case SendDestroy =>
    case _ =>
  }

  /** The only sockets the reader closes are of sessions in the map. */
  predicate Closes(s: State, ss': seq<Session>, sweeps: bool) {
    && |s.sessions| <= |ss'|
    && (forall t :: 0 <= t < |s.sessions| ==>
         ClosesAt(s.sessions[t], ss'[t], Current(s, t, s.sessions[t].id), sweeps))
    && (forall t :: |s.sessions| <= t < |ss'| ==>
         !ss'[t].late && !ss'[t].swept && SocketOk(ss'[t]))
  }

  predicate ClosesAt(sess: Session, sess': Session, current: bool, sweeps: bool) {
    && sess'.late == sess.late && (sweeps || sess'.swept == sess.swept)
    && (sess'.pc == sess.pc || sess'.pc.Refused?)
    && (|| (sess'.open == sess.open && sess'.ordered == sess.ordered && sess'.swept == sess.swept)
        || (current && !sess'.open && !Spared(sess')))
  }

  lemma ReaderCloses(s: State, r: ReaderAct)
    requires ReaderReady(s, r) && DestInv(s)
    ensures Closes(s, DoReader(s, r).sessions, r.EmptyDests?)
  {
    if r.HandleNext? {
      var p := s.reader.next[0];
      HandleCloses(s.(handled := s.handled + [p]), p, s.reader.next[1..], s.reader.err, r.renewed);
    } else if r.EmptyDests? {
      ShutdownCloses(s);
    }
  }

  lemma ShutdownCloses(s: State)
    requires DestInv(s)
    ensures Closes(s, CloseAll(s.sessions, s.dests), true)
  {
    forall t | 0 <= t < |s.sessions| && t in s.dests.Values ensures Current(s, t, s.sessions[t].id) {
      var id :| id in s.dests && s.dests[id] == t;
    }
  }

  lemma HandleCloses(s: State, p: Packet, next: seq<Packet>, err: Option<RunResult>, renewed: bool)
    requires DestInv(s)
    ensures Closes(s, Handle(s, p, next, err, renewed).sessions, false)
  {
    if p.cmd == CMD_CREATE_REQUEST {
      CreateCloses(s, p.payload, next, err);
    } else if p.cmd == CMD_DATA {
      DataCloses(s, p.payload, next, err);
    }
  }

  lemma CreateCloses(s: State, payload: bytes, next: seq<Packet>, err: Option<RunResult>)
    ensures Closes(s, HandleCreate(s, payload, next, err).sessions, false)
  {
    CreateSessions(s, payload, next, err);
    var ss' := HandleCreate(s, payload, next, err).sessions;
    if ParseCreateRequest(payload).Some? {
      AddsCloses(s, ss');
    }
  }

  lemma AddsCloses(s: State, ss': seq<Session>)
    requires Adds(s, ss')
    ensures Closes(s, ss', false)
  {
    assert forall t :: 0 <= t < |s.sessions| ==> ss'[t] == ss'[..|s.sessions|][t];
  }

  lemma DataCloses(s: State, payload: bytes, next: seq<Packet>, err: Option<RunResult>)
    ensures Closes(s, HandleData(s, payload, next, err).sessions, false)
  {
  }

  lemma SocketsKept(s: State, a: Action)
    requires Enabled(s, a) && BlockedInv(s) && DestInv(s) && PlacedInv(s) && SocketsInv(s)
    ensures SocketsInv(Do(s, a))
  {
    match a
    case SessionStep(t, act) =>
      AfterSocket(s.sessions[t], act, |DataFor(s.handled, s.sessions[t].id)|, s.reader.Finished?);
    case ReaderStep(r) => SocketsKeptByReader(s, r);
    case _ =>
  }

  lemma SocketsKeptByReader(s: State, r: ReaderAct)
    requires ReaderReady(s, r) && DestInv(s) && PlacedInv(s) && SocketsInv(s)
    ensures SocketsInv(DoReader(s, r))
  {
    var ss' := DoReader(s, r).sessions;
    ReaderCloses(s, r);
    ReaderFinishes(s, r);
    forall t | 0 <= t < |ss'| ensures SocketOk(ss'[t]) && (ss'[t].swept ==> r.EmptyDests?) {
      if t < |s.sessions| {
        var current := Current(s, t, s.sessions[t].id);
        assert SocketOk(s.sessions[t]) && ClosesAt(s.sessions[t], ss'[t], current, r.EmptyDests?);
        assert !s.sessions[t].late && !s.sessions[t].swept;
      }
    }
  }

  /** Run's shutdown sweeps exactly the sessions the map names at that moment. */
  lemma SweptExactly(s: State, t: nat)
    requires SocketsInv(s) && ReaderReady(s, EmptyDests) && t < |s.sessions|
    ensures DoReader(s, EmptyDests).sessions[t].swept <==> t in s.dests.Values
  {
  }

  lemma EndKept(s: State, a: Action)
    requires Enabled(s, a) && EndInv(s)
    ensures EndInv(Do(s, a))
  {
    match a
    case ReaderStep(r) =>
      if r.HandleNext? {
        var p := s.reader.next[0];
        var s1 := s.(handled := s.handled + [p]);
        HandleFrame(s1, p, s.reader.next[1..], s.reader.err, r.renewed);
        VerdictIsVerdict(p, s.conf.renewal, r.renewed);
        HandleFlows(s1, p, s.reader.next[1..], s.reader.err, r.renewed);
      }
    case _ =>
  }
}
