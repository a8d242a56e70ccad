/** Routing of the server's packets: which session the map names for an id, what every session
    is handed, and what reaches its socket. */
module TunnelRouting {
  import opened Bytes
  import opened Framing
  import opened Outcomes
  import opened Tunnel
  import opened TunnelQueue
  import opened TunnelReader
  import opened TunnelSessions

  // ---- The map of destinations ----

  /** Every entry names a registered session with that id. */
  predicate DestInv(s: State) {
    forall id :: id in s.dests ==>
      && s.dests[id] < |s.sessions| && s.sessions[s.dests[id]].id == id
      && Registered(s.sessions[s.dests[id]].pc)
  }

  predicate SameIdAndPc(ss: seq<Session>, ss': seq<Session>) {
    |ss| <= |ss'| && forall t :: 0 <= t < |ss| ==> ss'[t].id == ss[t].id && ss'[t].pc == ss[t].pc
  }

  lemma ReaderKeepsPcs(s: State, r: ReaderAct)
    requires ReaderReady(s, r) && !r.SendRefusal?
    ensures SameIdAndPc(s.sessions, DoReader(s, r).sessions)
  {
    var ss' := DoReader(s, r).sessions;
    ReaderSessions(s, r);
    if !AllTouched(s.sessions, ss') {
      forall t | 0 <= t < |s.sessions| ensures ss'[t] == s.sessions[t] {
        assert ss'[t] == ss'[..|s.sessions|][t];
      }
    }
  }

  /** The reader leaves the map alone, except for emptying it. */
  lemma ReaderDests(s: State, r: ReaderAct)
    requires ReaderReady(s, r)
    ensures DoReader(s, r).dests == if r.EmptyDests? then map[] else s.dests
  {
    if r.HandleNext? {
      var p := s.reader.next[0];
      HandleFrame(s.(handled := s.handled + [p]), p, s.reader.next[1..], s.reader.err, r.renewed);
    }
  }

  lemma AfterPc(sess: Session, a: SessionAct, seen: nat, finished: bool)
    requires Ready(sess, a, true, true)
    ensures After(sess, a, seen, finished).id == sess.id
    ensures Registered(After(sess, a, seen, finished).pc)
        <==> a.Register? || (Registered(sess.pc) && !a.Remove?)
  {
    match a
    case DialFails(_) =>
    case SendFailure =>
    case SendSuccess =>
    case Register =>
    case ReadDest(_, _) =>
    case Forward =>
    case DropChunk =>
    case SendDestroy =>
    case _ =>
  }

  lemma DestsKept(s: State, a: Action)
    requires Enabled(s, a) && DestInv(s) && BlockedInv(s)
    ensures DestInv(Do(s, a))
  {
    match a
    case SessionStep(t, act) => DestsKeptBySession(s, t, act);
    case ReaderStep(r) =>
      ReaderDests(s, r);
      if !r.SendRefusal? {
        ReaderKeepsPcs(s, r);
      }
    case _ =>
  }

  lemma DestsKeptBySession(s: State, t: nat, act: SessionAct)
    requires Enabled(s, SessionStep(t, act)) && DestInv(s)
    ensures DestInv(DoSession(s, t, act))
  {
    var s' := DoSession(s, t, act);
    AfterPc(s.sessions[t], act, |DataFor(s.handled, s.sessions[t].id)|, s.reader.Finished?);
    forall id | id in s'.dests
      ensures s'.dests[id] < |s'.sessions| && s'.sessions[s'.dests[id]].id == id
        && Registered(s'.sessions[s'.dests[id]].pc)
    {
      if s'.dests[id] != t {
        assert id in s.dests && s.dests[id] == s'.dests[id];
      }
    }
  }

  // ---- What a session is handed ----

  predicate IsDataFor(p: Packet, id: uint16) {
    p.cmd == CMD_DATA && |p.payload| >= 2 && Get16(p.payload) == id
  }

  lemma DataForSnoc(ps: seq<Packet>, p: Packet, id: uint16)
    ensures DataFor(ps + [p], id) ==
      DataFor(ps, id) + if IsDataFor(p, id) then [p.payload[2..]] else []
  {
    assert (ps + [p])[..|ps|] == ps;
  }

  /** The session has entered the map. */
  predicate Joined(sess: Session) {
    sess.answer.Succeeded? && !sess.pc.Registering?
  }

  /** What a session was handed is the run of DATA packets for its id that starts at its
      registration; while it is in the map, the run reaches the last one handled. */
  predicate InboxOk(data: seq<bytes>, current: bool, sess: Session) {
    if Joined(sess) then
      && sess.start + |sess.inbox| <= |data|
      && sess.inbox == data[sess.start..sess.start + |sess.inbox|]
      && (current ==> sess.start + |sess.inbox| == |data|)
    else sess.inbox == [] && sess.written == []
  }

  predicate Current(s: State, t: nat, id: uint16) {
    id in s.dests && s.dests[id] == t
  }

  predicate InboxInv(s: State) {
    forall t :: 0 <= t < |s.sessions| ==> InboxOkAt(s, t)
  }

  predicate InboxOkAt(s: State, t: nat)
    requires t < |s.sessions|
  {
    InboxOk(DataFor(s.handled, s.sessions[t].id), Current(s, t, s.sessions[t].id), s.sessions[t])
  }


  /** What the reader still has to write to session t. */
  function Rest(reader: Reader, t: nat): bytes {
    if reader.Delivering? && reader.tag == t then reader.rest else []
  }

  /** Unless a write failed, a session's socket has received exactly what it was handed, in
      order, up to what the reader has in hand. */
  predicate WrittenOk(reader: Reader, t: nat, sess: Session) {
    sess.intact ==> sess.written + Rest(reader, t) == Flatten(sess.inbox)
  }

  predicate DeliveryInv(s: State) {
    && (s.reader.Delivering? ==>
        s.reader.tag < |s.sessions| && Joined(s.sessions[s.reader.tag]))
    && forall t :: 0 <= t < |s.sessions| ==> WrittenOk(s.reader, t, s.sessions[t])
  }

  lemma AfterInbox(sess: Session, a: SessionAct, data: seq<bytes>, current: bool, current': bool, finished: bool)
    requires Ready(sess, a, true, true) && InboxOk(data, current, sess)
    requires sess.answer == AnswerOf(sess.pc) || sess.pc.Unreachable?
    requires current' ==> current || a.Register?
    ensures InboxOk(data, current', After(sess, a, |data|, finished))
  {
    if a.Register? {
      assert data[|data|..|data|] == [];
    }
  }

  lemma AfterReceived(sess: Session, a: SessionAct, seen: nat, finished: bool)
    requires Ready(sess, a, true, true)
    ensures var sess' := After(sess, a, seen, finished);
      && sess'.inbox == sess.inbox && sess'.written == sess.written && sess'.intact == sess.intact
      && sess'.id == sess.id
  {
    match a
    case DialFails(_) =>
    case SendFailure =>
    case SendSuccess =>
    case Register =>
    case ReadDest(_, _) =>
    case Forward =>
    case DropChunk =>
    case SendDestroy =>
    case _ =>
  }

  lemma InboxKept(s: State, a: Action)
    requires Enabled(s, a) && SessionsInv(s) && BlockedInv(s) && DestInv(s) && InboxInv(s)
    requires DeliveryInv(s)
    ensures InboxInv(Do(s, a))
  {
    match a
    case SessionStep(t, act) => InboxKeptBySession(s, t, act);
    case ReaderStep(r) =>
      if r.HandleNext? {
        InboxKeptByHandle(s, r.renewed);
      } else {
        InboxKeptByReader(s, r);
      }
    case _ => InboxUnmoved(s, Do(s, a));
  }

  lemma InboxUnmoved(s: State, s': State)
    requires s'.handled == s.handled && s'.dests == s.dests && s'.sessions == s.sessions
    requires InboxInv(s)
    ensures InboxInv(s')
  {
    assert forall t :: 0 <= t < |s.sessions| ==> (InboxOkAt(s', t) <==> InboxOkAt(s, t));
  }

  lemma InboxKeptBySession(s: State, t: nat, act: SessionAct)
    requires Enabled(s, SessionStep(t, act)) && SessionsInv(s) && InboxInv(s)
    ensures InboxInv(DoSession(s, t, act))
  {
    var s' := DoSession(s, t, act);
    forall u | 0 <= u < |s'.sessions| ensures InboxOkAt(s', u) {
      assert InboxOkAt(s, u);
      if u == t {
        InboxOfStepper(s, t, act);
      } else {
        InboxOfOther(s, t, act, u);
      }
    }
  }

  lemma InboxOfStepper(s: State, t: nat, act: SessionAct)
    requires Enabled(s, SessionStep(t, act)) && InboxOkAt(s, t) && SessionInv(s.conf, s.sessions[t])
    ensures InboxOkAt(DoSession(s, t, act), t)
  {
    var s' := DoSession(s, t, act);
    var sess := s.sessions[t];
    var data := DataFor(s.handled, sess.id);
    AfterReceived(sess, act, |data|, s.reader.Finished?);
    AfterInbox(sess, act, data, Current(s, t, sess.id), Current(s', t, sess.id), s.reader.Finished?);
  }

  lemma InboxOfOther(s: State, t: nat, act: SessionAct, u: nat)
    requires Enabled(s, SessionStep(t, act)) && u < |s.sessions| && u != t && InboxOkAt(s, u)
    ensures InboxOkAt(DoSession(s, t, act), u)
  {
    assert Current(DoSession(s, t, act), u, s.sessions[u].id) ==> Current(s, u, s.sessions[u].id);
  }

  predicate SameInbox(sess: Session, sess': Session) {
    && sess'.id == sess.id && sess'.start == sess.start && sess'.inbox == sess.inbox
    && Joined(sess') == Joined(sess)
    && (sess'.written == sess.written || Joined(sess))
  }

  lemma ReaderKeepsInboxes(s: State, r: ReaderAct)
    requires ReaderReady(s, r) && !r.HandleNext? && BlockedInv(s) && SessionsInv(s) && DeliveryInv(s)
    ensures var ss, ss' := s.sessions, DoReader(s, r).sessions;
      |ss'| == |ss| && forall t :: 0 <= t < |ss| ==> SameInbox(ss[t], ss'[t])
  {
    if r.SendRefusal? {
      assert SessionInv(s.conf, s.sessions[s.reader.tag]);
    }
  }

  lemma InboxKeptByReader(s: State, r: ReaderAct)
    requires ReaderReady(s, r) && !r.HandleNext? && SessionsInv(s) && BlockedInv(s)
    requires InboxInv(s) && DeliveryInv(s)
    ensures InboxInv(DoReader(s, r))
  {
    var s' := DoReader(s, r);
    ReaderDests(s, r);
    ReaderKeepsInboxes(s, r);
    forall t | 0 <= t < |s'.sessions| ensures InboxOkAt(s', t) {
      assert InboxOkAt(s, t) && SameInbox(s.sessions[t], s'.sessions[t]);
      assert s'.handled == s.handled;
    }
  }

  lemma InboxKeptByHandle(s: State, renewed: bool)
    requires ReaderReady(s, HandleNext(renewed)) && SessionsInv(s) && DestInv(s) && InboxInv(s)
    ensures InboxInv(DoReader(s, HandleNext(renewed)))
  {
    var p := s.reader.next[0];
    var s1 := s.(handled := s.handled + [p]);
    var s' := DoReader(s, HandleNext(renewed));
    HandleFrame(s1, p, s.reader.next[1..], s.reader.err, renewed);
    HandleInboxes(s1, p, s.reader.next[1..], s.reader.err, renewed);
    forall t | 0 <= t < |s'.sessions| ensures InboxOkAt(s', t) {
      if t < |s.sessions| {
        assert InboxOkAt(s, t);
        InboxOfHandled(s, s', p, t);
      }
    }
  }

  lemma InboxOfHandled(s: State, s': State, p: Packet, t: nat)
    requires t < |s.sessions| <= |s'.sessions| && InboxOkAt(s, t)
    requires s'.handled == s.handled + [p] && s'.dests == s.dests
    requires HandedOn(p, Current(s, t, s.sessions[t].id), s.sessions[t], s'.sessions[t])
    requires SessionsInv(s) && DestInv(s)
    ensures InboxOkAt(s', t)
  {
    var sess := s.sessions[t];
    DataForSnoc(s.handled, p, sess.id);
    assert SessionInv(s.conf, sess);
    InboxGrows(DataFor(s.handled, sess.id), p, Current(s, t, sess.id), sess, s'.sessions[t]);
  }

  /** Handling p hands its payload to the session the map names, and to no other. */
  lemma HandleInboxes(s: State, p: Packet, next: seq<Packet>, err: Option<RunResult>, renewed: bool)
    requires DestInv(s)
    ensures var ss' := Handle(s, p, next, err, renewed).sessions;
      && |s.sessions| <= |ss'|
      && (forall t :: 0 <= t < |s.sessions| ==>
           HandedOn(p, Current(s, t, s.sessions[t].id), s.sessions[t], ss'[t]))
      && (forall t :: |s.sessions| <= t < |ss'| ==>
           ss'[t].answer == NoAnswer && ss'[t].inbox == [] && ss'[t].written == [])
  {
    HandleSessions(s, p, next, err, renewed);
    if p.cmd == CMD_DATA {
      DataInboxes(s, p, next, err);
    } else if p.cmd == CMD_CREATE_REQUEST {
      CreateInboxes(s, p.payload, next, err);
    }
  }

  /** The session after a packet was handled: same progress, and handed the payload if the
      packet is DATA for it. */
  predicate HandedOn(p: Packet, current: bool, sess: Session, sess': Session) {
    && sess' == sess.(open := sess'.open, ordered := sess'.ordered, inbox := sess'.inbox)
    && sess'.inbox == sess.inbox + if current && IsDataFor(p, sess.id) then [p.payload[2..]] else []
  }

  lemma DataInboxes(s: State, p: Packet, next: seq<Packet>, err: Option<RunResult>)
    requires DestInv(s) && p.cmd == CMD_DATA
    ensures var ss' := HandleData(s, p.payload, next, err).sessions;
      && |s.sessions| == |ss'|
      && forall t :: 0 <= t < |s.sessions| ==>
           HandedOn(p, Current(s, t, s.sessions[t].id), s.sessions[t], ss'[t])
  {
  }

  lemma CreateInboxes(s: State, payload: bytes, next: seq<Packet>, err: Option<RunResult>)
    ensures var ss' := HandleCreate(s, payload, next, err).sessions;
      && |s.sessions| <= |ss'| && ss'[..|s.sessions|] == s.sessions
      && (forall t :: 0 <= t < |s.sessions| ==> ss'[t] == s.sessions[t])
      && (forall t :: |s.sessions| <= t < |ss'| ==>
           ss'[t].answer == NoAnswer && ss'[t].inbox == [] && ss'[t].written == [])
  {
  }

  lemma InboxGrows(data: seq<bytes>, p: Packet, current: bool, sess: Session, sess': Session)
    requires InboxOk(data, current, sess) && HandedOn(p, current, sess, sess')
    requires current ==> Joined(sess)
    ensures InboxOk(data + if IsDataFor(p, sess.id) then [p.payload[2..]] else [], current, sess')
  {
  }

  // ---- What reaches the socket ----

  lemma DeliveryKept(s: State, a: Action)
    requires Enabled(s, a) && SessionsInv(s) && BlockedInv(s) && DestInv(s) && DeliveryInv(s)
    ensures DeliveryInv(Do(s, a))
  {
    match a
    case SessionStep(t, act) =>
      DeliveryKeptBySession(s, t, act);
    case ReaderStep(r) =>
      if r.HandleNext? {
        DeliveryKeptByHandle(s, r.renewed);
      } else if r.WriteDest? {
        DeliveryKeptByWrite(s, r.n, r.failed);
      } else {
        DeliveryKeptByReader(s, r);
      }
    case _ =>
  }

  /** A session that has joined stays joined. */
  lemma AfterJoined(conf: Config, sess: Session, a: SessionAct, seen: nat, finished: bool)
    requires SessionInv(conf, sess) && Ready(sess, a, true, true) && Joined(sess)
    ensures Joined(After(sess, a, seen, finished))
  {
    match a
    case DialFails(_) =>
    case SendFailure =>
    case SendSuccess =>
    case Register =>
    case ReadDest(_, _) =>
    case Forward =>
    case DropChunk =>
    case SendDestroy =>
    case _ =>
  }

  lemma DeliveryKeptBySession(s: State, t: nat, act: SessionAct)
    requires Enabled(s, SessionStep(t, act)) && SessionsInv(s) && DeliveryInv(s)
    ensures DeliveryInv(DoSession(s, t, act))
  {
    var s' := DoSession(s, t, act);
    var sess := s.sessions[t];
    var sess' := After(sess, act, |DataFor(s.handled, sess.id)|, s.reader.Finished?);
    AfterReceived(sess, act, |DataFor(s.handled, sess.id)|, s.reader.Finished?);
    assert SessionInv(s.conf, sess);
    if Joined(sess) {
      AfterJoined(s.conf, sess, act, |DataFor(s.handled, sess.id)|, s.reader.Finished?);
    }
    DeliveryUpdate(s, s', t, sess');
  }

  lemma DeliveryUpdate(s: State, s': State, t: nat, sess': Session)
    requires DeliveryInv(s) && t < |s.sessions| && s'.sessions == s.sessions[t := sess'] && s'.reader == s.reader
    requires sess'.inbox == s.sessions[t].inbox && sess'.written == s.sessions[t].written
    requires sess'.intact == s.sessions[t].intact && (Joined(s.sessions[t]) ==> Joined(sess'))
    ensures DeliveryInv(s')
  {
    forall u | 0 <= u < |s'.sessions| ensures WrittenOk(s'.reader, u, s'.sessions[u]) {
      assert WrittenOk(s.reader, u, s.sessions[u]);
    }
  }

  lemma DeliveryKeptByWrite(s: State, n: nat, failed: bool)
    requires ReaderReady(s, WriteDest(n, failed)) && DeliveryInv(s)
    ensures DeliveryInv(DoReader(s, WriteDest(n, failed)))
  {
    var t, rest := s.reader.tag, s.reader.rest;
    assert WrittenOk(s.reader, t, s.sessions[t]);
    assert (s.sessions[t].written + rest[..n]) + rest[n..] == s.sessions[t].written + rest;
    var s' := DoReader(s, WriteDest(n, failed));
    assert n == |rest| ==> rest[n..] == [];
    assert s.sessions[t].written + rest[..n] + [] == s.sessions[t].written + rest[..n];
    forall u | 0 <= u < |s'.sessions| ensures WrittenOk(s'.reader, u, s'.sessions[u]) {
      assert WrittenOk(s.reader, u, s.sessions[u]);
    }
  }

  lemma DeliveryKeptByReader(s: State, r: ReaderAct)
    requires ReaderReady(s, r) && !r.HandleNext? && !r.WriteDest? && DeliveryInv(s) && BlockedInv(s)
    ensures DeliveryInv(DoReader(s, r))
  {
    var s' := DoReader(s, r);
    assert !s.reader.Delivering? && !s'.reader.Delivering?;
    forall u | 0 <= u < |s'.sessions| ensures WrittenOk(s'.reader, u, s'.sessions[u]) {
      assert WrittenOk(s.reader, u, s.sessions[u]);
    }
  }

  lemma DeliveryKeptByHandle(s: State, renewed: bool)
    requires ReaderReady(s, HandleNext(renewed)) && SessionsInv(s) && DestInv(s) && DeliveryInv(s)
    ensures DeliveryInv(DoReader(s, HandleNext(renewed)))
  {
    var p := s.reader.next[0];
    var s1 := s.(handled := s.handled + [p]);
    var s' := DoReader(s, HandleNext(renewed));
    HandleInboxes(s1, p, s.reader.next[1..], s.reader.err, renewed);
    HandleRest(s1, p, s.reader.next[1..], s.reader.err, renewed);
    forall t | 0 <= t < |s'.sessions| ensures WrittenOk(s'.reader, t, s'.sessions[t]) {
      if t < |s.sessions| {
        assert WrittenOk(s.reader, t, s.sessions[t]);
        WrittenGrows(s.reader, s'.reader, t, p, Current(s, t, s.sessions[t].id), s.sessions[t], s'.sessions[t]);
      }
    }
    if s'.reader.Delivering? {
      assert SessionInv(s.conf, s.sessions[s'.reader.tag]);
    }
  }

  /** What session t gets of packet p. */
  function Given(s: State, t: nat, p: Packet): bytes
    requires t < |s.sessions|
  {
    if Current(s, t, s.sessions[t].id) && IsDataFor(p, s.sessions[t].id) then p.payload[2..] else []
  }

  /** After DATA the reader has the payload in hand for the session the map names. */
  lemma HandleRest(s: State, p: Packet, next: seq<Packet>, err: Option<RunResult>, renewed: bool)
    requires DestInv(s) && !s.reader.Delivering?
    ensures HandsOn(s, p, Handle(s, p, next, err, renewed).reader)
  {
    if p.cmd == CMD_DATA {
      DataRest(s, p, next, err);
    } else {
      NoRest(s, p, next, err, renewed);
    }
  }

  ghost predicate HandsOn(s: State, p: Packet, reader: Reader) {
    && (forall t :: 0 <= t < |s.sessions| ==> Rest(reader, t) == Given(s, t, p))
    && (forall t :: |s.sessions| <= t ==> Rest(reader, t) == [])
    && (reader.Delivering? ==> reader.tag < |s.sessions| && Registered(s.sessions[reader.tag].pc))
  }

  lemma DataRest(s: State, p: Packet, next: seq<Packet>, err: Option<RunResult>)
    requires DestInv(s) && p.cmd == CMD_DATA
    ensures HandsOn(s, p, HandleData(s, p.payload, next, err).reader)
  {
  }

  lemma NoRest(s: State, p: Packet, next: seq<Packet>, err: Option<RunResult>, renewed: bool)
    requires p.cmd != CMD_DATA
    ensures HandsOn(s, p, Handle(s, p, next, err, renewed).reader)
  {
  }

  lemma WrittenGrows(reader: Reader, reader': Reader, t: nat, p: Packet, current: bool, sess: Session, sess': Session)
    requires WrittenOk(reader, t, sess) && Rest(reader, t) == [] && HandedOn(p, current, sess, sess')
    requires Rest(reader', t) == if current && IsDataFor(p, sess.id) then p.payload[2..] else []
    ensures WrittenOk(reader', t, sess')
  {
    assert sess.written + [] == sess.written && sess.inbox + [] == sess.inbox;
    if current && IsDataFor(p, sess.id) {
      FlattenSnoc(sess.inbox, p.payload[2..]);
    }
  }

  // ---- Ids not reused ----

  predicate Distinct(ss: seq<Session>) {
    forall i, j :: 0 <= i < j < |ss| ==> ss[i].id != ss[j].id
  }

  /** A registered session is the one the map names for its id, until Run empties the map:
      then its socket is closed, unless it registered afterwards. */
  predicate Placed(s: State, t: nat)
    requires t < |s.sessions|
  {
    var sess := s.sessions[t];
    Registered(sess.pc) ==>
      if s.reader.Finished? && !sess.late then !sess.open else Current(s, t, sess.id)
  }

  predicate PlacedInv(s: State) {
    && (forall t :: 0 <= t < |s.sessions| && s.sessions[t].late ==> s.reader.Finished?)
    && (Distinct(s.sessions) ==> forall t :: 0 <= t < |s.sessions| ==> Placed(s, t))
  }

  lemma PlacedKept(s: State, a: Action)
    requires Enabled(s, a) && BlockedInv(s) && DestInv(s) && PlacedInv(s)
    ensures PlacedInv(Do(s, a))
  {
    match a
    case SessionStep(t, act) => PlacedKeptBySession(s, t, act);
    case ReaderStep(r) => PlacedKeptByReader(s, r);
    case _ =>
      assert Distinct(s.sessions) ==> forall t :: 0 <= t < |s.sessions| ==> (Placed(Do(s, a), t) <==> Placed(s, t));
  }

  lemma AfterPlace(sess: Session, a: SessionAct, seen: nat, finished: bool)
    requires Ready(sess, a, true, true)
    ensures var sess' := After(sess, a, seen, finished);
      && sess'.id == sess.id && (sess'.open ==> sess.open || a.DialSucceeds?)
      && sess'.late == if a.Register? then finished else sess.late
  {
    match a
    case DialFails(_) =>
    case SendFailure =>
    case SendSuccess =>
    case Register =>
    case ReadDest(_, _) =>
    case Forward =>
    case DropChunk =>
    case SendDestroy =>
    case _ =>
  }

  lemma PlacedKeptBySession(s: State, t: nat, act: SessionAct)
    requires Enabled(s, SessionStep(t, act)) && PlacedInv(s)
    ensures PlacedInv(DoSession(s, t, act))
  {
    var s' := DoSession(s, t, act);
    var sess := s.sessions[t];
    AfterPlace(sess, act, |DataFor(s.handled, sess.id)|, s.reader.Finished?);
    AfterPc(sess, act, |DataFor(s.handled, sess.id)|, s.reader.Finished?);
    PlacedUpdate(s, s', t, act, After(sess, act, |DataFor(s.handled, sess.id)|, s.reader.Finished?));
  }

  lemma PlacedUpdate(s: State, s': State, t: nat, act: SessionAct, sess': Session)
    requires PlacedInv(s) && t < |s.sessions| && s'.sessions == s.sessions[t := sess'] && s'.reader == s.reader
    requires var sess := s.sessions[t];
      && s'.dests == DestsAfter(s.dests, sess.id, t, act)
      && sess'.id == sess.id && (sess'.open ==> sess.open || act.DialSucceeds?)
      && sess'.late == (if act.Register? then s.reader.Finished? else sess.late)
      && (Registered(sess'.pc) <==> act.Register? || (Registered(sess.pc) && !act.Remove?))
      && (act.DialSucceeds? ==> !Registered(sess'.pc))
    ensures PlacedInv(s')
  {
    if Distinct(s'.sessions) {
      assert Distinct(s.sessions) by {
        assert forall i :: 0 <= i < |s.sessions| ==> s'.sessions[i].id == s.sessions[i].id;
      }
      forall u | 0 <= u < |s'.sessions| ensures Placed(s', u) {
        assert Placed(s, u);
        assert u != t ==> s.sessions[u].id != s.sessions[t].id;
      }
    }
  }

  lemma PlacedKeptByReader(s: State, r: ReaderAct)
    requires ReaderReady(s, r) && BlockedInv(s) && DestInv(s) && PlacedInv(s)
    ensures PlacedInv(DoReader(s, r))
  {
    var s' := DoReader(s, r);
    ReaderDests(s, r);
    ReaderPlaces(s, r);
    ReaderFinishes(s, r);
    if Distinct(s'.sessions) {
      assert Distinct(s.sessions);
      forall u | 0 <= u < |s'.sessions| ensures Placed(s', u) {
        if u < |s.sessions| {
          assert Placed(s, u) && KeepsPlace(s.sessions[u], s'.sessions[u]);
          if r.EmptyDests? && Registered(s.sessions[u].pc) {
            assert s.dests[s.sessions[u].id] == u && u in s.dests.Values;
          }
        }
      }
    }
  }

  predicate KeepsPlace(sess: Session, sess': Session) {
    && sess'.id == sess.id && Registered(sess'.pc) == Registered(sess.pc)
    && sess'.late == sess.late && (sess'.open ==> sess.open)
  }

  predicate KeepsPlaces(ss: seq<Session>, ss': seq<Session>) {
    && |ss| <= |ss'|
    && (forall u :: 0 <= u < |ss| ==> KeepsPlace(ss[u], ss'[u]))
    && (forall u :: |ss| <= u < |ss'| ==> !Registered(ss'[u].pc) && !ss'[u].late)
  }

  lemma ReaderPlaces(s: State, r: ReaderAct)
    requires ReaderReady(s, r) && BlockedInv(s)
    ensures KeepsPlaces(s.sessions, DoReader(s, r).sessions)
  {
    ReaderSessions(s, r);
    var ss' := DoReader(s, r).sessions;
    if Adds(s, ss') {
      AddsKeepsPlaces(s, ss');
    }
  }

  lemma AddsKeepsPlaces(s: State, ss': seq<Session>)
    requires Adds(s, ss')
    ensures KeepsPlaces(s.sessions, ss')
  {
    assert forall u :: 0 <= u < |s.sessions| ==> ss'[u] == ss'[..|s.sessions|][u];
  }

  lemma ReaderFinishes(s: State, r: ReaderAct)
    requires ReaderReady(s, r)
    ensures (DoReader(s, r).reader.Finished? <==> r.EmptyDests?) && !s.reader.Finished?
  {
    if r.HandleNext? {
      VerdictIsVerdict(s.reader.next[0], s.conf.renewal, r.renewed);
      HandleFlows(s.(handled := s.handled + [s.reader.next[0]]), s.reader.next[0],
        s.reader.next[1..], s.reader.err, r.renewed);
    }
  }
}
