/** What every session keeps: the life cycle of one goroutine, the packets it has put in the
    queue, the bytes it has read, and its place in the map of destinations. */
module TunnelSessions {
  import opened Bytes
  import opened Framing
  import opened Outcomes
  import opened Tunnel
  import opened TunnelQueue

  // ---- One session ----

  predicate Registered(pc: Pc) {
    pc.Reading? || pc.Forwarding? || pc.Closing? || pc.Removing?
  }

  function AnswerOf(pc: Pc): Answer {
    match pc
    case Refused => Failed(DENIED)
    case Registering | Reading | Forwarding(_, _) | Closing | Removing | Ended => Succeeded
    case _ => NoAnswer
  }

  /** Bytes read from the destination but not put in the queue: the chunk in hand, or the one
      dropped at shutdown. */
  function InHand(sess: Session): bytes {
    if sess.pc.Forwarding? then sess.pc.chunk else sess.lost
  }

  predicate Chunks(cs: seq<bytes>) {
    forall i :: 0 <= i < |cs| ==> |cs[i]| <= CHUNK
  }

  /** The life cycle: what the goroutine's position says about its answer and its socket. */
  predicate Cycle(conf: Config, sess: Session) {
    && (if sess.pc.Unreachable? then sess.answer.Failed? else sess.answer == AnswerOf(sess.pc))
    && (sess.destroyed ==> sess.pc.Removing? || sess.pc.Ended?)
    && (sess.open ==> sess.pc.Connected? || sess.pc.Registering? || sess.pc.Reading? || sess.pc.Forwarding?)
    && (sess.pc.Refusing? || sess.pc.Refused? <==> !Allowed(conf, sess.host))
  }

  /** The bytes: everything read is in the forwarded chunks or in hand. */
  predicate BytesInv(sess: Session) {
    && (!sess.answer.Succeeded? ==> sess.forwarded == [] && sess.read == [])
    && (sess.lost != [] ==> sess.pc.Closing? || sess.pc.Removing? || sess.pc.Ended?)
    && sess.read == Flatten(sess.forwarded) + InHand(sess)
    && |InHand(sess)| <= CHUNK && Chunks(sess.forwarded)
  }

  predicate SessionInv(conf: Config, sess: Session) {
    Cycle(conf, sess) && BytesInv(sess)
  }

  lemma AfterKeepsCycle(conf: Config, sess: Session, a: SessionAct, seen: nat, finished: bool)
    requires Cycle(conf, sess) && Ready(sess, a, true, true)
    ensures Cycle(conf, After(sess, a, seen, finished))
    ensures !sess.pc.Refusing? && !After(sess, a, seen, finished).pc.Refusing?
  {
    match a
    case DialFails(_) =>
    case SendFailure =>
    case SendSuccess =>
    case Register =>
    case ReadDest(_, _) =>
    case Forward =>
    case DropChunk =>
    case SendDestroy =>
    case _ =>
  }

  lemma AfterKeepsBytes(conf: Config, sess: Session, a: SessionAct, seen: nat, finished: bool)
    requires SessionInv(conf, sess) && Ready(sess, a, true, true)
    ensures BytesInv(After(sess, a, seen, finished))
  {
    if a.Forward? {
      ForwardKeepsBytes(sess, After(sess, a, seen, finished), sess.pc.chunk);
    } else if a.ReadDest? {
      ReadKeepsBytes(sess, After(sess, a, seen, finished), a.chunk);
    } else {
      OtherKeepsBytes(sess, a, seen, finished);
    }
  }

  lemma ReadKeepsBytes(sess: Session, sess': Session, chunk: bytes)
    requires BytesInv(sess) && sess.pc.Reading? && sess.answer.Succeeded? && |chunk| <= CHUNK
    requires sess' == sess.(read := sess.read + chunk, pc := sess'.pc, open := sess'.open)
    requires if chunk != [] then sess'.pc.Forwarding? && sess'.pc.chunk == chunk
      else sess'.pc.Closing? || sess'.pc.Reading?
    ensures BytesInv(sess')
  {
    assert sess.lost == [] && sess.read == Flatten(sess.forwarded);
    assert Flatten(sess.forwarded) + [] == Flatten(sess.forwarded);
  }

  /** No other step reads or forwards. */
  lemma OtherKeepsBytes(sess: Session, a: SessionAct, seen: nat, finished: bool)
    requires BytesInv(sess) && Ready(sess, a, true, true) && !a.Forward? && !a.ReadDest?
    requires sess.answer == AnswerOf(sess.pc) || sess.pc.Unreachable?
    ensures BytesInv(After(sess, a, seen, finished))
  {
    match a
    case DialFails(_) =>
    case SendFailure =>
    case SendSuccess =>
    case Register =>
    case ReadDest(_, _) =>
    case Forward =>
    case DropChunk =>
    case SendDestroy =>
    case _ =>
  }

  /** Forwarding moves the chunk in hand to the forwarded chunks. */
  lemma ForwardKeepsBytes(sess: Session, sess': Session, chunk: bytes)
    requires BytesInv(sess) && InHand(sess) == chunk && sess.answer.Succeeded?
    requires sess' == sess.(forwarded := sess.forwarded + [chunk], pc := sess'.pc, open := sess'.open)
    requires !sess'.pc.Forwarding? && sess.lost == []
    ensures BytesInv(sess')
  {
    FlattenSnoc(sess.forwarded, chunk);
    assert sess.read == sess.read + [];
  }

  function DataPackets(id: uint16, chunks: seq<bytes>): seq<Packet> {
    seq(|chunks|, i requires 0 <= i < |chunks| => Data(id, chunks[i]))
  }

  function Response(id: uint16, answer: Answer): seq<Packet> {
    match answer
    case NoAnswer => []
    case Failed(reason) => [CreateResponse(id, 1, reason)]
    case Succeeded => [CreateResponse(id, 0, [])]
  }

  /** The packets a session has put in the queue, as its histories tell. */
  function Emitted(sess: Session): seq<Packet> {
    Response(sess.id, sess.answer) + DataPackets(sess.id, sess.forwarded)
    + if sess.destroyed then [Destroy(sess.id)] else []
  }

  function AsSeq(p: Option<Packet>): seq<Packet> {
    match p case Some(pkt) => [pkt] case None => []
  }

  lemma AfterEmits(conf: Config, sess: Session, a: SessionAct, seen: nat, finished: bool)
    requires SessionInv(conf, sess) && Ready(sess, a, true, true)
    ensures Emitted(After(sess, a, seen, finished)) == Emitted(sess) + AsSeq(Emits(sess, a))
  {
    match a
    case Forward =>
      var cs, c := sess.forwarded, sess.pc.chunk;
      assert DataPackets(sess.id, cs + [c]) == DataPackets(sess.id, cs) + [Data(sess.id, c)];
    case _ =>
  }

  // ---- Which sessions a step touches ----

  /** The same session, apart from its socket and what it received. */
  predicate Touched(sess: Session, sess': Session) {
    && sess' == sess.(open := sess'.open, inbox := sess'.inbox, written := sess'.written, intact := sess'.intact,
         ordered := sess'.ordered, swept := sess'.swept)
    && (sess'.open ==> sess.open)
  }

  predicate AllTouched(ss: seq<Session>, ss': seq<Session>) {
    |ss'| == |ss| && forall i :: 0 <= i < |ss| ==> Touched(ss[i], ss'[i])
  }

  /** The reader's steps on the sessions: a new one, the refusal of the last blocked one, or
      changes to sockets and received data only. */
  lemma ReaderSessions(s: State, r: ReaderAct)
    requires ReaderReady(s, r)
    ensures var ss, ss' := s.sessions, DoReader(s, r).sessions;
      || AllTouched(ss, ss')
      || (r.HandleNext? && Adds(s, ss'))
      || r.SendRefusal?
  {
    if r.HandleNext? {
      var p := s.reader.next[0];
      HandleSessions(s.(handled := s.handled + [p]), p, s.reader.next[1..], s.reader.err, r.renewed);
    }
  }

  predicate Adds(s: State, ss': seq<Session>) {
    && |ss'| == |s.sessions| + 1 && ss'[..|s.sessions|] == s.sessions
    && var new' := ss'[|s.sessions|];
    && new' == NewSession(Request(new'.id, new'.host, new'.port), new'.pc)
    && (if Allowed(s.conf, new'.host) then new'.pc.Dialing? else new'.pc.Refusing?)
  }

  lemma HandleSessions(s: State, p: Packet, next: seq<Packet>, err: Option<RunResult>, renewed: bool)
    ensures var ss' := Handle(s, p, next, err, renewed).sessions;
      if p.cmd == CMD_CREATE_REQUEST && ParseCreateRequest(p.payload).Some?
      then Adds(s, ss') else AllTouched(s.sessions, ss')
  {
    if p.cmd == CMD_CREATE_REQUEST {
      CreateSessions(s, p.payload, next, err);
    } else if p.cmd == CMD_DESTROY {
      CloseTouches(s.sessions, s.dests, p.payload);
    } else if p.cmd == CMD_DATA {
      DataTouches(s, p.payload, next, err);
    }
  }

  lemma CreateSessions(s: State, payload: bytes, next: seq<Packet>, err: Option<RunResult>)
    ensures var ss' := HandleCreate(s, payload, next, err).sessions;
      if ParseCreateRequest(payload).Some? then Adds(s, ss') else ss' == s.sessions
  {
  }

  lemma CloseTouches(ss: seq<Session>, dests: map<uint16, nat>, payload: bytes)
    ensures AllTouched(ss, Close(ss, dests, payload))
  {
  }

  lemma DataTouches(s: State, payload: bytes, next: seq<Packet>, err: Option<RunResult>)
    ensures AllTouched(s.sessions, HandleData(s, payload, next, err).sessions)
  {
  }

  // ---- Session invariants, over all sessions ----

  predicate SessionsInv(s: State) {
    forall t :: 0 <= t < |s.sessions| ==> SessionInv(s.conf, s.sessions[t])
  }

  /** A blocked reader holds the refusal of a session that nothing else will touch. */
  predicate BlockedInv(s: State) {
    && (s.reader.Blocked? ==>
        && s.reader.tag < |s.sessions| && s.sessions[s.reader.tag].pc.Refusing?
        && s.reader.reason == DENIED)
    && (forall t :: 0 <= t < |s.sessions| && s.sessions[t].pc.Refusing? ==>
        s.reader.Blocked? && s.reader.tag == t)
  }

  lemma SessionsKept(s: State, a: Action)
    requires Enabled(s, a) && SessionsInv(s) && BlockedInv(s)
    ensures SessionsInv(Do(s, a))
  {
    match a
    case SessionStep(t, act) =>
      var seen := |DataFor(s.handled, s.sessions[t].id)|;
      AfterKeepsCycle(s.conf, s.sessions[t], act, seen, s.reader.Finished?);
      AfterKeepsBytes(s.conf, s.sessions[t], act, seen, s.reader.Finished?);
    case ReaderStep(r) => SessionsKeptByReader(s, r);
    case _ =>
  }

  lemma SessionsKeptByReader(s: State, r: ReaderAct)
    requires ReaderReady(s, r) && SessionsInv(s) && BlockedInv(s)
    ensures SessionsInv(DoReader(s, r))
  {
    var s' := DoReader(s, r);
    ReaderSessions(s, r);
    if r.HandleNext? {
      var p := s.reader.next[0];
      HandleFrame(s.(handled := s.handled + [p]), p, s.reader.next[1..], s.reader.err, r.renewed);
    }
    forall t | 0 <= t < |s'.sessions| ensures SessionInv(s'.conf, s'.sessions[t]) {
      if t < |s.sessions| {
        assert SessionInv(s.conf, s.sessions[t]);
        assert Adds(s, s'.sessions) ==> s'.sessions[t] == s'.sessions[..|s.sessions|][t];
      } else {
        assert Flatten([]) + [] == [];
      }
    }
  }

  lemma BlockedKept(s: State, a: Action)
    requires Enabled(s, a) && SessionsInv(s) && BlockedInv(s)
    ensures BlockedInv(Do(s, a))
  {
    match a
    case SessionStep(t, act) =>
      var sess := s.sessions[t];
      AfterKeepsCycle(s.conf, sess, act, |DataFor(s.handled, sess.id)|, s.reader.Finished?);
    case ReaderStep(r) =>
      if r.HandleNext? {
        var p := s.reader.next[0];
        BlockedKeptByHandle(s.(handled := s.handled + [p]), p, s.reader.next[1..], s.reader.err, r.renewed);
      } else {
        ReaderSessions(s, r);
        BlockedKeptByReader(s, r);
      }
    case _ =>
  }

  lemma BlockedKeptByReader(s: State, r: ReaderAct)
    requires ReaderReady(s, r) && BlockedInv(s) && !r.HandleNext?
    requires AllTouched(s.sessions, DoReader(s, r).sessions) || r.SendRefusal?
    ensures BlockedInv(DoReader(s, r))
  {
  }

  lemma BlockedKeptByHandle(s: State, p: Packet, next: seq<Packet>, err: Option<RunResult>, renewed: bool)
    requires BlockedInv(s) && s.reader.Handling?
    ensures BlockedInv(Handle(s, p, next, err, renewed))
  {
    HandleSessions(s, p, next, err, renewed);
    if p.cmd == CMD_CREATE_REQUEST {
      if ParseCreateRequest(p.payload).Some? {
        AllowedIsAddress(s.conf, ParseCreateRequest(p.payload).value.host);
      }
    } else {
      HandleReader(s, p, next, err, renewed);
    }
  }

  /** Only a CREATE_REQUEST can block the reader in a send of its own. */
  lemma HandleReader(s: State, p: Packet, next: seq<Packet>, err: Option<RunResult>, renewed: bool)
    requires p.cmd != CMD_CREATE_REQUEST || ParseCreateRequest(p.payload).None?
    ensures !Handle(s, p, next, err, renewed).reader.Blocked?
  {
  }

  /** An allowed host always parses as an address: the later check cannot fail. */
  lemma AllowedIsAddress(conf: Config, host: bytes)
    ensures Allowed(conf, host) ==> IsAddress(conf, host)
  {
  }

  // ---- The packets of each session in the queue's history ----

  /** The packets in es that come from a session, in order. */
  function Proj(es: seq<Entry>, tag: nat): seq<Packet> {
    if es == [] then [] else
      var front, e := Proj(es[..|es| - 1], tag), es[|es| - 1];
      if e.origin == Of(tag) then front + [e.pkt] else front
  }

  lemma ProjSnoc(es: seq<Entry>, e: Entry, tag: nat)
    ensures Proj(es + [e], tag) == Proj(es, tag) + if e.origin == Of(tag) then [e.pkt] else []
  {
    assert (es + [e])[..|es|] == es;
  }

  function EmittedBy(ss: seq<Session>, tag: nat): seq<Packet> {
    if tag < |ss| then Emitted(ss[tag]) else []
  }

  predicate EmitInv(s: State) {
    forall t: nat :: t <= |s.sessions| ==> Proj(s.enqueued, t) == EmittedBy(s.sessions, t)
  }

  /** Tags in the queue belong to existing sessions. */
  predicate TagInv(s: State) {
    forall i :: 0 <= i < |s.enqueued| && s.enqueued[i].origin.Of? ==>
      s.enqueued[i].origin.tag < |s.sessions|
  }
}
