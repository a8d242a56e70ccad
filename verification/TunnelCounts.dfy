/** Conservation of requests: every well-formed CREATE_REQUEST handled has been answered once,
    or is waiting in the reader's own send, or its goroutine is not yet at its response, or it
    was given up at shutdown. */
module TunnelCounts {
  import opened Bytes
  import opened Framing
  import opened Outcomes
  import opened Tunnel
  import opened TunnelQueue
  import opened TunnelSessions

  datatype Stage = AwaitingReader | Undecided | GivenUp | Answered

  function StageOf(pc: Pc): Stage {
    match pc
    case Refusing => AwaitingReader
    case Dialing | DialFailed(_) | Connected => Undecided
    case Abandoned => GivenUp
    case _ => Answered
  }

  function CountStage(ss: seq<Session>, st: Stage): nat {
    if ss == [] then 0
    else CountStage(ss[..|ss| - 1], st) + One(StageOf(ss[|ss| - 1].pc) == st)
  }

  function One(b: bool): nat {
    if b then 1 else 0
  }

  /** CREATE_RESPONSE packets in the queue's history. */
  function Responses(es: seq<Entry>): nat {
    if es == [] then 0
    else Responses(es[..|es| - 1]) + One(es[|es| - 1].pkt.cmd == CMD_CREATE_RESPONSE)
  }

  function RequestIn(p: Packet): Option<Request> {
    if p.cmd == CMD_CREATE_REQUEST then ParseCreateRequest(p.payload) else None
  }

  /** The well-formed CREATE_REQUESTs among the handled packets, in order. */
  function Requests(ps: seq<Packet>): seq<Request> {
    if ps == [] then [] else
      var front := Requests(ps[..|ps| - 1]);
      match RequestIn(ps[|ps| - 1])
      case Some(r) => front + [r]
      case None => front
  }

  /** What each session was asked for. */
  function Asked(ss: seq<Session>): seq<Request> {
    seq(|ss|, t requires 0 <= t < |ss| => Request(ss[t].id, ss[t].host, ss[t].port))
  }

  predicate CountInv(s: State) {
    && Requests(s.handled) == Asked(s.sessions)
    && Responses(s.enqueued) == CountStage(s.sessions, Answered)
    && CountStage(s.sessions, AwaitingReader) == One(s.reader.Blocked?)
    && (forall t :: 0 <= t < |s.sessions| && s.sessions[t].pc.Abandoned? ==> s.done)
  }

  // ---- Counting lemmas ----

  lemma CountSnoc(ss: seq<Session>, x: Session, st: Stage)
    ensures CountStage(ss + [x], st) == CountStage(ss, st) + One(StageOf(x.pc) == st)
  {
    assert (ss + [x])[..|ss|] == ss;
  }

  lemma {:induction false} CountUpdate(ss: seq<Session>, t: nat, x: Session, st: Stage)
    requires t < |ss|
    ensures CountStage(ss[t := x], st) + One(StageOf(ss[t].pc) == st)
         == CountStage(ss, st) + One(StageOf(x.pc) == st)
  {
    var n := |ss| - 1;
    if t == n {
      assert ss[t := x][..n] == ss[..n];
    } else {
      assert ss[t := x][..n] == ss[..n][t := x];
      CountUpdate(ss[..n], t, x, st);
    }
  }

  lemma {:induction false} CountTouched(ss: seq<Session>, ss': seq<Session>, st: Stage)
    requires AllTouched(ss, ss')
    ensures CountStage(ss', st) == CountStage(ss, st)
  {
    if ss != [] {
      CountTouched(ss[..|ss| - 1], ss'[..|ss| - 1], st);
    }
  }

  /** The four stages partition the sessions. */
  lemma {:induction false} Partition(ss: seq<Session>)
    ensures |ss| == CountStage(ss, AwaitingReader) + CountStage(ss, Undecided)
                  + CountStage(ss, GivenUp) + CountStage(ss, Answered)
  {
    if ss != [] {
      Partition(ss[..|ss| - 1]);
    }
  }

  lemma ResponsesSnoc(es: seq<Entry>, e: Entry)
    ensures Responses(es + [e]) == Responses(es) + One(e.pkt.cmd == CMD_CREATE_RESPONSE)
  {
    assert (es + [e])[..|es|] == es;
  }

  lemma ResponsesQueued(es: seq<Entry>, o: Origin, p: Option<Packet>)
    ensures Responses(es + Queued(o, p))
      == Responses(es) + One(p.Some? && p.value.cmd == CMD_CREATE_RESPONSE)
  {
    match p
    case None => assert es + [] == es;
    case Some(pkt) => ResponsesSnoc(es, Entry(o, pkt));
  }

  lemma RequestsSnoc(ps: seq<Packet>, p: Packet)
    ensures Requests(ps + [p]) == Requests(ps)
      + match RequestIn(p) case Some(r) => [r] case None => []
  {
    assert (ps + [p])[..|ps|] == ps;
  }

  // ---- Preservation ----

  lemma CountKept(s: State, a: Action)
    requires Enabled(s, a) && BlockedInv(s) && CountInv(s)
    ensures CountInv(Do(s, a))
  {
    match a
    case SessionStep(t, act) => CountKeptBySession(s, t, act);
    case SendKeepalive => ResponsesSnoc(s.enqueued, Entry(Agent, Keepalive()));
    case ReaderStep(r) =>
      if r.HandleNext? {
        CountKeptByHandle(s, r.renewed);
      } else if r.SendRefusal? {
        CountKeptByRefusal(s);
      } else {
        CountKeptByReader(s, r);
      }
    case _ =>
  }

  /** A session's step answers it, gives it up, or keeps its stage. */
  lemma AfterStage(sess: Session, a: SessionAct, seen: nat, finished: bool)
    requires Ready(sess, a, true, true)
    ensures var st, st' := StageOf(sess.pc), StageOf(After(sess, a, seen, finished).pc);
      var responds := Emits(sess, a).Some? && Emits(sess, a).value.cmd == CMD_CREATE_RESPONSE;
      && st != AwaitingReader
      && (if responds then st == Undecided && st' == Answered
          else if a.GiveUp? then st == Undecided && st' == GivenUp
          else st' == st)
      && (After(sess, a, seen, finished).pc.Abandoned? ==> a.GiveUp?)
  {
    match a
    case DialFails(_) =>
    case SendFailure =>
    case SendSuccess =>
    case Register =>
    case ReadDest(_, _) =>
    case Forward =>
    case DropChunk =>
    case SendDestroy =>
    case _ =>
  }

  lemma AfterAsked(sess: Session, a: SessionAct, seen: nat, finished: bool)
    requires Ready(sess, a, true, true)
    ensures SameRequest(sess, After(sess, a, seen, finished))
  {
    match a
    case DialFails(_) =>
    case SendFailure =>
    case SendSuccess =>
    case Register =>
    case ReadDest(_, _) =>
    case Forward =>
    case DropChunk =>
    case SendDestroy =>
    case _ =>
  }

  predicate SameRequest(sess: Session, sess': Session) {
    sess'.id == sess.id && sess'.host == sess.host && sess'.port == sess.port
  }

  lemma CountKeptBySession(s: State, t: nat, act: SessionAct)
    requires Enabled(s, SessionStep(t, act)) && CountInv(s)
    ensures CountInv(DoSession(s, t, act))
  {
    var sess := s.sessions[t];
    var seen, finished := |DataFor(s.handled, sess.id)|, s.reader.Finished?;
    var sess' := After(sess, act, seen, finished);
    AfterStage(sess, act, seen, finished);
    AfterAsked(sess, act, seen, finished);
    CountsUpdate(s, DoSession(s, t, act), t, sess', Emits(sess, act));
  }

  predicate Responds(p: Option<Packet>) {
    p.Some? && p.value.cmd == CMD_CREATE_RESPONSE
  }

  /** One session moves on and queues p: the counts follow. */
  lemma CountsUpdate(s: State, s': State, t: nat, sess': Session, p: Option<Packet>)
    requires CountInv(s) && t < |s.sessions| && SameRequest(s.sessions[t], sess')
    requires s'.sessions == s.sessions[t := sess'] && s'.enqueued == s.enqueued + Queued(Of(t), p)
    requires s'.handled == s.handled && s'.reader.Blocked? == s.reader.Blocked? && s'.done == s.done
    requires StageOf(s.sessions[t].pc) != AwaitingReader && StageOf(sess'.pc) != AwaitingReader
    requires One(Responds(p)) + One(StageOf(s.sessions[t].pc) == Answered) == One(StageOf(sess'.pc) == Answered)
    requires sess'.pc.Abandoned? ==> s.done
    ensures CountInv(s')
  {
    CountUpdate(s.sessions, t, sess', Answered);
    CountUpdate(s.sessions, t, sess', AwaitingReader);
    ResponsesQueued(s.enqueued, Of(t), p);
    AskedUpdate(s.sessions, t, sess');
  }

  lemma AskedUpdate(ss: seq<Session>, t: nat, sess': Session)
    requires t < |ss| && SameRequest(ss[t], sess')
    ensures Asked(ss[t := sess']) == Asked(ss)
  {
  }

  lemma CountKeptByRefusal(s: State)
    requires ReaderReady(s, SendRefusal) && BlockedInv(s) && CountInv(s)
    ensures CountInv(DoReader(s, SendRefusal))
  {
    var t := s.reader.tag;
    var s' := DoReader(s, SendRefusal);
    CountUpdate(s.sessions, t, s'.sessions[t], Answered);
    CountUpdate(s.sessions, t, s'.sessions[t], AwaitingReader);
    ResponsesSnoc(s.enqueued, Entry(Of(t), CreateResponse(s.sessions[t].id, 1, s.reader.reason)));
    AskedUpdate(s.sessions, t, s'.sessions[t]);
  }

  lemma CountKeptByReader(s: State, r: ReaderAct)
    requires ReaderReady(s, r) && !r.HandleNext? && !r.SendRefusal? && CountInv(s)
    ensures CountInv(DoReader(s, r))
  {
    var s' := DoReader(s, r);
    ReaderSessions(s, r);
    CountTouched(s.sessions, s'.sessions, Answered);
    CountTouched(s.sessions, s'.sessions, AwaitingReader);
    AskedTouched(s.sessions, s'.sessions);
    assert s.enqueued + [] == s.enqueued;
    if r.SendRenewRequest? && s.conf.renewal {
      ResponsesSnoc(s.enqueued, Entry(Agent, RenewRequest(s.conf.identifier)));
    }
  }

  lemma AskedTouched(ss: seq<Session>, ss': seq<Session>)
    requires AllTouched(ss, ss')
    ensures Asked(ss') == Asked(ss)
  {
  }

  lemma CountKeptByHandle(s: State, renewed: bool)
    requires ReaderReady(s, HandleNext(renewed)) && CountInv(s)
    ensures CountInv(DoReader(s, HandleNext(renewed)))
  {
    var p := s.reader.next[0];
    var s1 := s.(handled := s.handled + [p]);
    var next, err := s.reader.next[1..], s.reader.err;
    var s' := DoReader(s, HandleNext(renewed));
    HandleFrame(s1, p, next, err, renewed);
    HandleSessions(s1, p, next, err, renewed);
    if RequestIn(p).Some? {
      CreateReader(s1, p.payload, next, err);
      CountsOneMore(s, s', p);
    } else {
      HandleReader(s1, p, next, err, renewed);
      CountsTouched(s, s', p);
    }
  }

  /** A request is handled: one more session. */
  lemma CountsOneMore(s: State, s': State, p: Packet)
    requires CountInv(s) && !s.reader.Blocked? && RequestIn(p).Some?
    requires s'.handled == s.handled + [p] && s'.enqueued == s.enqueued && s'.done == s.done
    requires |s'.sessions| == |s.sessions| + 1 && s'.sessions[..|s.sessions|] == s.sessions
    requires Asked([s'.sessions[|s.sessions|]]) == [RequestIn(p).value]
    requires s'.sessions[|s.sessions|].pc == if s'.reader.Blocked? then Refusing else Dialing
    ensures CountInv(s')
  {
    RequestsSnoc(s.handled, p);
    OneMore(s.sessions, s'.sessions, RequestIn(p).value);
    forall t | 0 <= t < |s'.sessions| && s'.sessions[t].pc.Abandoned? ensures s'.done {
      assert s'.sessions[..|s.sessions|][t] == s'.sessions[t];
    }
  }

  /** Anything else is handled: the sessions keep their stages. */
  lemma CountsTouched(s: State, s': State, p: Packet)
    requires CountInv(s) && !s.reader.Blocked? && !s'.reader.Blocked? && RequestIn(p).None?
    requires s'.handled == s.handled + [p] && s'.enqueued == s.enqueued && s'.done == s.done
    requires AllTouched(s.sessions, s'.sessions)
    ensures CountInv(s')
  {
    RequestsSnoc(s.handled, p);
    CountTouched(s.sessions, s'.sessions, Answered);
    CountTouched(s.sessions, s'.sessions, AwaitingReader);
    AskedTouched(s.sessions, s'.sessions);
    assert Requests(s.handled) + [] == Requests(s.handled);
  }

  lemma OneMore(ss: seq<Session>, ss': seq<Session>, r: Request)
    requires |ss'| == |ss| + 1 && ss'[..|ss|] == ss && Asked([ss'[|ss|]]) == [r]
    ensures Asked(ss') == Asked(ss) + [r]
    ensures forall st :: CountStage(ss', st) == CountStage(ss, st) + One(StageOf(ss'[|ss|].pc) == st)
  {
    var x := ss'[|ss|];
    assert ss' == ss + [x];
    assert Asked([x])[0] == Request(x.id, x.host, x.port);
    forall st ensures CountStage(ss', st) == CountStage(ss, st) + One(StageOf(x.pc) == st) {
      CountSnoc(ss, x, st);
    }
  }

  /** The new session is the request's; the reader blocks exactly when it is refused. */
  lemma CreateReader(s: State, payload: bytes, next: seq<Packet>, err: Option<RunResult>)
    requires ParseCreateRequest(payload).Some?
    ensures var s' := HandleCreate(s, payload, next, err);
      && |s'.sessions| == |s.sessions| + 1
      && Asked([s'.sessions[|s.sessions|]]) == [ParseCreateRequest(payload).value]
      && s'.sessions[|s.sessions|].pc == if s'.reader.Blocked? then Refusing else Dialing
  {
  }
}
