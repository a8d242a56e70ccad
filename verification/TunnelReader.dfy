/** The reader inside the step system: whatever the other goroutines do in between, it handles
    the packets of the server's stream in order and returns what the first verdict says; and
    the renewal request it starts with. */
module TunnelReader {
  import opened Bytes
  import opened Framing
  import opened Outcomes
  import opened Tunnel
  import opened TunnelQueue
  import ReadLoop

  function Next(reader: Reader): seq<Packet> {
    if HoldsPackets(reader) then reader.next else []
  }

  function Err(reader: Reader): Option<RunResult> {
    if HoldsPackets(reader) then reader.err else None
  }

  predicate Running(reader: Reader) {
    !reader.Returned? && !reader.DoneClosed? && !reader.Finished?
  }

  /** The reader holds decoded packets and the error that came with them. */
  predicate HoldsPackets(reader: Reader) {
    reader.Handling? || reader.Blocked? || reader.Delivering?
  }

  predicate AllPass(ps: seq<Packet>, renewal: bool) {
    forall i :: 0 <= i < |ps| ==> PacketVerdict(ps[i], renewal, None)
  }

  /** The reader has returned result after handling a first part of the packets: the last one
      handled gave it as its verdict, or all were handled and the last read failed with it. */
  predicate EndedBy(all: seq<Packet>, renewal: bool, err: Option<RunResult>, handled: seq<Packet>,
                    result: RunResult)
  {
    var n := |handled| - 1;
    || (n >= 0 && handled <= all && AllPass(handled[..n], renewal)
        && PacketVerdict(handled[n], renewal, Some(result)))
    || (handled == all && AllPass(handled, renewal) && err == Some(result))
  }

  predicate ReaderInv(s: State) {
    && s.readErr in {None, Some(Eof), Some(NetError)}
    && (if HoldsPackets(s.reader) then Err(s.reader) == s.readErr else Running(s.reader) ==> s.readErr == None)
    && if Running(s.reader)
       then Decode(s.inbound) == Decoded(s.handled + Next(s.reader), s.buf) && AllPass(s.handled, s.conf.renewal)
       else EndedBy(Decode(s.inbound).packets, s.conf.renewal, s.readErr, s.handled, s.reader.result)
  }

  /** The verdict on p; renewed: handling it installed a certificate. */
  function VerdictOf(p: Packet, renewed: bool): Option<RunResult> {
    if p.cmd == CMD_REJECT then Some(Rejected(p.payload))
    else if p.cmd == CMD_RECONNECT then Some(Eof)
    else if p.cmd == CMD_RENEW_RESPONSE && renewed then Some(Renewed)
    else None
  }

  lemma VerdictIsVerdict(p: Packet, renewal: bool, renewed: bool)
    requires renewed ==> PacketVerdict(p, renewal, Some(Renewed))
    ensures PacketVerdict(p, renewal, VerdictOf(p, renewed)) && (renewed ==> p.cmd == CMD_RENEW_RESPONSE)
  {
  }

  /** The reader after a packet with this verdict: it returned it, or there is none and it
      goes on. */
  predicate Flows(v: Option<RunResult>, next: seq<Packet>, err: Option<RunResult>, reader: Reader) {
    match v
    case Some(result) => reader == Returned(result)
    case None =>
      || reader == GoOn(next, err)
      || ((reader.Blocked? || reader.Delivering?) && reader.next == next && reader.err == err)
  }

  lemma HandleFlows(s: State, p: Packet, next: seq<Packet>, err: Option<RunResult>, renewed: bool)
    requires renewed ==> p.cmd == CMD_RENEW_RESPONSE
    ensures Flows(VerdictOf(p, renewed), next, err, Handle(s, p, next, err, renewed).reader)
  {
    if p.cmd == CMD_CREATE_REQUEST {
      CreateFlows(s, p, next, err);
    } else if p.cmd == CMD_DATA {
      DataFlows(s, p, next, err);
    }
  }

  lemma CreateFlows(s: State, p: Packet, next: seq<Packet>, err: Option<RunResult>)
    requires p.cmd == CMD_CREATE_REQUEST
    ensures Flows(None, next, err, HandleCreate(s, p.payload, next, err).reader)
  {
  }

  lemma DataFlows(s: State, p: Packet, next: seq<Packet>, err: Option<RunResult>)
    requires p.cmd == CMD_DATA
    ensures Flows(None, next, err, HandleData(s, p.payload, next, err).reader)
  {
  }

  /** Going on from a consistent point is consistent. */
  lemma GoOnKeeps(all: seq<Packet>, renewal: bool, handled: seq<Packet>, next: seq<Packet>, err: Option<RunResult>)
    requires all == handled + next && AllPass(handled, renewal)
    ensures var reader := GoOn(next, err);
      && (if HoldsPackets(reader) then Err(reader) == err else Running(reader) ==> err == None)
      && if Running(reader) then all == handled + Next(reader)
         else reader.Returned? && EndedBy(all, renewal, err, handled, reader.result)
  {
    if next == [] {
      assert handled + [] == handled;
    }
  }

  lemma ReaderKept(s: State, a: Action)
    requires Enabled(s, a) && ReaderInv(s)
    ensures ReaderInv(Do(s, a))
  {
    match a
    case ReaderStep(r) =>
      match r {
        case ReadServer(data, err) => ReadKeeps(s, data, err);
        case HandleNext(renewed) => HandleKeeps(s, renewed);
        case SendRefusal => RefusalKeeps(s);
        case WriteDest(n, failed) => WriteKeeps(s, n, failed);
        case _ =>
      }
    case _ =>
  }

  lemma RefusalKeeps(s: State)
    requires ReaderReady(s, SendRefusal) && ReaderInv(s)
    ensures ReaderInv(DoReader(s, SendRefusal))
  {
    GoOnKeeps(Decode(s.inbound).packets, s.conf.renewal, s.handled, s.reader.next, s.reader.err);
  }

  lemma WriteKeeps(s: State, n: nat, failed: bool)
    requires ReaderReady(s, WriteDest(n, failed)) && ReaderInv(s)
    ensures ReaderInv(DoReader(s, WriteDest(n, failed)))
  {
    GoOnKeeps(Decode(s.inbound).packets, s.conf.renewal, s.handled, s.reader.next, s.reader.err);
  }

  lemma ReadKeeps(s: State, data: bytes, err: Option<RunResult>)
    requires ReaderReady(s, ReadServer(data, err)) && ReaderInv(s)
    ensures ReaderInv(DoReader(s, ReadServer(data, err)))
  {
    assert s.handled + [] == s.handled;
    var d := if data == [] then Decoded([], s.buf) else Decode(s.buf + data);
    DecodeSplit(s.inbound, data);
    if data == [] {
      assert s.inbound + data == s.inbound;
    }
    GoOnKeeps(Decode(s.inbound + data).packets, s.conf.renewal, s.handled, d.packets, err);
  }

  lemma HandleKeeps(s: State, renewed: bool)
    requires ReaderReady(s, HandleNext(renewed)) && ReaderInv(s)
    ensures ReaderInv(DoReader(s, HandleNext(renewed)))
  {
    var p, next, err := s.reader.next[0], s.reader.next[1..], s.reader.err;
    var s1 := s.(handled := s.handled + [p]);
    HandleFrame(s1, p, next, err, renewed);
    VerdictIsVerdict(p, s.conf.renewal, renewed);
    HandleFlows(s1, p, next, err, renewed);
    assert s.reader.next == [p] + next;
    FlowsKeeps(Decode(s.inbound).packets, s.conf.renewal, s.handled, p, VerdictOf(p, renewed), next, err,
      Handle(s1, p, next, err, renewed).reader);
  }

  /** Wherever handling p takes the reader, it is consistent with the packets received. */
  lemma FlowsKeeps(all: seq<Packet>, renewal: bool, handled: seq<Packet>, p: Packet, v: Option<RunResult>,
                   next: seq<Packet>, err: Option<RunResult>, reader: Reader)
    requires all == handled + ([p] + next) && AllPass(handled, renewal)
    requires PacketVerdict(p, renewal, v) && Flows(v, next, err, reader)
    ensures if HoldsPackets(reader) then Err(reader) == err else Running(reader) ==> err == None
    ensures if Running(reader) then all == (handled + [p]) + Next(reader) && AllPass(handled + [p], renewal)
      else reader.Returned? && EndedBy(all, renewal, err, handled + [p], reader.result)
  {
    assert all == (handled + [p]) + next;
    assert (handled + [p])[..|handled|] == handled;
    if v == None {
      assert AllPass(handled + [p], renewal);
      GoOnKeeps(all, renewal, handled + [p], next, err);
    }
  }

  /** The end of the reader in any run of the step system is an outcome of the sequential read
      loop on the same stream. */
  lemma EndedIsOutcome(all: seq<Packet>, renewal: bool, err: Option<RunResult>, handled: seq<Packet>,
                       result: RunResult)
    returns (verdicts: seq<Option<RunResult>>)
    requires EndedBy(all, renewal, err, handled, result)
    ensures ReadLoop.Outcome(all, renewal, err, handled, verdicts, Some(result))
  {
    var n := |handled| - 1;
    if n >= 0 && handled <= all && AllPass(handled[..n], renewal)
      && PacketVerdict(handled[n], renewal, Some(result)) {
      verdicts := seq(n, _ => None) + [Some(result)];
      assert forall i :: 0 <= i < n ==> handled[i] == handled[..n][i];
    } else {
      verdicts := seq(|handled|, _ => None);
    }
    ReadLoop.OutcomeMeaning(all, renewal, err, handled, verdicts, Some(result));
  }

  // ---- The renewal request ----

  predicate IsRenewRequest(e: Entry) {
    e.pkt.cmd == CMD_RENEW_REQUEST
  }

  /** With renewal the first packet ever queued is the request, and there is no other;
      without it there is none. Nothing is queued and nothing else runs before that. */
  predicate FirstInv(s: State) {
    && (s.reader.Starting? ==>
        s.enqueued == [] && s.queue == [] && s.ticker.NotStarted? && s.sessions == [])
    && (!s.reader.Starting? && s.conf.renewal ==>
        && s.enqueued != []
        && s.enqueued[0] == Entry(Agent, RenewRequest(s.conf.identifier)))
    && (forall i :: 0 <= i < |s.enqueued| && (i > 0 || !s.conf.renewal) ==> !IsRenewRequest(s.enqueued[i]))
  }

  /** The agent's own packets are keepalives and the renewal request. */
  predicate AgentInv(s: State) {
    forall i :: 0 <= i < |s.enqueued| && s.enqueued[i].origin.Agent? ==>
      s.enqueued[i].pkt in {Keepalive(), RenewRequest(s.conf.identifier)}
  }

  lemma AgentKept(s: State, a: Action)
    requires Enabled(s, a) && AgentInv(s)
    ensures AgentInv(Do(s, a))
  {
    match a
    case ReaderStep(r) =>
      if r.HandleNext? {
        var p := s.reader.next[0];
        HandleFrame(s.(handled := s.handled + [p]), p, s.reader.next[1..], s.reader.err, r.renewed);
      }
    case SessionStep(t, act) =>
      assert Do(s, a).enqueued == s.enqueued + Queued(Of(t), Emits(s.sessions[t], act));
      assert Do(s, a).conf == s.conf;
    case _ =>
  }

  lemma FirstKept(s: State, a: Action)
    requires Enabled(s, a) && FirstInv(s)
    ensures FirstInv(Do(s, a))
  {
    match a
    case ReaderStep(r) =>
      if r.HandleNext? {
        FirstKeptByHandle(s, r.renewed);
      } else {
        FirstKeptByReader(s, r);
      }
    case SessionStep(t, act) => FirstKeptBySession(s, t, act);
    case _ =>
  }

  lemma FirstKeptByReader(s: State, r: ReaderAct)
    requires ReaderReady(s, r) && FirstInv(s) && !r.HandleNext?
    ensures FirstInv(DoReader(s, r))
  {
  }

  lemma FirstKeptByHandle(s: State, renewed: bool)
    requires ReaderReady(s, HandleNext(renewed)) && FirstInv(s)
    ensures FirstInv(DoReader(s, HandleNext(renewed)))
  {
    var p := s.reader.next[0];
    var s1 := s.(handled := s.handled + [p]);
    HandleFrame(s1, p, s.reader.next[1..], s.reader.err, renewed);
    VerdictIsVerdict(p, s.conf.renewal, renewed);
    HandleFlows(s1, p, s.reader.next[1..], s.reader.err, renewed);
  }

  lemma FirstKeptBySession(s: State, t: nat, act: SessionAct)
    requires Enabled(s, SessionStep(t, act)) && FirstInv(s)
    ensures FirstInv(DoSession(s, t, act))
  {
    var sess := s.sessions[t];
    SessionPackets(sess, act);
    var es := Queued(Of(t), Emits(sess, act));
    assert DoSession(s, t, act).enqueued == s.enqueued + es;
  }

  lemma SessionPackets(sess: Session, a: SessionAct)
    requires Ready(sess, a, true, true)
    ensures Emits(sess, a).Some? ==>
      Emits(sess, a).value.cmd in {CMD_CREATE_RESPONSE, CMD_DATA, CMD_DESTROY}
  {
    match a
    case DialFails(_) =>
    case SendFailure =>
    case SendSuccess =>
    case Register =>
    case ReadDest(_, _) =>
    case Forward =>
    case DropChunk =>
    case SendDestroy =>
    case _ =>
  }
}
