/** The tunnel's other guarantees over every run: conservation of requests, the access gate,
    routing towards the destinations, and the reader's result. */
module TunnelTheorems {
  import opened Bytes
  import opened Framing
  import opened Outcomes
  import opened Tunnel
  import opened TunnelCounts
  import opened TunnelFidelity
  import opened TunnelReader
  import opened TunnelRouting
  import opened TunnelRuns
  import opened TunnelSessions
  import A = AccessList
  import ReadLoop

  // ---- Requests and responses ----

  /** In every reachable state the well-formed CREATE_REQUESTs handled equal the responses
      queued, plus the reader's blocked send if there is one, plus the goroutines not yet at
      their response, plus those abandoned, of which there are none before done is closed. */
  lemma Conservation(conf: Config, s: State)
    requires Reachable(conf, s)
    ensures Requests(s.handled) == Asked(s.sessions)
    ensures |Requests(s.handled)|
         == Responses(s.enqueued) + One(s.reader.Blocked?)
          + CountStage(s.sessions, Undecided) + CountStage(s.sessions, GivenUp)
    ensures !s.done ==> CountStage(s.sessions, GivenUp) == 0
  {
    ReachableCounts(conf, s);
    Partition(s.sessions);
    if !s.done {
      NoneGivenUp(s.sessions);
    }
  }

  lemma {:induction false} NoneGivenUp(ss: seq<Session>)
    requires forall t :: 0 <= t < |ss| ==> !ss[t].pc.Abandoned?
    ensures CountStage(ss, GivenUp) == 0
  {
    if ss != [] {
      NoneGivenUp(ss[..|ss| - 1]);
    }
  }

  // ---- The access gate ----

  /** The list the connection was started with, read entry by entry, lets the host in. */
  ghost predicate ListedHost(conf: Config, host: bytes) {
    conf.net.parseIP(Text(host)).Some? && exists e :: e in conf.access && Lets(conf, e, Text(host))
  }

  /** The entry is a network that contains the address, or an equal address. */
  predicate Lets(conf: Config, e: A.Entry, address: string) {
    match conf.net.parseIP(address)
    case None => false
    case Some(ip) =>
      match e
      case Cidr(network) => conf.net.contains(network, ip)
      case Host(entry) => conf.net.equal(entry, ip)
  }

  lemma AllowedIsListed(conf: Config, host: bytes)
    ensures Allowed(conf, host) <==> ListedHost(conf, host)
  {
    if Allowed(conf, host) {
      var i :| 0 <= i < |conf.access| && A.Covers(conf.net, conf.access[i], conf.net.parseIP(Text(host)).value);
      assert conf.access[i] in conf.access && Lets(conf, conf.access[i], Text(host));
    }
    if ListedHost(conf, host) {
      var e :| e in conf.access && Lets(conf, e, Text(host));
      var i :| 0 <= i < |conf.access| && conf.access[i] == e;
      assert A.Covers(conf.net, conf.access[i], conf.net.parseIP(Text(host)).value);
    }
  }

  /** Every goroutine that dials, so every socket that opens and every socket that receives
      bytes, is for a host that parses and that some entry of the loaded list names; every
      request refused is for a host that does not parse or that no entry names, and every
      refusal is the access list's: the later address check never fails. */
  lemma AccessGate(conf: Config, s: State, t: nat)
    requires Reachable(conf, s) && t < |s.sessions|
    ensures var sess := s.sessions[t];
      && s.conf == conf
      && (sess.pc.Refusing? || sess.pc.Refused? <==> !ListedHost(conf, sess.host))
      && (sess.open || sess.written != [] || sess.inbox != [] ==> ListedHost(conf, sess.host))
      && (sess.pc.Refused? ==> sess.answer == Failed(DENIED))
      && (sess.pc.Refusing? ==> s.reader.Blocked? && s.reader.reason == DENIED)
  {
    ReachableReader(conf, s);
    ReachableAt(conf, s, t);
    ReachableConf(conf, s);
    AllowedIsListed(conf, s.sessions[t].host);
  }

  // ---- Towards the destinations ----

  /** run stands in data from index start on. */
  predicate IsRun(data: seq<bytes>, start: nat, run: seq<bytes>) {
    start + |run| <= |data| && data[start..start + |run|] == run
  }

  /** The payloads handed to a session are, in order, a contiguous run of the DATA packets
      handled for its id, starting where it registered; and unless a write to the socket has
      failed, what reached the socket is a prefix of that run's bytes, lacking at most what the
      reader is writing. Ids may be reused. */
  lemma InboundRouting(conf: Config, s: State, t: nat)
    requires Reachable(conf, s) && t < |s.sessions|
    ensures var sess := s.sessions[t];
      var data := DataFor(s.handled, sess.id);
      && (sess.inbox == [] || IsRun(data, sess.start, sess.inbox))
      && (sess.intact ==> sess.written + Rest(s.reader, t) == Flatten(sess.inbox))
  {
    ReachableAt(conf, s, t);
  }

  /** What has reached a session's socket, unless a write to it has failed, is a prefix of
      what the server's stream carries for its id from the registration on. */
  lemma InboundFidelity(conf: Config, s: State, t: nat)
    requires Reachable(conf, s) && t < |s.sessions| && s.sessions[t].intact
    ensures var sess := s.sessions[t];
      var sent := DataFor(Decode(s.inbound).packets, sess.id);
      sess.written == [] || (sess.start <= |sent| && sess.written <= Flatten(sent[sess.start..]))
  {
    ReachableReader(conf, s);
    InboundRouting(conf, s, t);
    HandledPrefix(s);
    var sess := s.sessions[t];
    if sess.inbox != [] {
      HandledOfSent(s.handled, Decode(s.inbound).packets, sess.id, sess.start, sess.inbox);
    }
  }

  lemma HandledOfSent(handled: seq<Packet>, all: seq<Packet>, id: uint16, start: nat, inbox: seq<bytes>)
    requires handled <= all && IsRun(DataFor(handled, id), start, inbox)
    ensures start <= |DataFor(all, id)| && Flatten(inbox) <= Flatten(DataFor(all, id)[start..])
  {
    assert handled == all[..|handled|];
    DataForPrefix(all, |handled|, id);
    RunOfLonger(DataFor(handled, id), DataFor(all, id), start, inbox);
    FlattenPrefix(inbox, DataFor(all, id)[start..]);
  }

  lemma HandledPrefix(s: State)
    requires ReaderInv(s)
    ensures s.handled <= Decode(s.inbound).packets
  {
  }

  lemma RunOfLonger(data: seq<bytes>, more: seq<bytes>, start: nat, run: seq<bytes>)
    requires data <= more && IsRun(data, start, run)
    ensures start <= |more| && run <= more[start..]
  {
    assert more[start..][..|run|] == data[start..start + |run|];
  }

  /** With ids not reused, a session's entry stays in the map until the session removes it
      itself or Run empties the map, and while it is there the session has been handed every
      DATA packet handled for its id since it registered. */
  lemma EntryStays(conf: Config, s: State, t: nat)
    requires Reachable(conf, s) && Distinct(s.sessions) && t < |s.sessions|
    requires Registered(s.sessions[t].pc) && !s.reader.Finished?
    ensures var sess := s.sessions[t];
      && sess.id in s.dests && s.dests[sess.id] == t
      && IsRun(DataFor(s.handled, sess.id), sess.start, sess.inbox)
      && sess.start + |sess.inbox| == |DataFor(s.handled, sess.id)|
  {
    ReachableMap(conf, s);
    ReachableAt(conf, s, t);
    var sess := s.sessions[t];
    assert Placed(s, t);
    RegisteredJoined(s.conf, sess);
    CurrentInbox(DataFor(s.handled, sess.id), sess);
  }

  /** So a registered session has been handed everything the server sent for its id if and
      only if no DATA for the id was handled before its registration. */
  lemma NothingMissedExactly(conf: Config, s: State, t: nat)
    requires Reachable(conf, s) && Distinct(s.sessions) && t < |s.sessions|
    requires Registered(s.sessions[t].pc) && !s.reader.Finished?
    ensures s.sessions[t].inbox == DataFor(s.handled, s.sessions[t].id) <==> s.sessions[t].start == 0
  {
    EntryStays(conf, s, t);
  }

  /** What was handled before the registration stays missed, in every continuation. */
  lemma {:induction false} StartStays(s: State, t: nat, steps: seq<Action>, s': State)
    requires SessionsInv(s) && BlockedInv(s) && Path(s, steps, s')
    requires t < |s.sessions| && Joined(s.sessions[t])
    ensures |s.sessions| <= |s'.sessions| && s'.sessions[t].start == s.sessions[t].start
    decreases |steps|
  {
    if steps != [] {
      StartKept(s, t, steps[0]);
      SessionsKept(s, steps[0]);
      BlockedKept(s, steps[0]);
      StartStays(Do(s, steps[0]), t, steps[1..], s');
    }
  }

  lemma StartKept(s: State, t: nat, a: Action)
    requires SessionsInv(s) && BlockedInv(s) && Enabled(s, a) && t < |s.sessions| && Joined(s.sessions[t])
    ensures var ss' := Do(s, a).sessions;
      |s.sessions| <= |ss'| && Joined(ss'[t]) && ss'[t].start == s.sessions[t].start
  {
    assert SessionInv(s.conf, s.sessions[t]);
    match a
    case SessionStep(u, act) =>
      if u == t {
        AfterStart(s.conf, s.sessions[t], act, |DataFor(s.handled, s.sessions[t].id)|, s.reader.Finished?);
      }
    case ReaderStep(r) => StartKeptByReader(s, t, r);
    case _ =>
  }

  lemma AfterStart(conf: Config, sess: Session, a: SessionAct, seen: nat, finished: bool)
    requires SessionInv(conf, sess) && Joined(sess) && Ready(sess, a, true, true)
    ensures Joined(After(sess, a, seen, finished)) && After(sess, a, seen, finished).start == sess.start
  {
    AfterJoined(conf, sess, a, seen, finished);
  }

  lemma StartKeptByReader(s: State, t: nat, r: ReaderAct)
    requires SessionsInv(s) && BlockedInv(s) && ReaderReady(s, r) && t < |s.sessions| && Joined(s.sessions[t])
    ensures var ss' := DoReader(s, r).sessions;
      |s.sessions| <= |ss'| && Joined(ss'[t]) && ss'[t].start == s.sessions[t].start
  {
    assert SessionInv(s.conf, s.sessions[t]);
    ReaderSessions(s, r);
    var ss' := DoReader(s, r).sessions;
    if Adds(s, ss') {
      assert ss'[t] == ss'[..|s.sessions|][t];
    }
  }

  lemma RegisteredJoined(conf: Config, sess: Session)
    requires SessionInv(conf, sess) && Registered(sess.pc)
    ensures Joined(sess)
  {
  }

  lemma CurrentInbox(data: seq<bytes>, sess: Session)
    requires InboxOk(data, true, sess) && Joined(sess)
    ensures IsRun(data, sess.start, sess.inbox) && sess.start + |sess.inbox| == |data|
  {
  }

  /** A session whose socket is closed. */
  predicate Shut(ss: seq<Session>, t: nat) {
    t < |ss| && Registered(ss[t].pc) && !ss[t].open
  }

  /** Once a DESTROY from the server is handled for an id in the map, nothing more is ever
      read from that session's destination, in any continuation. */
  lemma DestroyStopsReading(conf: Config, s: State, id: uint16, steps: seq<Action>, s': State)
    requires Reachable(conf, s) && ReaderReady(s, HandleNext(false))
    requires s.reader.next[0].cmd == CMD_DESTROY && ParseDestroy(s.reader.next[0].payload) == Some(id)
    requires id in s.dests && Path(DoReader(s, HandleNext(false)), steps, s')
    ensures s.dests[id] < |s.sessions| <= |s'.sessions|
    ensures s'.sessions[s.dests[id]].read == s.sessions[s.dests[id]].read
  {
    ReachableMap(conf, s);
    ReachableSpeaks(conf, s);
    var s1 := DoReader(s, HandleNext(false));
    SessionsKept(s, ReaderStep(HandleNext(false)));
    BlockedKept(s, ReaderStep(HandleNext(false)));
    DestroyShuts(s, id);
    StaysShut(s1, s.dests[id], steps, s');
  }

  lemma DestroyShuts(s: State, id: uint16)
    requires DestInv(s) && ReaderReady(s, HandleNext(false)) && id in s.dests
    requires s.reader.next[0].cmd == CMD_DESTROY && ParseDestroy(s.reader.next[0].payload) == Some(id)
    ensures var t, ss' := s.dests[id], DoReader(s, HandleNext(false)).sessions;
      Shut(ss', t) && |ss'| == |s.sessions| && ss'[t].read == s.sessions[t].read
  {
  }

  lemma {:induction false} StaysShut(s: State, t: nat, steps: seq<Action>, s': State)
    requires SessionsInv(s) && BlockedInv(s) && Path(s, steps, s')
    requires Shut(s.sessions, t) || Gone(s.sessions, t)
    ensures |s.sessions| <= |s'.sessions| && s'.sessions[t].read == s.sessions[t].read
    decreases |steps|
  {
    if steps != [] {
      ShutStep(s, t, steps[0]);
      SessionsKept(s, steps[0]);
      BlockedKept(s, steps[0]);
      StaysShut(Do(s, steps[0]), t, steps[1..], s');
    }
  }

  /** A session whose goroutine has ended. */
  predicate Gone(ss: seq<Session>, t: nat) {
    t < |ss| && ss[t].pc.Ended?
  }

  lemma ShutStep(s: State, t: nat, a: Action)
    requires BlockedInv(s) && Enabled(s, a) && (Shut(s.sessions, t) || Gone(s.sessions, t))
    ensures var ss, ss' := s.sessions, Do(s, a).sessions;
      && |ss| <= |ss'| && ss'[t].read == ss[t].read
      && (Shut(ss', t) || Gone(ss', t))
  {
    match a
    case SessionStep(u, act) =>
      if u == t {
        ShutAfter(s.sessions[t], act, |DataFor(s.handled, s.sessions[t].id)|, s.reader.Finished?);
      }
    case ReaderStep(r) =>
      ReaderSessions(s, r);
      var ss' := DoReader(s, r).sessions;
      if Adds(s, ss') {
        assert ss'[t] == ss'[..|s.sessions|][t];
      }
    case _ =>
  }

  lemma ShutAfter(sess: Session, a: SessionAct, seen: nat, finished: bool)
    requires Ready(sess, a, true, true) && ((Registered(sess.pc) && !sess.open) || sess.pc.Ended?)
    ensures var sess' := After(sess, a, seen, finished);
      && sess'.read == sess.read
      && ((Registered(sess'.pc) && !sess'.open) || sess'.pc.Ended?)
  {
    assert sess.read + [] == sess.read;
  }

  // ---- The reader's result ----

  /** When the read loop has returned, its result is an outcome of the sequential read loop on
      the bytes received and the error the last read gave, whatever the other goroutines did
      meanwhile. */
  lemma ReaderOutcome(conf: Config, s: State) returns (verdicts: seq<Option<RunResult>>)
    requires Reachable(conf, s) && !Running(s.reader)
    ensures ReadLoop.Outcome(Decode(s.inbound).packets, s.conf.renewal, s.readErr, s.handled, verdicts,
                             Some(s.reader.result))
  {
    ReachableReader(conf, s);
    verdicts := EndedIsOutcome(Decode(s.inbound).packets, s.conf.renewal, s.readErr, s.handled,
      s.reader.result);
  }

  /** So what Run returns can be read off the packets: the payload of the REJECT handled last;
      EOF for a RECONNECT handled last; a renewal only for an offered certificate handled last;
      and otherwise, with every packet received handled, the error the last read gave. */
  lemma ReaderResult(conf: Config, s: State)
    requires Reachable(conf, s) && !Running(s.reader)
    ensures s.handled <= Decode(s.inbound).packets
    ensures var result, n := s.reader.result, |s.handled| - 1;
      && (result.Rejected? <==> n >= 0 && ReadLoop.IsReject(s.handled[n]))
      && (result.Rejected? ==> result.reason == s.handled[n].payload)
      && (n >= 0 && ReadLoop.IsReconnect(s.handled[n]) ==> result == Eof)
      && (result == Renewed ==>
           s.conf.renewal && n >= 0 && s.handled[n].cmd == CMD_RENEW_RESPONSE
           && s.handled[n].payload != [] && s.handled[n].payload[0] == 0)
      && (n < 0 || !(ReadLoop.IsReject(s.handled[n]) || ReadLoop.IsReconnect(s.handled[n])) ==>
           result == Renewed || (s.handled == Decode(s.inbound).packets && Some(result) == s.readErr))
  {
    ReachableReader(conf, s);
    var verdicts := ReaderOutcome(conf, s);
    ReadLoop.ResultExactly(Decode(s.inbound).packets, s.conf.renewal, s.readErr, s.handled, verdicts,
      Some(s.reader.result));
  }

  /** While it runs, it has handled a first part of the packets received so far, none of them
      a REJECT or RECONNECT. */
  lemma ReaderInOrder(conf: Config, s: State)
    requires Reachable(conf, s) && Running(s.reader)
    ensures Decode(s.inbound) == Decoded(s.handled + Next(s.reader), s.buf)
    ensures forall i :: 0 <= i < |s.handled| ==> s.handled[i].cmd !in {CMD_REJECT, CMD_RECONNECT}
  {
    ReachableReader(conf, s);
    assert forall i :: 0 <= i < |s.handled| ==> PacketVerdict(s.handled[i], s.conf.renewal, None);
  }

  /** Between reads at most 65534 bytes are kept, unless the server declared a length no frame
      has; then no later input ever yields a packet. */
  lemma BacklogInRuns(conf: Config, s: State, more: bytes)
    requires Reachable(conf, s) && Running(s.reader)
    ensures |s.buf| <= 65534 || Stalled(s.buf)
    ensures Stalled(s.buf) ==> Decode(s.inbound + more).packets == Decode(s.inbound).packets
  {
    ReachableReader(conf, s);
    BacklogBound(s.inbound);
    if Stalled(s.buf) {
      StalledForever(s.inbound, more);
    }
  }
}
