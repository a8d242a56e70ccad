/** When Run can still return. The reader's own sends have no done arm, so once the writer is
    gone every refusal still ahead of it takes a place in the queue that is never freed. */
module TunnelReturns {
  import opened Bytes
  import opened Framing
  import opened Outcomes
  import opened Tunnel
  import opened TunnelCounts
  import opened TunnelEnds
  import opened TunnelQueue
  import opened TunnelReader
  import opened TunnelRuns
  import opened TunnelSessions

  /** A CREATE_REQUEST the access list refuses. */
  predicate IsRefused(conf: Config, p: Packet) {
    match RequestIn(p)
    case Some(r) => !Allowed(conf, r.host)
    case None => false
  }

  /** A packet that can end the read loop: a RENEW_RESPONSE does if its certificate is installed. */
  predicate CanEnd(conf: Config, p: Packet) {
    || p.cmd == CMD_REJECT || p.cmd == CMD_RECONNECT
    || (p.cmd == CMD_RENEW_RESPONSE && conf.renewal && OffersCertificate(p))
  }

  /** The refusals the reader must send before it comes to a packet that can end the loop, or
      to the end of what it has decoded. */
  function Ahead(conf: Config, ps: seq<Packet>): nat {
    if ps == [] || CanEnd(conf, ps[0]) then 0
    else One(IsRefused(conf, ps[0])) + Ahead(conf, ps[1..])
  }

  /** Places in the queue the reader needs before its loop can end. */
  function Needed(conf: Config, reader: Reader): nat {
    One(reader.Blocked?) + Ahead(conf, Next(reader))
  }

  predicate Stuck(s: State) {
    Running(s.reader) && s.writer.Exited? && |s.queue| + Needed(s.conf, s.reader) > QUEUE_CAPACITY
  }

  // ---- Stuck for good ----

  /** Handling a packet that cannot end the loop goes on behind it, blocked if it is refused. */
  lemma HandlesOne(s: State, p: Packet, next: seq<Packet>, err: Option<RunResult>)
    requires !CanEnd(s.conf, p)
    ensures var reader := Handle(s, p, next, err, false).reader;
      && (reader.Blocked? <==> IsRefused(s.conf, p))
      && (HoldsPackets(reader) ==> reader.next == next && reader.err == err)
      && (HoldsPackets(reader) || reader == GoOn(next, err))
  {
    if RequestIn(p).Some? {
      AllowedIsAddress(s.conf, RequestIn(p).value.host);
    } else {
      HandleReader(s, p, next, err, false);
      HandleFlows(s, p, next, err, false);
    }
  }

  lemma HandlingNeeds(s: State)
    requires ReaderReady(s, HandleNext(false)) && !CanEnd(s.conf, s.reader.next[0])
    ensures var reader := DoReader(s, HandleNext(false)).reader;
      && (Running(reader) ==> Needed(s.conf, reader) == Needed(s.conf, s.reader))
      && (!Running(reader) ==> reader.Returned? && Needed(s.conf, s.reader) == 0)
      && |Next(reader)| < |Next(s.reader)|
  {
    var p, next, err := s.reader.next[0], s.reader.next[1..], s.reader.err;
    HandlesOne(s.(handled := s.handled + [p]), p, next, err);
    GoingOnNeeds(s.conf, next, err);
    assert Ahead(s.conf, s.reader.next) == One(IsRefused(s.conf, p)) + Ahead(s.conf, next);
  }

  lemma StuckStays(conf: Config, s: State, a: Action)
    requires Reachable(conf, s) && Enabled(s, a) && Stuck(s)
    ensures Stuck(Do(s, a))
  {
    ReachableQueue(conf, s);
    QueueFrame(s, a);
    DoKeepsConf(s, a);
    match a
    case ReaderStep(r) => StuckStaysByReader(conf, s, r);
    case _ =>
  }

  lemma StuckStaysByReader(conf: Config, s: State, r: ReaderAct)
    requires Reachable(conf, s) && ReaderReady(s, r) && Stuck(s) && QueueInv(s)
    ensures Stuck(DoReader(s, r))
  {
    match r
    case HandleNext(renewed) => StuckStaysByHandle(s, renewed);
    case SendRefusal => GoingOnNeeds(s.conf, s.reader.next, s.reader.err);
    case WriteDest(_, _) => GoingOnNeeds(s.conf, s.reader.next, s.reader.err);
    case _ =>
  }

  lemma GoingOnNeeds(conf: Config, next: seq<Packet>, err: Option<RunResult>)
    ensures Running(GoOn(next, err)) ==> Needed(conf, GoOn(next, err)) == Ahead(conf, next)
    ensures !Running(GoOn(next, err)) ==> GoOn(next, err).Returned? && next == []
  {
  }

  lemma StuckStaysByHandle(s: State, renewed: bool)
    requires ReaderReady(s, HandleNext(renewed)) && Stuck(s) && QueueInv(s)
    ensures Stuck(DoReader(s, HandleNext(renewed)))
  {
    var p := s.reader.next[0];
    assert !CanEnd(s.conf, p);
    VerdictIsVerdict(p, s.conf.renewal, renewed);
    HandlingNeeds(s);
    var s1 := s.(handled := s.handled + [p]);
    HandleFrame(s1, p, s.reader.next[1..], s.reader.err, false);
  }

  lemma {:induction false} StuckForever(conf: Config, s: State, steps: seq<Action>, s': State)
    requires Reachable(conf, s) && Stuck(s) && Path(s, steps, s')
    ensures Stuck(s')
    decreases |steps|
  {
    if steps != [] {
      StuckStays(conf, s, steps[0]);
      ReachableStep(conf, s, steps[0]);
      StuckForever(conf, Do(s, steps[0]), steps[1..], s');
    }
  }

  // ---- A way out ----

  /** One more step on the way. */
  lemma Onwards(conf: Config, s: State, steps: seq<Action>, s1: State, a: Action)
    returns (steps': seq<Action>, s': State)
    requires Reachable(conf, s1) && Path(s, steps, s1) && Enabled(s1, a)
    ensures Reachable(conf, s') && Path(s, steps', s') && s' == Do(s1, a)
  {
    ReachableStep(conf, s1, a);
    PathSnoc(s, steps, s1, a);
    steps', s' := steps + [a], Do(s1, a);
  }

  function Stage(reader: Reader): nat {
    if reader.Starting? || reader.Blocked? || reader.Delivering? then 1 else 0
  }

  /** The reader has a continuation that brings it nearer the end of its loop. */
  ghost predicate Nearer(s: State, s': State) {
    || s'.reader.Returned?
    || (Running(s'.reader) && !Stuck(s')
        && (|| |Next(s'.reader)| < |Next(s.reader)|
            || (|Next(s'.reader)| == |Next(s.reader)| && Stage(s'.reader) < Stage(s.reader))))
  }

  /** While the reader waits for its read, the server can close the connection. */
  lemma ReadEnds(s: State)
    requires s.reader.AtRead?
    ensures Enabled(s, ReaderStep(ReadServer([], Some(Eof))))
    ensures Do(s, ReaderStep(ReadServer([], Some(Eof)))).reader.Returned?
  {
  }

  lemma StartsReading(conf: Config, s: State)
    requires Reachable(conf, s) && s.reader.Starting?
    ensures Enabled(s, ReaderStep(SendRenewRequest))
    ensures Nearer(s, Do(s, ReaderStep(SendRenewRequest)))
  {
    ReachableReader(conf, s);
  }

  lemma HandlesNearer(conf: Config, s: State) returns (a: Action)
    requires Reachable(conf, s) && s.reader.Handling? && !Stuck(s)
    ensures Enabled(s, a) && Nearer(s, Do(s, a))
  {
    ReachableReader(conf, s);
    var p := s.reader.next[0];
    if CanEnd(s.conf, p) {
      a := ReaderStep(HandleNext(p.cmd == CMD_RENEW_RESPONSE));
    } else {
      a := ReaderStep(HandleNext(false));
      HandlingNeeds(s);
      var s1 := s.(handled := s.handled + [p]);
      HandleFrame(s1, p, s.reader.next[1..], s.reader.err, false);
    }
  }

  lemma DeliversNearer(conf: Config, s: State)
    requires Reachable(conf, s) && s.reader.Delivering? && !Stuck(s)
    ensures Enabled(s, ReaderStep(WriteDest(|s.reader.rest|, false)))
    ensures Nearer(s, Do(s, ReaderStep(WriteDest(|s.reader.rest|, false))))
  {
    ReachableDelivery(conf, s);
    GoingOnNeeds(s.conf, s.reader.next, s.reader.err);
  }

  lemma RefusesNearer(s: State, s1: State)
    requires s.reader.Blocked? && !Stuck(s) && s.reader.tag < |s.sessions|
    requires s1.reader == s.reader && s1.sessions == s.sessions && s1.conf == s.conf && Room(s1)
    requires if s.writer.Exited? then s1 == s else !s1.writer.Exited?
    ensures Enabled(s1, ReaderStep(SendRefusal)) && Nearer(s, Do(s1, ReaderStep(SendRefusal)))
  {
    GoingOnNeeds(s.conf, s.reader.next, s.reader.err);
  }

  lemma BlockedNearer(conf: Config, s: State) returns (steps: seq<Action>, s': State)
    requires Reachable(conf, s) && s.reader.Blocked? && !Stuck(s)
    ensures Path(s, steps, s') && Reachable(conf, s') && Nearer(s, s')
  {
    ReachableReader(conf, s);
    ReachableQueue(conf, s);
    var first, s1 := MakesRoom(s);
    PathKeepsConf(s, first, s1);
    ReachablePath(conf, s, first, s1);
    RefusesNearer(s, s1);
    steps, s' := Onwards(conf, s, first, s1, ReaderStep(SendRefusal));
  }

  lemma ReachablePath(conf: Config, s: State, steps: seq<Action>, s': State)
    requires Reachable(conf, s) && Path(s, steps, s')
    ensures Reachable(conf, s')
  {
    var first :| Path(Init(conf), first, s);
    PathAppend(Init(conf), first, s, steps, s');
  }

  /** A running reader that is not stuck gets nearer the end of its loop. */
  lemma GetsNearer(conf: Config, s: State) returns (steps: seq<Action>, s': State)
    requires Reachable(conf, s) && Running(s.reader) && !Stuck(s)
    ensures Path(s, steps, s') && Reachable(conf, s') && Nearer(s, s')
  {
    match s.reader
    case Starting =>
      StartsReading(conf, s);
      steps, s' := Onwards(conf, s, [], s, ReaderStep(SendRenewRequest));
    case AtRead =>
      ReadEnds(s);
      steps, s' := Onwards(conf, s, [], s, ReaderStep(ReadServer([], Some(Eof))));
    case Handling(_, _) =>
      var a := HandlesNearer(conf, s);
      steps, s' := Onwards(conf, s, [], s, a);
    case Blocked(_, _, _, _) =>
      steps, s' := BlockedNearer(conf, s);
    case Delivering(_, rest, _, _) =>
      DeliversNearer(conf, s);
      steps, s' := Onwards(conf, s, [], s, ReaderStep(WriteDest(|rest|, false)));
  }

  /** And so, step by step, to the end of it. */
  lemma {:induction false} LoopEnds(conf: Config, s: State) returns (steps: seq<Action>, s': State)
    requires Reachable(conf, s) && Running(s.reader) && !Stuck(s)
    ensures Path(s, steps, s') && Reachable(conf, s') && s'.reader.Returned?
    decreases |Next(s.reader)|, Stage(s.reader)
  {
    var first, s1 := GetsNearer(conf, s);
    if s1.reader.Returned? {
      steps, s' := first, s1;
    } else {
      var more;
      more, s' := LoopEnds(conf, s1);
      PathAppend(s, first, s1, more, s');
      steps := first + more;
    }
  }

  /** Once the loop is over nothing keeps Run from returning. */
  lemma ShutdownEnds(conf: Config, s: State) returns (steps: seq<Action>, s': State)
    requires Reachable(conf, s) && !Running(s.reader)
    ensures Path(s, steps, s') && s'.reader.Finished?
  {
    steps, s' := [], s;
    if s'.reader.Returned? {
      steps, s' := Onwards(conf, s, steps, s', ReaderStep(CloseDone));
    }
    if s'.reader.DoneClosed? {
      steps, s' := Onwards(conf, s, steps, s', ReaderStep(EmptyDests));
    }
  }

  /** Run returns in some continuation. */
  ghost predicate CanReturn(s: State) {
    exists steps, s' :: Path(s, steps, s') && s'.reader.Finished?
  }

  /** Exactly when Run can still return: unless its loop is running, the writer is gone and
      the queue has no room for the refusals the reader must send before its loop can end,
      the one it is sending included. */
  lemma RunReturnsExactly(conf: Config, s: State)
    requires Reachable(conf, s)
    ensures CanReturn(s) <==>
      (Running(s.reader) && s.writer.Exited? ==>
        |s.queue| + One(s.reader.Blocked?) + Ahead(conf, Next(s.reader)) <= QUEUE_CAPACITY)
  {
    ReachableConf(conf, s);
    if Stuck(s) {
      forall steps, s' | Path(s, steps, s') ensures !s'.reader.Finished? {
        StuckForever(conf, s, steps, s');
      }
    } else {
      var steps, s1 := [], s;
      if Running(s.reader) {
        steps, s1 := LoopEnds(conf, s);
      }
      var more, s' := ShutdownEnds(conf, s1);
      PathAppend(s, steps, s1, more, s');
      assert Path(s, steps + more, s') && s'.reader.Finished?;
    }
  }
}
