/** How a connection ends: what is left after the writer has gone, when the reader can be
    stuck for good, what shutdown unblocks, and which sockets it leaves open. */
module TunnelEnds {
  import opened Bytes
  import opened Tunnel
  import opened TunnelQueue
  import opened TunnelRouting
  import opened TunnelRuns
  import opened TunnelSockets

  // ---- After the writer is gone ----

  /** Once the writer has returned, the wire never changes again, and all goroutines together
      queue at most as many further packets as the queue has room for: 256 at the most. */
  lemma QueueBoundAfterWriterExit(conf: Config, s: State, steps: seq<Action>, s': State)
    requires Reachable(conf, s) && s.writer.Exited? && Path(s, steps, s')
    ensures s'.writer.Exited? && s'.wire == s.wire
    ensures 0 <= |s'.enqueued| - |s.enqueued| <= 256 - |s.queue|
  {
    ReachableQueue(conf, s);
    OnlyFills(s, steps, s');
  }

  lemma {:induction false} OnlyFills(s: State, steps: seq<Action>, s': State)
    requires QueueInv(s) && s.writer.Exited? && Path(s, steps, s')
    ensures s'.writer.Exited? && s'.wire == s.wire
    ensures 0 <= |s'.enqueued| - |s.enqueued| == |s'.queue| - |s.queue| <= QUEUE_CAPACITY - |s.queue|
    decreases |steps|
  {
    if steps != [] {
      QueueFrame(s, steps[0]);
      QueueKept(s, steps[0]);
      OnlyFills(Do(s, steps[0]), steps[1..], s');
    }
  }

  // ---- A reader blocked in its own send ----

  /** The reader's own send has no done arm: with the writer gone and the queue full, a reader
      blocked in it stays there in every continuation, so done is never closed. */
  lemma {:induction false} BlockedForever(s: State, steps: seq<Action>, s': State)
    requires s.reader.Blocked? && s.writer.Exited? && !Room(s) && Path(s, steps, s')
    ensures s'.reader == s.reader && s'.done == s.done
    decreases |steps|
  {
    if steps != [] {
      StillBlocked(s, steps[0]);
      BlockedForever(Do(s, steps[0]), steps[1..], s');
    }
  }

  lemma StillBlocked(s: State, a: Action)
    requires s.reader.Blocked? && s.writer.Exited? && !Room(s) && Enabled(s, a)
    ensures var s' := Do(s, a);
      s'.reader == s.reader && s'.done == s.done && s'.writer.Exited? && !Room(s')
  {
    QueueFrame(s, a);
  }

  /** The reader moves in some continuation. */
  ghost predicate GetsOn(s: State) {
    exists steps, s' :: Path(s, steps, s') && s'.reader != s.reader
  }

  /** Exactly: a reader blocked in its own send gets on in some continuation if and only if
      the queue has room or the writer has not returned. */
  lemma BlockedGetsOnExactly(conf: Config, s: State)
    requires Reachable(conf, s) && s.reader.Blocked?
    ensures GetsOn(s) <==> !(s.writer.Exited? && !Room(s))
  {
    if s.writer.Exited? && !Room(s) {
      forall steps, s' | Path(s, steps, s') ensures s'.reader == s.reader {
        BlockedForever(s, steps, s');
      }
    } else {
      ReachableReader(conf, s);
      ReachableQueue(conf, s);
      var steps, s1 := MakesRoom(s);
      RefusalGoesOut(s1);
      PathSnoc(s, steps, s1, ReaderStep(SendRefusal));
      var s' := Do(s1, ReaderStep(SendRefusal));
      assert Path(s, steps + [ReaderStep(SendRefusal)], s') && s'.reader != s.reader;
    }
  }

  /** The writer finishes its frame and takes a packet. */
  lemma MakesRoom(s: State) returns (steps: seq<Action>, s': State)
    requires QueueInv(s) && (!s.writer.Exited? || Room(s))
    ensures Path(s, steps, s') && Room(s')
    ensures s'.reader == s.reader && s'.sessions == s.sessions
    ensures if s.writer.Exited? then s' == s else !s'.writer.Exited?
  {
    steps, s' := [], s;
    if !Room(s) {
      if s.writer.Writing? {
        var write := WriteServer(|s.writer.rest|, false);
        PathSnoc(s, steps, s, write);
        steps, s' := steps + [write], Do(s, write);
      }
      PathSnoc(s, steps, s', TakePacket);
      steps, s' := steps + [TakePacket], Do(s', TakePacket);
    }
  }

  lemma RefusalGoesOut(s: State)
    requires s.reader.Blocked? && s.reader.tag < |s.sessions| && Room(s)
    ensures Enabled(s, ReaderStep(SendRefusal))
    ensures Do(s, ReaderStep(SendRefusal)).reader != s.reader
  {
  }

  // ---- Shutdown ----

  /** The step a goroutine can take once done is closed, whatever the state of the queue: the
      environment lets its dial or its read fail. */
  function WayOut(pc: Pc): Option<SessionAct> {
    match pc
    case Dialing => Some(DialFails([]))
    case DialFailed(_) | Connected => Some(GiveUp)
    case Registering => Some(Register)
    case Reading => Some(ReadDest([], true))
    case Forwarding(_, _) => Some(DropChunk)
    case Closing => Some(SkipDestroy)
    case Removing => Some(Remove)
    case _ => None
  }

  /** The goroutine has returned, or was never started. */
  predicate GoroutineOver(pc: Pc) {
    pc.Refused? || pc.Unreachable? || pc.Abandoned? || pc.Ended?
  }

  /** Steps a goroutine needs at most to end once done is closed and dials and reads fail. */
  function StepsLeft(pc: Pc): nat {
    match pc
    case Registering => 4
    case Forwarding(_, _) | Reading => 3
    case Dialing | Closing => 2
    case DialFailed(_) | Connected | Removing => 1
    case _ => 0
  }

  /** After done is closed no goroutine blocks on the queue: it is over, or it can step,
      without needing room and without queueing anything, and is then nearer its end. */
  lemma ShutdownUnblocks(sess: Session, room: bool, seen: nat, finished: bool)
    ensures match WayOut(sess.pc)
      case Some(a) =>
        && Ready(sess, a, room, true) && Ready(sess, a, true, true) && Emits(sess, a).None?
        && StepsLeft(After(sess, a, seen, finished).pc) < StepsLeft(sess.pc)
        && !After(sess, a, seen, finished).pc.Refusing?
      case None => GoroutineOver(sess.pc) || sess.pc.Refusing?
  {
    if WayOut(sess.pc).Some? {
      var a := WayOut(sess.pc).value;
      WayOutReady(sess, room);
      WayOutLeads(sess, a, seen, finished);
    }
  }

  lemma WayOutReady(sess: Session, room: bool)
    requires WayOut(sess.pc).Some?
    ensures var a := WayOut(sess.pc).value;
      Ready(sess, a, room, true) && Ready(sess, a, true, true) && Emits(sess, a).None?
  {
  }

  lemma WayOutLeads(sess: Session, a: SessionAct, seen: nat, finished: bool)
    requires WayOut(sess.pc) == Some(a) && Ready(sess, a, true, true)
    ensures var pc := After(sess, a, seen, finished).pc;
      StepsLeft(pc) < StepsLeft(sess.pc) && !pc.Refusing?
  {
    match a
    case DialFails(_) =>
    case GiveUp =>
    case Register =>
    case ReadDest(_, _) =>
    case DropChunk =>
    case SkipDestroy =>
    case Remove =>
  }

  function AllStepsLeft(ss: seq<Session>): nat {
    if ss == [] then 0 else AllStepsLeft(ss[..|ss| - 1]) + StepsLeft(ss[|ss| - 1].pc)
  }

  lemma {:induction false} StepsLeftUpdate(ss: seq<Session>, t: nat, x: Session)
    requires t < |ss|
    ensures AllStepsLeft(ss[t := x]) + StepsLeft(ss[t].pc) == AllStepsLeft(ss) + StepsLeft(x.pc)
  {
    var n := |ss| - 1;
    if t == n {
      assert ss[t := x][..n] == ss[..n];
    } else {
      assert ss[t := x][..n] == ss[..n][t := x];
      StepsLeftUpdate(ss[..n], t, x);
    }
  }

  predicate AllOver(ss: seq<Session>) {
    forall t :: 0 <= t < |ss| ==> GoroutineOver(ss[t].pc)
  }

  predicate NoneRefusing(ss: seq<Session>) {
    forall t :: 0 <= t < |ss| ==> !ss[t].pc.Refusing?
  }

  /** s' differs from s in the sessions and the map only. */
  ghost predicate SameBut(s: State, s': State) {
    s' == s.(sessions := s'.sessions, dests := s'.dests)
  }

  lemma StepOut(s: State, t: nat) returns (a: Action)
    requires s.done && t < |s.sessions| && WayOut(s.sessions[t].pc).Some? && NoneRefusing(s.sessions)
    ensures Enabled(s, a) && SameBut(s, Do(s, a)) && NoneRefusing(Do(s, a).sessions)
    ensures AllStepsLeft(Do(s, a).sessions) < AllStepsLeft(s.sessions)
  {
    var sess, act := s.sessions[t], WayOut(s.sessions[t].pc).value;
    var seen, finished := |DataFor(s.handled, sess.id)|, s.reader.Finished?;
    ShutdownUnblocks(sess, Room(s), seen, finished);
    StepsLeftUpdate(s.sessions, t, After(sess, act, seen, finished));
    a := SessionStep(t, act);
    assert s.queue + [] == s.queue && s.enqueued + [] == s.enqueued;
  }

  /** Every session's goroutine can end. */
  lemma {:induction false} GoroutinesEnd(s: State) returns (steps: seq<Action>, s': State)
    requires s.done && NoneRefusing(s.sessions)
    ensures Path(s, steps, s') && SameBut(s, s') && AllOver(s'.sessions)
    decreases AllStepsLeft(s.sessions)
  {
    if t :| 0 <= t < |s.sessions| && WayOut(s.sessions[t].pc).Some? {
      var a := StepOut(s, t);
      var more;
      more, s' := GoroutinesEnd(Do(s, a));
      PathCons(s, a, more, s');
      steps := [a] + more;
    } else {
      steps, s' := [], s;
      forall t | 0 <= t < |s.sessions| ensures GoroutineOver(s.sessions[t].pc) {
        ShutdownUnblocks(s.sessions[t], Room(s), 0, s.reader.Finished?);
      }
    }
  }

  /** The reader, the ticker and the writer can end too; the writer's connection is closed. */
  lemma OthersEnd(s: State) returns (steps: seq<Action>, s': State)
    requires s.done && EndInv(s)
    ensures Path(s, steps, s')
    ensures s'.sessions == if s.reader.Finished? then s.sessions else CloseAll(s.sessions, s.dests)
    ensures s'.reader.Finished? && s'.ticker.Stopped? && s'.writer.Exited?
    ensures s'.done && s'.enqueued == s.enqueued && s'.wire == s.wire
  {
    steps, s' := [], s;
    if !s.reader.Finished? {
      steps, s' := EndStep(s, steps, s', ReaderStep(EmptyDests));
    }
    if !s'.ticker.Stopped? {
      steps, s' := EndStep(s, steps, s', TickerSeesDone);
    }
    if s'.writer.Waiting? {
      steps, s' := EndStep(s, steps, s', WriterSeesDone);
    } else if s'.writer.Writing? {
      assert s'.wire + s'.writer.rest[..0] == s'.wire;
      steps, s' := EndStep(s, steps, s', WriteServer(0, true));
    }
  }

  lemma EndStep(s: State, steps: seq<Action>, s1: State, a: Action) returns (steps': seq<Action>, s': State)
    requires Path(s, steps, s1) && Enabled(s1, a)
    ensures Path(s, steps', s') && s' == Do(s1, a)
  {
    PathSnoc(s, steps, s1, a);
    steps', s' := steps + [a], Do(s1, a);
  }

  /** Shutdown completes: from any reachable state in which done is closed there is a
      continuation, queueing nothing, after which Run has finished, every session's goroutine
      is over, and the ticker and the writer have stopped; however full the queue is. */
  lemma ShutdownCompletes(conf: Config, s: State) returns (steps: seq<Action>, s': State)
    requires Reachable(conf, s) && s.done
    ensures Path(s, steps, s') && s'.enqueued == s.enqueued && s'.wire == s.wire
    ensures s'.reader.Finished? && AllOver(s'.sessions) && s'.ticker.Stopped? && s'.writer.Exited?
  {
    ReachableReader(conf, s);
    var first, s1 := OthersEnd(s);
    var more;
    more, s' := GoroutinesEnd(s1);
    PathAppend(s, first, s1, more, s');
    steps := first + more;
  }

  // ---- Sockets left open ----

  /** With ids not reused, the destination sockets still open when Run has finished are
      exactly those of sessions that were not in the map at that moment and whose goroutine
      has not closed them since: before their registration, or registered afterwards and
      still in their read loop. */
  lemma OpenAfterFinish(conf: Config, s: State, t: nat)
    requires Reachable(conf, s) && Distinct(s.sessions) && t < |s.sessions| && s.reader.Finished?
    ensures var sess := s.sessions[t];
      sess.open <==>
        (sess.pc.Connected? || sess.pc.Registering? || (sess.late && (sess.pc.Reading? || sess.pc.Forwarding?)))
  {
    ReachableMap(conf, s);
    ReachableAt(conf, s, t);
    assert Placed(s, t);
  }

  /** Ids reused or not: a socket is open exactly before the registration, or in the session's
      read loop if neither a DESTROY from the server nor Run's shutdown closed it. Run closes
      those in the map when it empties it: not one whose entry was overwritten. */
  lemma OpenExactly(conf: Config, s: State, t: nat)
    requires Reachable(conf, s) && t < |s.sessions|
    ensures var sess := s.sessions[t];
      sess.open <==>
        || sess.pc.Connected? || sess.pc.Registering?
        || ((sess.pc.Reading? || sess.pc.Forwarding?) && !sess.ordered && !sess.swept)
  {
    ReachableAt(conf, s, t);
  }

  /** So once every goroutine is over, as it can always come to be, none is. */
  lemma NoneOpenWhenOver(conf: Config, s: State, t: nat)
    requires Reachable(conf, s) && t < |s.sessions| && GoroutineOver(s.sessions[t].pc)
    ensures !s.sessions[t].open
  {
    ReachableAt(conf, s, t);
  }
}
