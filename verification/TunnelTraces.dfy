/** What the steps of a run say about the state it leads to: what a goroutine did follows from
    what the environment did to it, dials, reads, ticks and failed writes. */
module TunnelTraces {
  import opened Framing
  import opened Tunnel
  import opened TunnelCounts
  import opened TunnelQueue
  import opened TunnelRuns
  import opened TunnelSessions

  /** The last step of a run. */
  lemma {:induction false} PathLast(s: State, steps: seq<Action>, s': State) returns (s1: State)
    requires Path(s, steps, s') && steps != []
    ensures var n := |steps| - 1;
      Path(s, steps[..n], s1) && Enabled(s1, steps[n]) && s' == Do(s1, steps[n])
    decreases |steps|
  {
    if |steps| == 1 {
      s1 := s;
      assert steps[1..] == [] && steps[..0] == [];
    } else {
      var n := |steps| - 1;
      s1 := PathLast(Do(s, steps[0]), steps[1..], s');
      PathCons(s, steps[0], steps[1..][..n - 1], s1);
      FrontOf(steps);
    }
  }

  lemma FrontOf(steps: seq<Action>)
    requires |steps| > 1
    ensures [steps[0]] + steps[1..][..|steps| - 2] == steps[..|steps| - 1]
    ensures steps[1..][|steps| - 2] == steps[|steps| - 1]
  {
  }

  lemma PathReaches(conf: Config, steps: seq<Action>, s: State)
    requires Path(Init(conf), steps, s)
    ensures Reachable(conf, s)
  {
  }

  // ---- What a session's goroutine went through ----

  /** A read from the session's destination gave an error. */
  ghost predicate ReadFailed(steps: seq<Action>, t: nat) {
    exists chunk :: SessionStep(t, ReadDest(chunk, true)) in steps
  }

  /** The session's position and answer follow from its dial and its reads. */
  ghost predicate Fits(sess: Session, steps: seq<Action>, t: nat, done: bool) {
    && DialFits(sess, steps, t)
    && (sess.pc.Forwarding? ==> (sess.pc.last <==> ReadFailed(steps, t)))
    && (sess.pc.Closing? || sess.pc.Removing? || sess.pc.Ended? ==> done || ReadFailed(steps, t))
    && (ReadFailed(steps, t) ==>
         sess.pc.Forwarding? || sess.pc.Closing? || sess.pc.Removing? || sess.pc.Ended?)
  }

  predicate DialFits(sess: Session, steps: seq<Action>, t: nat) {
    && (sess.pc.DialFailed? ==> SessionStep(t, DialFails(sess.pc.reason)) in steps)
    && (sess.pc.Unreachable? ==>
         sess.answer.Failed? && SessionStep(t, DialFails(sess.answer.reason)) in steps)
    && (sess.pc.Connected? || sess.answer.Succeeded? ==> SessionStep(t, DialSucceeds) in steps)
  }

  /** Before its request is handled a session has taken no step. */
  ghost predicate FitsAt(s: State, steps: seq<Action>, t: nat) {
    if t < |s.sessions| then Fits(s.sessions[t], steps, t, s.done)
    else forall a :: SessionStep(t, a) !in steps
  }

  lemma AfterFits(conf: Config, sess: Session, a: SessionAct, seen: nat, finished: bool,
                  steps: seq<Action>, t: nat, room: bool, done: bool)
    requires SessionInv(conf, sess) && Ready(sess, a, room, done) && Ready(sess, a, true, true)
    requires Fits(sess, steps, t, done)
    ensures Fits(After(sess, a, seen, finished), steps + [SessionStep(t, a)], t, done)
  {
    ReadFailedSnoc(steps, t, a);
    DialFitsAfter(conf, sess, a, seen, finished, steps, t);
    match a
    case ReadDest(_, _) =>
    case Forward =>
    case DropChunk =>
    case SendDestroy =>
    case SkipDestroy =>
    case Remove =>
    case Register =>
    case _ =>
  }

  lemma DialFitsAfter(conf: Config, sess: Session, a: SessionAct, seen: nat, finished: bool,
                      steps: seq<Action>, t: nat)
    requires SessionInv(conf, sess) && Ready(sess, a, true, true) && DialFits(sess, steps, t)
    ensures DialFits(After(sess, a, seen, finished), steps + [SessionStep(t, a)], t)
  {
    match a
    case DialFails(_) =>
    case DialSucceeds =>
    case SendFailure =>
    case SendSuccess =>
    case GiveUp =>
    case _ =>
  }

  lemma ReadFailedSnoc(steps: seq<Action>, t: nat, a: SessionAct)
    ensures ReadFailed(steps + [SessionStep(t, a)], t)
       <==> ReadFailed(steps, t) || (a.ReadDest? && a.failed)
  {
    if a.ReadDest? && a.failed {
      assert SessionStep(t, ReadDest(a.chunk, true)) in steps + [SessionStep(t, a)];
    }
    if chunk :| SessionStep(t, ReadDest(chunk, true)) in steps {
      assert SessionStep(t, ReadDest(chunk, true)) in steps + [SessionStep(t, a)];
    }
  }

  /** Steps of others do not matter to it. */
  lemma OthersFit(sess: Session, sess': Session, steps: seq<Action>, t: nat, a: Action, done: bool, done': bool)
    requires Fits(sess, steps, t, done) && (done ==> done') && !(a.SessionStep? && a.tag == t)
    requires Touched(sess, sess')
    ensures Fits(sess', steps + [a], t, done')
  {
    assert forall act :: SessionStep(t, act) in steps + [a] <==> SessionStep(t, act) in steps;
  }

  lemma FitsKept(conf: Config, s: State, steps: seq<Action>, t: nat, a: Action)
    requires Reachable(conf, s) && Enabled(s, a) && FitsAt(s, steps, t)
    ensures FitsAt(Do(s, a), steps + [a], t)
  {
    ReachableSpeaks(conf, s);
    match a
    case SessionStep(u, act) =>
      if u == t {
        AfterFits(s.conf, s.sessions[t], act, |DataFor(s.handled, s.sessions[t].id)|, s.reader.Finished?,
          steps, t, Room(s), s.done);
      } else if t < |s.sessions| {
        OthersFit(s.sessions[t], s.sessions[t], steps, t, a, s.done, s.done);
      }
    case ReaderStep(r) => FitsKeptByReader(conf, s, steps, t, r);
    case _ =>
      if t < |s.sessions| {
        OthersFit(s.sessions[t], s.sessions[t], steps, t, a, s.done, s.done);
      }
  }

  lemma FitsKeptByReader(conf: Config, s: State, steps: seq<Action>, t: nat, r: ReaderAct)
    requires Reachable(conf, s) && ReaderReady(s, r) && FitsAt(s, steps, t)
    ensures FitsAt(DoReader(s, r), steps + [ReaderStep(r)], t)
  {
    if r.SendRefusal? {
      ReachableReader(conf, s);
      RefusalFits(s, steps, t);
    } else {
      DoneStays(s, r);
      if t < |s.sessions| {
        SessionTouched(s, r, t);
        OthersFit(s.sessions[t], DoReader(s, r).sessions[t], steps, t, ReaderStep(r), s.done, DoReader(s, r).done);
      } else {
        NewFits(s, r, steps, t);
      }
    }
  }

  lemma SessionTouched(s: State, r: ReaderAct, t: nat)
    requires ReaderReady(s, r) && !r.SendRefusal? && t < |s.sessions|
    ensures t < |DoReader(s, r).sessions| && Touched(s.sessions[t], DoReader(s, r).sessions[t])
  {
    ReaderSessions(s, r);
    var ss' := DoReader(s, r).sessions;
    assert Adds(s, ss') ==> ss'[t] == ss'[..|s.sessions|][t];
  }

  lemma NewFits(s: State, r: ReaderAct, steps: seq<Action>, t: nat)
    requires ReaderReady(s, r) && !r.SendRefusal? && t >= |s.sessions|
    requires forall a :: SessionStep(t, a) !in steps
    ensures FitsAt(DoReader(s, r), steps + [ReaderStep(r)], t)
  {
    ReaderSessions(s, r);
    assert !ReadFailed(steps + [ReaderStep(r)], t);
  }

  lemma DoneStays(s: State, r: ReaderAct)
    requires ReaderReady(s, r)
    ensures s.done ==> DoReader(s, r).done
  {
    if r.HandleNext? {
      var p := s.reader.next[0];
      HandleFrame(s.(handled := s.handled + [p]), p, s.reader.next[1..], s.reader.err, r.renewed);
    }
  }

  lemma RefusalFits(s: State, steps: seq<Action>, t: nat)
    requires ReaderReady(s, SendRefusal) && BlockedInv(s) && FitsAt(s, steps, t)
    ensures FitsAt(DoReader(s, SendRefusal), steps + [ReaderStep(SendRefusal)], t)
  {
    var a := ReaderStep(SendRefusal);
    assert forall act :: SessionStep(t, act) in steps + [a] <==> SessionStep(t, act) in steps;
  }

  lemma {:induction false} SessionFits(conf: Config, steps: seq<Action>, s: State, t: nat)
    requires Path(Init(conf), steps, s)
    ensures FitsAt(s, steps, t)
    decreases |steps|
  {
    if steps != [] {
      var n := |steps| - 1;
      var s1 := PathLast(Init(conf), steps, s);
      PathReaches(conf, steps[..n], s1);
      SessionFits(conf, steps[..n], s1, t);
      FitsKept(conf, s1, steps[..n], t, steps[n]);
      assert steps[..n] + [steps[n]] == steps;
    }
  }

  /** In any run, a session's goroutine leaves its read loop only after a read of its
      destination failed, or with done closed; and after such a read it is not in it. */
  lemma EndsOnFailedRead(conf: Config, steps: seq<Action>, s: State, t: nat)
    requires Path(Init(conf), steps, s) && t < |s.sessions|
    ensures var pc := s.sessions[t].pc;
      && (pc.Closing? || pc.Removing? || pc.Ended? ==> s.done || ReadFailed(steps, t))
      && (ReadFailed(steps, t) ==> !pc.Reading? && (pc.Forwarding? ==> pc.last))
  {
    SessionFits(conf, steps, s, t);
  }

  /** A failure answered to a request that was dialled is the text of its failed dial, and a
      success follows a successful one. */
  lemma AnswerTellsDial(conf: Config, steps: seq<Action>, s: State, t: nat)
    requires Path(Init(conf), steps, s) && t < |s.sessions|
    ensures match s.sessions[t].answer
      case NoAnswer => true
      case Failed(reason) => s.sessions[t].pc.Refused? || SessionStep(t, DialFails(reason)) in steps
      case Succeeded => SessionStep(t, DialSucceeds) in steps
  {
    SessionFits(conf, steps, s, t);
    PathReaches(conf, steps, s);
    ReachableAt(conf, s, t);
  }

  // ---- The writer and the ticker ----

  ghost predicate WriteFailed(steps: seq<Action>) {
    exists n :: WriteServer(n, true) in steps
  }

  /** In any run the writer ends only after a failed write, or with done closed. */
  lemma {:induction false} WriterEndsOnFailure(conf: Config, steps: seq<Action>, s: State)
    requires Path(Init(conf), steps, s)
    ensures s.writer.Exited? ==> s.done || WriteFailed(steps)
    decreases |steps|
  {
    if steps != [] {
      var n := |steps| - 1;
      var s1 := PathLast(Init(conf), steps, s);
      WriterEndsOnFailure(conf, steps[..n], s1);
      WriterEnds(s1, steps[..n], steps[n]);
      assert steps[..n] + [steps[n]] == steps;
    }
  }

  lemma WriterEnds(s: State, steps: seq<Action>, a: Action)
    requires Enabled(s, a) && (s.writer.Exited? ==> s.done || WriteFailed(steps))
    ensures Do(s, a).writer.Exited? ==> Do(s, a).done || WriteFailed(steps + [a])
  {
    QueueFrame(s, a);
    if n :| WriteServer(n, true) in steps {
      assert WriteServer(n, true) in steps + [a];
    }
    match a
    case ReaderStep(r) => DoneStays(s, r);
    case WriteServer(n, failed) => assert failed ==> WriteServer(n, true) in steps + [a];
    case _ =>
  }

  /** The ticker ends only with done closed. */
  lemma TickerEndsOnDone(conf: Config, s: State)
    requires Reachable(conf, s)
    ensures s.ticker.Stopped? ==> s.done
  {
    ReachableInv(conf, s);
  }

  function Ticks(steps: seq<Action>): nat {
    if steps == [] then 0 else Ticks(steps[..|steps| - 1]) + One(steps[|steps| - 1].Tick?)
  }

  /** KEEPALIVEs in the queue's history. */
  function Keepalives(es: seq<Entry>): nat {
    if es == [] then 0 else
      Keepalives(es[..|es| - 1]) + One(es[|es| - 1].pkt == Packet(CMD_KEEPALIVE, []))
  }

  /** Every tick has queued one KEEPALIVE, but for the one in hand and one given up when done
      was closed; and nothing else queues any. */
  predicate TicksFit(ticker: Ticker, keepalives: nat, ticks: nat) {
    if ticker.Stopped? then keepalives <= ticks <= keepalives + 1
    else ticks == keepalives + One(ticker.Ticked?)
  }

  lemma KeepalivesSnoc(es: seq<Entry>, e: Entry)
    ensures Keepalives(es + [e]) == Keepalives(es) + One(e.pkt == Packet(CMD_KEEPALIVE, []))
  {
    assert (es + [e])[..|es|] == es;
  }

  lemma TicksSnoc(steps: seq<Action>, a: Action)
    ensures Ticks(steps + [a]) == Ticks(steps) + One(a.Tick?)
  {
    assert (steps + [a])[..|steps|] == steps;
  }

  lemma TicksFitKept(s: State, steps: seq<Action>, a: Action)
    requires Enabled(s, a) && TicksFit(s.ticker, Keepalives(s.enqueued), Ticks(steps))
    requires s.reader.Starting? ==> s.ticker.NotStarted?
    ensures TicksFit(Do(s, a).ticker, Keepalives(Do(s, a).enqueued), Ticks(steps + [a]))
  {
    TicksSnoc(steps, a);
    match a
    case SendKeepalive => KeepalivesSnoc(s.enqueued, Entry(Agent, Keepalive()));
    case SessionStep(t, act) =>
      if Emits(s.sessions[t], act).Some? {
        KeepalivesSnoc(s.enqueued, Entry(Of(t), Emits(s.sessions[t], act).value));
        NotKeepalive(s.sessions[t], act);
      } else {
        assert s.enqueued + [] == s.enqueued;
      }
    case ReaderStep(r) => TicksFitReader(s, r);
    case _ =>
  }

  lemma NotKeepalive(sess: Session, a: SessionAct)
    requires Ready(sess, a, true, true)
    ensures Emits(sess, a).Some? ==> Emits(sess, a).value.cmd != CMD_KEEPALIVE
  {
  }

  lemma TicksFitReader(s: State, r: ReaderAct)
    requires ReaderReady(s, r) && (s.reader.Starting? ==> s.ticker.NotStarted?)
    ensures var s' := DoReader(s, r);
      && Keepalives(s'.enqueued) == Keepalives(s.enqueued)
      && (s'.ticker == s.ticker || (s.ticker.NotStarted? && s'.ticker.Idle?))
  {
    assert s.enqueued + [] == s.enqueued;
    if r.HandleNext? {
      var p := s.reader.next[0];
      HandleFrame(s.(handled := s.handled + [p]), p, s.reader.next[1..], s.reader.err, r.renewed);
    } else if r.SendRefusal? {
      var p := CreateResponse(s.sessions[s.reader.tag].id, 1, s.reader.reason);
      KeepalivesSnoc(s.enqueued, Entry(Of(s.reader.tag), p));
    } else if r.SendRenewRequest? && s.conf.renewal {
      KeepalivesSnoc(s.enqueued, Entry(Agent, RenewRequest(s.conf.identifier)));
    }
  }

  lemma TickerStartsLater(conf: Config, s: State)
    requires Reachable(conf, s)
    ensures s.reader.Starting? ==> s.ticker.NotStarted?
  {
    ReachableReader(conf, s);
  }

  lemma {:induction false} KeepalivePerTick(conf: Config, steps: seq<Action>, s: State)
    requires Path(Init(conf), steps, s)
    ensures TicksFit(s.ticker, Keepalives(s.enqueued), Ticks(steps))
    decreases |steps|
  {
    if steps != [] {
      var n := |steps| - 1;
      var s1 := PathLast(Init(conf), steps, s);
      PathReaches(conf, steps[..n], s1);
      TickerStartsLater(conf, s1);
      KeepalivePerTick(conf, steps[..n], s1);
      TicksFitKept(s1, steps[..n], steps[n]);
      assert steps[..n] + [steps[n]] == steps;
    }
  }

  // ---- Writes to a destination ----

  /** A failed write ends the sending of that payload: the reader goes on with what follows. */
  lemma FailedWriteGoesOn(s: State, n: nat)
    requires Enabled(s, ReaderStep(WriteDest(n, true)))
    ensures Do(s, ReaderStep(WriteDest(n, true))).reader == GoOn(s.reader.next, s.reader.err)
    ensures !Do(s, ReaderStep(WriteDest(n, true))).sessions[s.reader.tag].intact
  {
  }
}
