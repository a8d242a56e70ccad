/** The queue and the wire: FIFO order, capacity, and what the writer has put on the wire. */
module TunnelQueue {
  import opened Bytes
  import opened Framing
  import opened Tunnel

  function Packets(es: seq<Entry>): seq<Packet> {
    seq(|es|, i requires 0 <= i < |es| => es[i].pkt)
  }

  /** The bytes of the frames the writer has taken. */
  function Sent(enqueued: seq<Entry>, taken: nat): bytes
    requires taken <= |enqueued|
  {
    Frames(Packets(enqueued[..taken]))
  }

  predicate QueueInv(s: State) {
    && s.taken <= |s.enqueued|
    && s.queue == s.enqueued[s.taken..]
    && |s.queue| <= QUEUE_CAPACITY
  }

  predicate WireInv(s: State) {
    && s.taken <= |s.enqueued|
    && var sent := Sent(s.enqueued, s.taken);
       match s.writer
       case Waiting => s.wire == sent
       case Writing(rest) => s.wire + rest == sent
       case Exited => s.wire <= sent
  }

  /** handlePacket changes only the sessions and the reader. */
  lemma HandleFrame(s: State, p: Packet, next: seq<Packet>, err: Option<Outcomes.RunResult>, renewed: bool)
    ensures var s' := Handle(s, p, next, err, renewed);
      s' == s.(sessions := s'.sessions, reader := s'.reader)
  {
    if p.cmd == CMD_CREATE_REQUEST {
      assert var s' := HandleCreate(s, p.payload, next, err);
        s' == s.(sessions := s'.sessions, reader := s'.reader);
    } else if p.cmd == CMD_DATA {
      assert var s' := HandleData(s, p.payload, next, err);
        s' == s.(sessions := s'.sessions, reader := s'.reader);
    }
  }

  /** How a step acts on the queue: the writer takes the head, or something is put at the
      end, or nothing happens; only the writer's steps touch the writer and the wire. */
  lemma QueueFrame(s: State, a: Action)
    requires Enabled(s, a)
    ensures var s' := Do(s, a);
      && (a.TakePacket? || Appends(s, s'))
      && (a.TakePacket? || a.WriteServer? || a.WriterSeesDone? ||
          (s'.writer == s.writer && s'.wire == s.wire))
      && (a.WriteServer? || a.WriterSeesDone? ==>
          s'.queue == s.queue && s'.enqueued == s.enqueued && s'.taken == s.taken)
  {
    match a
    case ReaderStep(r) =>
      if r.HandleNext? {
        var p := s.reader.next[0];
        HandleFrame(s.(handled := s.handled + [p]), p, s.reader.next[1..], s.reader.err, r.renewed);
      }
      ReaderAppends(s, r);
    case SessionStep(t, act) =>
      assert Do(s, a).enqueued == s.enqueued + Queued(Of(t), Emits(s.sessions[t], act));
    case _ =>
  }

  /** At most one packet was put at the end, and only if there was room. */
  predicate Appends(s: State, s': State) {
    && s'.taken == s.taken && |s.enqueued| <= |s'.enqueued| <= |s.enqueued| + 1
    && s'.enqueued[..|s.enqueued|] == s.enqueued
    && s'.queue == s.queue + s'.enqueued[|s.enqueued|..]
    && (|s'.enqueued| > |s.enqueued| ==> Room(s))
  }

  lemma ReaderAppends(s: State, r: ReaderAct)
    requires ReaderReady(s, r)
    ensures r.HandleNext? || Appends(s, DoReader(s, r))
    ensures r.HandleNext? || (DoReader(s, r).writer == s.writer && DoReader(s, r).wire == s.wire)
  {
  }

  lemma QueueKept(s: State, a: Action)
    requires Enabled(s, a) && QueueInv(s)
    ensures QueueInv(Do(s, a))
  {
    QueueFrame(s, a);
    var s' := Do(s, a);
    if a.TakePacket? {
      assert s'.queue == s.enqueued[s.taken..][1..];
    } else {
      assert s'.enqueued == s.enqueued + s'.enqueued[|s.enqueued|..];
    }
  }

  lemma WireKept(s: State, a: Action)
    requires Enabled(s, a) && QueueInv(s) && WireInv(s)
    ensures WireInv(Do(s, a))
  {
    QueueFrame(s, a);
    var s' := Do(s, a);
    if a.TakePacket? {
      SentNext(s.enqueued, s.taken);
    } else if a.WriteServer? {
      var rest := s.writer.rest;
      assert rest == rest[..a.n] + rest[a.n..];
      assert s.wire + rest == (s.wire + rest[..a.n]) + rest[a.n..];
    } else if !a.WriterSeesDone? {
      assert s'.enqueued[..s.taken] == s.enqueued[..s.taken];
    }
  }

  lemma SentNext(enqueued: seq<Entry>, taken: nat)
    requires taken < |enqueued|
    ensures Sent(enqueued, taken + 1) == Sent(enqueued, taken) + Frame(enqueued[taken].pkt)
  {
    var ps, p := Packets(enqueued[..taken]), enqueued[taken].pkt;
    assert Packets(enqueued[..taken + 1]) == ps + [p];
    FramesSnoc(ps, p);
  }
}
