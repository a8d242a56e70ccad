/** The reader's history as the sequential read loop tells it: in any run the verdicts of the
    packets handled make an outcome of ReadLoop on the bytes received. */
module TunnelHistory {
  import opened Bytes
  import opened Framing
  import opened Outcomes
  import opened Tunnel
  import opened TunnelQueue
  import opened TunnelReader
  import ReadLoop

  /** h is what the reader has done: nothing that ended the loop while it runs, and in the end
      an outcome of the sequential loop on all bytes received. */
  ghost predicate Told(s: State, h: ReadLoop.History) {
    && h.handled == s.handled
    && (s.reader.Handling? ==> s.reader.next != [])
    && if Running(s.reader) then ReadLoop.Quiet(h.handled, s.conf.renewal, h.verdicts)
       else ReadLoop.Outcome(Decode(s.inbound).packets, s.conf.renewal, s.readErr, h.handled, h.verdicts,
         Some(s.reader.result))
  }

  function Extended(h: ReadLoop.History, p: Packet, v: Option<RunResult>): ReadLoop.History {
    h.(handled := h.handled + [p], verdicts := h.verdicts + [v])
  }

  /** Handling a packet adds it with its verdict. */
  lemma ToldByHandle(s: State, renewed: bool, h: ReadLoop.History)
    requires ReaderReady(s, HandleNext(renewed)) && ReaderInv(s) && Told(s, h)
    ensures Told(DoReader(s, HandleNext(renewed)), Extended(h, s.reader.next[0], VerdictOf(s.reader.next[0], renewed)))
  {
    var p, next, err := s.reader.next[0], s.reader.next[1..], s.reader.err;
    var s1, v := s.(handled := s.handled + [p]), VerdictOf(p, renewed);
    HandleFrame(s1, p, next, err, renewed);
    VerdictIsVerdict(p, s.conf.renewal, renewed);
    HandleFlows(s1, p, next, err, renewed);
    assert s.reader.next == [p] + next;
    FlowsTold(Decode(s.inbound).packets, s.conf.renewal, h, p, v, next, err, Handle(s1, p, next, err, renewed).reader);
  }

  lemma FlowsTold(all: seq<Packet>, renewal: bool, h: ReadLoop.History, p: Packet, v: Option<RunResult>,
                  next: seq<Packet>, err: Option<RunResult>, reader: Reader)
    requires all == h.handled + ([p] + next) && ReadLoop.Quiet(h.handled, renewal, h.verdicts)
    requires PacketVerdict(p, renewal, v) && Flows(v, next, err, reader)
    ensures reader.Handling? ==> reader.next != []
    ensures var h' := Extended(h, p, v);
      if Running(reader) then ReadLoop.Quiet(h'.handled, renewal, h'.verdicts)
      else reader.Returned? && ReadLoop.Outcome(all, renewal, err, h'.handled, h'.verdicts, Some(reader.result))
  {
    var h' := Extended(h, p, v);
    assert all == h'.handled + next;
    QuietSnoc(h, renewal, p, v);
    if v == None && next == [] {
      assert all == h'.handled;
      ReadLoop.QuietGoesOn(all, renewal, h'.verdicts, err);
    } else if v.Some? {
      ReadLoop.OutcomeMeaning(all, renewal, err, h'.handled, h'.verdicts, v);
    }
  }

  lemma QuietSnoc(h: ReadLoop.History, renewal: bool, p: Packet, v: Option<RunResult>)
    requires ReadLoop.Quiet(h.handled, renewal, h.verdicts) && PacketVerdict(p, renewal, v)
    ensures ReadLoop.Verdicts(h.handled + [p], renewal, h.verdicts + [v])
    ensures v == None ==> ReadLoop.Quiet(h.handled + [p], renewal, h.verdicts + [v])
  {
    var ps, vs := h.handled + [p], h.verdicts + [v];
    forall i | 0 <= i < |vs| ensures PacketVerdict(ps[i], renewal, vs[i]) {
      if i < |h.verdicts| {
        assert PacketVerdict(h.handled[i], renewal, h.verdicts[i]);
      }
    }
  }

  /** The reader's other steps handle nothing; if one of them ends the loop it is with the
      error of the last read, all packets handled. */
  lemma ToldByReader(s: State, r: ReaderAct, h: ReadLoop.History)
    requires ReaderReady(s, r) && ReaderInv(s) && Told(s, h) && !r.HandleNext?
    ensures Told(DoReader(s, r), h)
  {
    var s' := DoReader(s, r);
    ReaderKept(s, ReaderStep(r));
    if Running(s.reader) && !Running(s'.reader) {
      ReturnedQuietly(s', h);
    }
  }

  lemma ReturnedQuietly(s: State, h: ReadLoop.History)
    requires ReaderInv(s) && s.reader.Returned? && s.reader.result != Renewed && h.handled == s.handled
    requires ReadLoop.Quiet(h.handled, s.conf.renewal, h.verdicts)
    ensures ReadLoop.Outcome(Decode(s.inbound).packets, s.conf.renewal, s.readErr, h.handled, h.verdicts,
      Some(s.reader.result))
  {
    var n := |h.handled| - 1;
    if n >= 0 {
      assert PacketVerdict(h.handled[n], s.conf.renewal, h.verdicts[n]);
    }
    ReadLoop.QuietGoesOn(h.handled, s.conf.renewal, h.verdicts, s.readErr);
  }
}
