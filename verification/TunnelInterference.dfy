/** What the steps of the other goroutines leave alone, seen from one of them. */
module TunnelInterference {
  import opened Tunnel
  import opened TunnelQueue
  import opened TunnelReader
  import opened TunnelSessions

  datatype Role = TheReader | TheWriter | TheTicker | Goroutine(tag: nat)

  predicate Mine(who: Role, a: Action) {
    match a
    case ReaderStep(_) => who.TheReader?
    case TakePacket | WriteServer(_, _) | WriterSeesDone => who.TheWriter?
    case Tick | SendKeepalive | TickerSeesDone => who.TheTicker?
    case SessionStep(t, _) => who == Goroutine(t)
  }

  /** What one goroutine can rely on while the others run. */
  ghost predicate Untouched(who: Role, s: State, s': State) {
    match who
    case TheReader =>
      s' == s.(reader := s.reader, queue := s'.queue, enqueued := s'.enqueued, taken := s'.taken,
        dests := s'.dests, sessions := s'.sessions, writer := s'.writer, wire := s'.wire, ticker := s'.ticker)
      && |s'.sessions| == |s.sessions|
    case TheWriter => s'.writer == s.writer && s'.wire == s.wire && (s.done ==> s'.done)
    case TheTicker => s'.ticker == s.ticker && (s.done ==> s'.done)
    case Goroutine(t) =>
      t < |s.sessions| <= |s'.sessions| && Touched(s.sessions[t], s'.sessions[t]) && (s.done ==> s'.done)
  }

  predicate Started(who: Role, s: State) {
    && (who.Goroutine? ==> who.tag < |s.sessions| && !s.sessions[who.tag].pc.Refusing?)
    && (who.TheTicker? ==> !s.ticker.NotStarted?)
  }

  lemma UntouchedTrans(who: Role, s: State, s1: State, s2: State)
    requires Untouched(who, s, s1) && Untouched(who, s1, s2)
    ensures Untouched(who, s, s2)
  {
  }

  lemma UntouchedRefl(who: Role, s: State)
    requires Started(who, s)
    ensures Untouched(who, s, s)
  {
  }

  lemma StepUntouched(who: Role, s: State, a: Action)
    requires Enabled(s, a) && !Mine(who, a) && BlockedInv(s) && FirstInv(s) && Started(who, s)
    ensures Untouched(who, s, Do(s, a))
  {
    match a
    case ReaderStep(r) => ReaderUntouched(who, s, r);
    case SessionStep(t, act) => SessionUntouched(who, s, t, act);
    case _ =>
  }

  lemma SessionUntouched(who: Role, s: State, t: nat, act: SessionAct)
    requires Enabled(s, SessionStep(t, act)) && who != Goroutine(t) && Started(who, s)
    ensures Untouched(who, s, DoSession(s, t, act))
  {
  }

  lemma ReaderUntouched(who: Role, s: State, r: ReaderAct)
    requires ReaderReady(s, r) && !who.TheReader? && BlockedInv(s) && FirstInv(s) && Started(who, s)
    ensures Untouched(who, s, DoReader(s, r))
  {
    if r.HandleNext? {
      var p := s.reader.next[0];
      HandleFrame(s.(handled := s.handled + [p]), p, s.reader.next[1..], s.reader.err, r.renewed);
    }
    if who.Goroutine? {
      ReaderSessions(s, r);
      var ss' := DoReader(s, r).sessions;
      if Adds(s, ss') {
        assert ss'[who.tag] == ss'[..|s.sessions|][who.tag];
      }
    }
  }
}
