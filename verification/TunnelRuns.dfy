/** Runs of the step system: everything the invariants say holds in every reachable state. */
module TunnelRuns {
  import opened Tunnel
  import opened TunnelCounts
  import opened TunnelEmits
  import opened TunnelEndings
  import opened TunnelQueue
  import opened TunnelReader
  import opened TunnelRouting
  import opened TunnelSessions
  import opened TunnelSockets

  ghost predicate Inv(s: State) {
    && QueueInv(s) && WireInv(s)
    && SessionsInv(s) && BlockedInv(s) && EmitsInv(s)
    && DestInv(s) && InboxInv(s) && DeliveryInv(s) && PlacedInv(s)
    && SocketsInv(s) && EndInv(s) && EndingsInv(s)
    && ReaderInv(s) && FirstInv(s) && AgentInv(s) && CountInv(s)
  }

  lemma InitInv(conf: Config)
    ensures Inv(Init(conf))
  {
    var s := Init(conf);
    assert Packets(s.enqueued[..0]) == [];
    assert Proj(s.enqueued, 0) == [];
  }

  lemma InvKept(s: State, a: Action)
    requires Enabled(s, a) && Inv(s)
    ensures Inv(Do(s, a))
  {
    QueueKept(s, a);
    WireKept(s, a);
    SessionsKept(s, a);
    BlockedKept(s, a);
    EmitsKept(s, a);
    DestsKept(s, a);
    InboxKept(s, a);
    DeliveryKept(s, a);
    PlacedKept(s, a);
    SocketsKept(s, a);
    EndKept(s, a);
    EndingsKept(s, a);
    ReaderKept(s, a);
    FirstKept(s, a);
    AgentKept(s, a);
    CountKept(s, a);
  }

  /** Every run from a good state stays good. */
  lemma {:induction false} PathKeeps(s: State, steps: seq<Action>, s': State)
    requires Path(s, steps, s') && Inv(s)
    ensures Inv(s')
    decreases |steps|
  {
    if steps != [] {
      InvKept(s, steps[0]);
      PathKeeps(Do(s, steps[0]), steps[1..], s');
    }
  }

  lemma ReachableInv(conf: Config, s: State)
    requires Reachable(conf, s)
    ensures Inv(s)
  {
    InitInv(conf);
    var steps :| Path(Init(conf), steps, s);
    PathKeeps(Init(conf), steps, s);
  }

  // ---- What one needs of the invariants ----

  /** What is known of the queue's history. */
  predicate SpeaksInv(s: State) {
    SessionsInv(s) && EmitsInv(s) && AgentInv(s)
  }

  lemma ReachableSpeaks(conf: Config, s: State)
    requires Reachable(conf, s)
    ensures SpeaksInv(s)
  {
    ReachableInv(conf, s);
  }

  lemma ReachableQueue(conf: Config, s: State)
    requires Reachable(conf, s)
    ensures QueueInv(s) && WireInv(s)
  {
    ReachableInv(conf, s);
  }

  lemma ReachableReader(conf: Config, s: State)
    requires Reachable(conf, s)
    ensures ReaderInv(s) && FirstInv(s) && EndInv(s) && BlockedInv(s)
  {
    ReachableInv(conf, s);
  }

  lemma ReachableDelivery(conf: Config, s: State)
    requires Reachable(conf, s)
    ensures DeliveryInv(s)
  {
    ReachableInv(conf, s);
  }

  lemma ReachableMap(conf: Config, s: State)
    requires Reachable(conf, s)
    ensures DestInv(s) && PlacedInv(s) && BlockedInv(s)
  {
    ReachableInv(conf, s);
  }

  lemma ReachableCounts(conf: Config, s: State)
    requires Reachable(conf, s)
    ensures CountInv(s)
  {
    ReachableInv(conf, s);
  }

  /** What is known of one session. */
  lemma ReachableAt(conf: Config, s: State, t: nat)
    requires Reachable(conf, s) && t < |s.sessions|
    ensures SessionInv(s.conf, s.sessions[t]) && SocketOk(s.sessions[t]) && EndingAt(s, t)
    ensures Proj(s.enqueued, t) == Emitted(s.sessions[t])
    ensures InboxOkAt(s, t) && WrittenOk(s.reader, t, s.sessions[t])
  {
    ReachableInv(conf, s);
    assert Proj(s.enqueued, t) == EmittedBy(s.sessions, t);
  }

  lemma {:induction false} PathKeepsConf(s: State, steps: seq<Action>, s': State)
    requires Path(s, steps, s')
    ensures s'.conf == s.conf
    decreases |steps|
  {
    if steps != [] {
      DoKeepsConf(s, steps[0]);
      PathKeepsConf(Do(s, steps[0]), steps[1..], s');
    }
  }

  lemma ReachableConf(conf: Config, s: State)
    requires Reachable(conf, s)
    ensures s.conf == conf
  {
    var steps :| Path(Init(conf), steps, s);
    PathKeepsConf(Init(conf), steps, s);
  }

  lemma DoKeepsConf(s: State, a: Action)
    requires Enabled(s, a)
    ensures Do(s, a).conf == s.conf
  {
    if a.ReaderStep? && a.r.HandleNext? {
      var p := s.reader.next[0];
      HandleFrame(s.(handled := s.handled + [p]), p, s.reader.next[1..], s.reader.err, a.r.renewed);
    }
  }

  /** Runs compose. */
  lemma {:induction false} PathAppend(s: State, a: seq<Action>, s1: State, b: seq<Action>, s2: State)
    requires Path(s, a, s1) && Path(s1, b, s2)
    ensures Path(s, a + b, s2)
    decreases |a|
  {
    if a == [] {
      assert a + b == b;
    } else {
      var first, more := a[0], a[1..];
      PathAppend(Do(s, first), more, s1, b, s2);
      PathCons(s, first, more + b, s2);
      HeadAppend(a, b);
    }
  }

  lemma HeadAppend(a: seq<Action>, b: seq<Action>)
    requires a != []
    ensures a + b == [a[0]] + (a[1..] + b)
  {
  }

  lemma PathCons(s: State, a: Action, steps: seq<Action>, s': State)
    requires Enabled(s, a) && Path(Do(s, a), steps, s')
    ensures Path(s, [a] + steps, s')
  {
    assert ([a] + steps)[1..] == steps;
  }

  lemma PathSnoc(s: State, steps: seq<Action>, s1: State, a: Action)
    requires Path(s, steps, s1) && Enabled(s1, a)
    ensures Path(s, steps + [a], Do(s1, a))
  {
    assert Path(s1, [a], Do(s1, a)) by {
      assert [a][1..] == [];
    }
    PathAppend(s, steps, s1, [a], Do(s1, a));
  }

  lemma ReachableStep(conf: Config, s: State, a: Action)
    requires Reachable(conf, s) && Enabled(s, a)
    ensures Reachable(conf, Do(s, a))
  {
    var steps :| Path(Init(conf), steps, s);
    PathSnoc(Init(conf), steps, s, a);
  }
}
