/** The tunnel's read loop: reassembling packets from reads of any size in one buffer, and
    handling them until one of them, or a read, ends the connection. What handling a packet
    does to the destinations is in Tunnel; here it acts on the files and on control flow. */
module ReadLoop {
  import opened Bytes
  import opened Disk
  import opened FrameBuffers
  import opened Framing
  import opened Outcomes
  import opened Renewal

  /** One conn.Read: the bytes it gave and its error, if any. */
  datatype Read = Read(data: bytes, err: ReadError)

  /** What the first n reads gave. */
  function Stream(script: seq<Read>, n: nat): bytes
    requires n <= |script|
  {
    if n == 0 then [] else Stream(script, n - 1) + script[n - 1].data
  }

  /** None of the first n reads gave an error. */
  predicate ErrorFree(script: seq<Read>, n: nat)
    requires n <= |script|
  {
    n == 0 || (script[n - 1].err == None && ErrorFree(script, n - 1))
  }

  /** The verdicts of packets handled one after the other; only the last may be one. */
  ghost predicate Verdicts(ps: seq<Packet>, renewal: bool, vs: seq<Option<RunResult>>) {
    && |vs| <= |ps|
    && (forall i {:trigger PacketVerdict(ps[i], renewal, vs[i])} ::
         0 <= i < |vs| ==> PacketVerdict(ps[i], renewal, vs[i]))
    && (forall i :: 0 <= i < |vs| - 1 ==> vs[i] == None)
  }

  /** The loop's outcome when all are the packets of the stream: they are handled in order;
      one with a verdict ends the loop with it; when all are handled it is the read's error. */
  ghost predicate Outcome(all: seq<Packet>, renewal: bool, err: Option<RunResult>,
                          handled: seq<Packet>, verdicts: seq<Option<RunResult>>,
                          result: Option<RunResult>)
  {
    if all == [] then handled == [] && verdicts == [] && result == err
    else
      && handled != [] && verdicts != [] && handled[0] == all[0]
      && PacketVerdict(all[0], renewal, verdicts[0])
      && if verdicts[0].Some? then |handled| == |verdicts| == 1 && result == verdicts[0]
         else Outcome(all[1..], renewal, err, handled[1..], verdicts[1..], result)
  }

  /** The same said of the whole: what was handled is a first part of all, up to and including
      the first packet with a verdict, which is the result; without one it is all of them. */
  ghost predicate UpToFirstVerdict(all: seq<Packet>, renewal: bool, err: Option<RunResult>,
                                   handled: seq<Packet>, verdicts: seq<Option<RunResult>>,
                                   result: Option<RunResult>)
  {
    && |verdicts| == |handled| && handled <= all
    && Verdicts(handled, renewal, verdicts)
    && if Ended(verdicts) then result == verdicts[|verdicts| - 1]
       else handled == all && result == err
  }

  lemma {:induction false} OutcomeMeaning(all: seq<Packet>, renewal: bool, err: Option<RunResult>,
                                          handled: seq<Packet>, verdicts: seq<Option<RunResult>>,
                                          result: Option<RunResult>)
    ensures Outcome(all, renewal, err, handled, verdicts, result)
       <==> UpToFirstVerdict(all, renewal, err, handled, verdicts, result)
    decreases |all|
  {
    if all != [] && handled != [] && verdicts != [] {
      OutcomeMeaning(all[1..], renewal, err, handled[1..], verdicts[1..], result);
      MeaningStep(all, renewal, err, handled, verdicts, result);
    }
  }

  predicate IsReject(p: Packet) {
    p.cmd == CMD_REJECT
  }

  predicate IsReconnect(p: Packet) {
    p.cmd == CMD_RECONNECT
  }

  /** The result read off the packets handled: a REJECT is the last one handled and gives its
      payload; a RECONNECT is the last one and gives EOF; a renewal is signalled only by a last
      packet that offers a certificate, with renewal enabled; and otherwise every packet was
      handled and the result is the read's error. */
  lemma ResultExactly(all: seq<Packet>, renewal: bool, err: Option<RunResult>, handled: seq<Packet>,
                      verdicts: seq<Option<RunResult>>, result: Option<RunResult>)
    requires Outcome(all, renewal, err, handled, verdicts, result)
    requires err == None || err == Some(Eof) || err == Some(NetError)
    ensures handled <= all
    ensures forall i :: 0 <= i < |handled| - 1 ==> !IsReject(handled[i]) && !IsReconnect(handled[i])
    ensures result.Some? && result.value.Rejected? <==> handled != [] && IsReject(handled[|handled| - 1])
    ensures result.Some? && result.value.Rejected? ==>
      result.value.reason == handled[|handled| - 1].payload
    ensures handled != [] && IsReconnect(handled[|handled| - 1]) ==> result == Some(Eof)
    ensures result == Some(Renewed) ==>
      && renewal && handled != []
      && var p := handled[|handled| - 1];
         p.cmd == CMD_RENEW_RESPONSE && p.payload != [] && p.payload[0] == 0
    ensures handled == [] || !(IsReject(handled[|handled| - 1]) || IsReconnect(handled[|handled| - 1])) ==>
      result == Some(Renewed) || (handled == all && result == err)
  {
    OutcomeMeaning(all, renewal, err, handled, verdicts, result);
    forall i | 0 <= i < |handled| - 1 ensures !IsReject(handled[i]) && !IsReconnect(handled[i]) {
      assert PacketVerdict(handled[i], renewal, verdicts[i]);
    }
    if handled != [] {
      assert PacketVerdict(handled[|handled| - 1], renewal, verdicts[|handled| - 1]);
    }
  }

  lemma MeaningStep(all: seq<Packet>, renewal: bool, err: Option<RunResult>, handled: seq<Packet>,
                    verdicts: seq<Option<RunResult>>, result: Option<RunResult>)
    requires all != [] && handled != [] && verdicts != []
    ensures UpToFirstVerdict(all, renewal, err, handled, verdicts, result) <==>
      && handled[0] == all[0] && PacketVerdict(all[0], renewal, verdicts[0])
      && if verdicts[0].Some? then |handled| == |verdicts| == 1 && result == verdicts[0]
         else UpToFirstVerdict(all[1..], renewal, err, handled[1..], verdicts[1..], result)
  {
    VerdictsStep(handled, renewal, verdicts);
    assert handled == [handled[0]] + handled[1..] && all == [all[0]] + all[1..];
    assert |verdicts| > 1 ==> verdicts[|verdicts| - 1] == verdicts[1..][|verdicts| - 2];
  }

  lemma VerdictsStep(ps: seq<Packet>, renewal: bool, vs: seq<Option<RunResult>>)
    requires ps != [] && vs != []
    ensures Verdicts(ps, renewal, vs) <==>
      PacketVerdict(ps[0], renewal, vs[0]) && (|vs| > 1 ==> vs[0] == None) && Verdicts(ps[1..], renewal, vs[1..])
  {
    if Verdicts(ps[1..], renewal, vs[1..]) && PacketVerdict(ps[0], renewal, vs[0]) {
      forall i | 0 <= i < |vs| ensures PacketVerdict(ps[i], renewal, vs[i]) {
        assert i > 0 ==> PacketVerdict(ps[1..][i - 1], renewal, vs[1..][i - 1]);
      }
      assert forall i :: 1 <= i < |vs| ==> vs[i] == vs[1..][i - 1];
    }
    if Verdicts(ps, renewal, vs) {
      forall i | 0 <= i < |vs| - 1 ensures PacketVerdict(ps[1..][i], renewal, vs[1..][i]) {
        assert PacketVerdict(ps[i + 1], renewal, vs[i + 1]);
      }
    }
  }

  predicate Ended(verdicts: seq<Option<RunResult>>) {
    |verdicts| > 0 && verdicts[|verdicts| - 1].Some?
  }

  /** append, DecodePackets and the compaction in place: the packets are those of what was
      kept plus the new bytes, the buffer keeps the remainder, and sliding the remainder over
      the front of the array leaves the packets already returned intact. */
  method Receive(buf: ReadBuffer, data: bytes) returns (raw: seq<RawPacket>)
    requires buf.Valid()
    modifies buf, buf.data
    ensures buf.Valid() && (buf.data == old(buf.data) || fresh(buf.data))
    ensures forall r :: r in raw ==> fresh(r.payload) && r.payload != buf.data
    ensures Holds(raw, Decode(old(buf.Contents()) + data).packets)
    ensures buf.Contents() == Decode(old(buf.Contents()) + data).rest
  {
    buf.Append(data);
    var k: nat;
    raw, k := DecodePackets(buf.data, buf.len);
    label decoded:
    assert forall r :: r in raw ==> r.payload != buf.data;
    buf.Compact(k);
    assert forall r :: r in raw ==> r.payload[..] == old@decoded(r.payload[..]);
  }

  // ---- Handling ----

  /** What handling a packet decides when no file operation fails. */
  function Decision(x: Crypto, opts: Options, d: Files, p: Packet): Option<RunResult> {
    if p.cmd == CMD_REJECT then Some(RunResult.Rejected(p.payload))
    else if p.cmd == CMD_RECONNECT then Some(Eof)
    else if p.cmd == CMD_RENEW_RESPONSE && Offered(p.payload).Some?
      && MayInstall(x, opts, d, Offered(p.payload).value) then Some(Renewed)
    else None
  }

  ghost predicate Decided(x: Crypto, opts: Options, d: Files, ps: seq<Packet>, vs: seq<Option<RunResult>>) {
    && |vs| <= |ps|
    && forall i {:trigger Decision(x, opts, d, ps[i])} ::
         0 <= i < |vs| ==> vs[i] == Decision(x, opts, d, ps[i])
  }

  /** What happens to the files while packets are handled with these verdicts. */
  function Events(ps: seq<Packet>, vs: seq<Option<RunResult>>): seq<Event>
    requires |vs| <= |ps|
  {
    if vs == [] then [] else
      var n := |vs| - 1;
      Events(ps, vs[..n]) + EventOf(ps[n], vs[n])
  }

  function EventOf(p: Packet, v: Option<RunResult>): seq<Event> {
    if p.cmd == CMD_RENEW_RESPONSE then [Handled(p.payload, v == Some(Renewed))] else []
  }

  /** handlePacket's verdict, and its effect on the files. */
  method HandlePacket(fs: FileSystem, x: Crypto, opts: Options, p: Packet)
    returns (v: Option<RunResult>, ghost ds: seq<Files>)
    requires fs.Valid()
    modifies fs
    ensures fs.Valid() && old(fs.log) <= fs.log && old(fs.failures) <= fs.failures
    ensures PacketVerdict(p, RenewalEnabled(opts), v)
    ensures Traced(x, opts, ds, EventOf(p, v), old(fs.State()), fs.State(), fs.log, |old(fs.log)|)
    ensures fs.failures == old(fs.failures) ==> v == Decision(x, opts, old(fs.State()), p)
    ensures v != Some(Renewed) ==> fs.crt == old(fs.crt)
    ensures fs.key == old(fs.key)
  {
    v, ds := None, [fs.State()];
    if p.cmd == CMD_REJECT {
      v := Some(RunResult.Rejected(p.payload));
    } else if p.cmd == CMD_RECONNECT {
      v := Some(Eof);
    } else if p.cmd == CMD_RENEW_RESPONSE {
      ghost var was := fs.State();
      var renewed := HandleRenewResponse(fs, x, opts, p.payload);
      v := if renewed then Some(Renewed) else None;
      ds := [was, fs.State()];
    }
  }

  /** The inner loop over one read's packets; it stops after the first verdict. */
  method HandleAll(fs: FileSystem, x: Crypto, opts: Options, raw: seq<RawPacket>, ghost ps: seq<Packet>)
    returns (ghost verdicts: seq<Option<RunResult>>, ghost ds: seq<Files>, result: Option<RunResult>)
    requires fs.Valid() && Holds(raw, ps)
    modifies fs
    ensures fs.Valid() && old(fs.log) <= fs.log && old(fs.failures) <= fs.failures
    ensures Verdicts(ps, RenewalEnabled(opts), verdicts)
    ensures if Ended(verdicts) then result == verdicts[|verdicts| - 1]
      else |verdicts| == |ps| && result == None
    ensures Traced(x, opts, ds, Events(ps, verdicts), old(fs.State()), fs.State(), fs.log, |old(fs.log)|)
    ensures fs.failures == old(fs.failures) ==> Decided(x, opts, old(fs.State()), ps, verdicts)
    ensures result == None ==> fs.crt == old(fs.crt)
    ensures fs.key == old(fs.key)
  {
    ghost var was, start, failures := fs.State(), |fs.log|, fs.failures;
    verdicts, ds, result := [], [was], None;
    var i := 0;
    while i < |raw| && result == None
      invariant fs.Valid() && old(fs.log) <= fs.log && failures <= fs.failures
      invariant |verdicts| == i <= |raw| && Holds(raw, ps)
      invariant SoFar(x, opts, ps, verdicts, ds, result, was, fs.State(), fs.log, start)
      invariant fs.failures == failures ==> Decided(x, opts, was, ps, verdicts)
    {
      var p := Packet(raw[i].cmd, raw[i].payload[..]);
      assert p == ps[i];
      verdicts, ds, result := HandleNext(fs, x, opts, p, ps, verdicts, ds, was, start, failures);
      i := i + 1;
    }
  }

  /** Packets handled up to the first verdict, with what that did to the files. */
  ghost predicate SoFar(x: Crypto, opts: Options, ps: seq<Packet>, vs: seq<Option<RunResult>>, ds: seq<Files>,
                        result: Option<RunResult>, was: Files, now: Files, log: seq<Files>, start: nat)
  {
    && Verdicts(ps, RenewalEnabled(opts), vs)
    && (if Ended(vs) then result == vs[|vs| - 1] else result == None)
    && Traced(x, opts, ds, Events(ps, vs), was, now, log, start)
    && (result == None ==> now.crt == was.crt) && now.key == was.key
  }

  /** One packet more. */
  method HandleNext(fs: FileSystem, x: Crypto, opts: Options, p: Packet, ghost ps: seq<Packet>,
                    ghost vs: seq<Option<RunResult>>, ghost ds: seq<Files>,
                    ghost was: Files, ghost start: nat, ghost failures: nat)
    returns (ghost vs': seq<Option<RunResult>>, ghost ds': seq<Files>, result: Option<RunResult>)
    requires fs.Valid() && |vs| < |ps| && p == ps[|vs|] && failures <= fs.failures
    requires SoFar(x, opts, ps, vs, ds, None, was, fs.State(), fs.log, start)
    requires fs.failures == failures ==> Decided(x, opts, was, ps, vs)
    modifies fs
    ensures fs.Valid() && old(fs.log) <= fs.log && old(fs.failures) <= fs.failures
    ensures |vs'| == |vs| + 1
    ensures SoFar(x, opts, ps, vs', ds', result, was, fs.State(), fs.log, start)
    ensures fs.failures == failures ==> Decided(x, opts, was, ps, vs')
  {
    ghost var mid, log := fs.State(), fs.log;
    ghost var more;
    result, more := HandlePacket(fs, x, opts, p);
    VerdictsSnoc(ps, RenewalEnabled(opts), vs, result);
    if fs.failures == failures {
      DecidedSnoc(x, opts, was, mid, ps, vs, result);
    }
    TracedSnoc(x, opts, ds, ps, vs, result, more, was, mid, fs.State(), log, fs.log, start);
    vs', ds' := vs + [result], ds + more[1..];
  }

  lemma VerdictsSnoc(ps: seq<Packet>, renewal: bool, vs: seq<Option<RunResult>>, v: Option<RunResult>)
    requires |vs| < |ps| && Verdicts(ps, renewal, vs) && !Ended(vs) && PacketVerdict(ps[|vs|], renewal, v)
    ensures Verdicts(ps, renewal, vs + [v]) && (Ended(vs + [v]) <==> v.Some?)
  {
  }

  lemma DecidedSnoc(x: Crypto, opts: Options, d: Files, d': Files, ps: seq<Packet>,
                    vs: seq<Option<RunResult>>, v: Option<RunResult>)
    requires |vs| < |ps| && Decided(x, opts, d, ps, vs) && v == Decision(x, opts, d', ps[|vs|])
    requires d'.crt == d.crt && d'.key == d.key
    ensures Decided(x, opts, d, ps, vs + [v])
  {
    SameDecision(x, opts, d, d', ps[|vs|]);
  }

  lemma EventsSnoc(ps: seq<Packet>, vs: seq<Option<RunResult>>, v: Option<RunResult>)
    requires |vs| < |ps|
    ensures Events(ps, vs + [v]) == Events(ps, vs) + EventOf(ps[|vs|], v)
  {
    assert (vs + [v])[..|vs|] == vs;
  }

  /** One more packet handled. */
  lemma TracedSnoc(x: Crypto, opts: Options, ds: seq<Files>, ps: seq<Packet>, vs: seq<Option<RunResult>>,
                   v: Option<RunResult>, more: seq<Files>, was: Files, mid: Files, now: Files,
                   log: seq<Files>, log': seq<Files>, start: nat)
    requires |vs| < |ps| && Traced(x, opts, ds, Events(ps, vs), was, mid, log, start) && log <= log'
    requires Traced(x, opts, more, EventOf(ps[|vs|], v), mid, now, log', |log|)
    ensures Traced(x, opts, ds + more[1..], Events(ps, vs + [v]), was, now, log', start)
  {
    EventsSnoc(ps, vs, v);
    TracedAppend(x, opts, ds, Events(ps, vs), more, EventOf(ps[|vs|], v), was, mid, now, log, log', start);
  }

  /** The decision depends on the installed certificate and the key only. */
  lemma SameDecision(x: Crypto, opts: Options, d: Files, d': Files, p: Packet)
    requires d'.crt == d.crt && d'.key == d.key
    ensures Decision(x, opts, d', p) == Decision(x, opts, d, p)
  {
  }

  /** Packets none of which ended the loop. */
  ghost predicate Quiet(ps: seq<Packet>, renewal: bool, vs: seq<Option<RunResult>>) {
    |vs| == |ps| && Verdicts(ps, renewal, vs) && !Ended(vs)
  }

  lemma VerdictsAppend(a: seq<Packet>, b: seq<Packet>, renewal: bool,
                       before: seq<Option<RunResult>>, now: seq<Option<RunResult>>)
    requires Quiet(a, renewal, before) && Verdicts(b, renewal, now)
    ensures Verdicts(a + b, renewal, before + now)
    ensures a + b[..|now|] == (a + b)[..|before + now|]
  {
    var vs := before + now;
    forall i | 0 <= i < |vs| ensures PacketVerdict((a + b)[i], renewal, vs[i]) {
      if i >= |a| {
        assert vs[i] == now[i - |a|] && (a + b)[i] == b[i - |a|];
      }
    }
  }

  lemma QuietGoesOn(ps: seq<Packet>, renewal: bool, vs: seq<Option<RunResult>>, err: Option<RunResult>)
    requires Quiet(ps, renewal, vs)
    ensures Outcome(ps, renewal, err, ps, vs, err)
  {
    OutcomeMeaning(ps, renewal, err, ps, vs, err);
  }

  lemma GoingOnIsQuiet(all: seq<Packet>, renewal: bool, handled: seq<Packet>, verdicts: seq<Option<RunResult>>)
    requires Outcome(all, renewal, None, handled, verdicts, None)
    ensures handled == all && Quiet(handled, renewal, verdicts)
  {
    OutcomeMeaning(all, renewal, None, handled, verdicts, None);
  }

  /** Handling more packets extends the outcome. */
  lemma OutcomeExtends(a: seq<Packet>, b: seq<Packet>, renewal: bool, before: seq<Option<RunResult>>,
                       now: seq<Option<RunResult>>, err: Option<RunResult>, r: Option<RunResult>)
    requires Quiet(a, renewal, before) && Verdicts(b, renewal, now)
    requires if Ended(now) then r == now[|now| - 1] else |now| == |b| && r == err
    ensures Outcome(a + b, renewal, err, a + b[..|now|], before + now, r)
    ensures !Ended(now) ==> b[..|now|] == b && Quiet(a + b, renewal, before + now)
  {
    VerdictsAppend(a, b, renewal, before, now);
    OutcomeMeaning(a + b, renewal, err, a + b[..|now|], before + now, r);
  }

  // ---- The loop ----

  /** What a loop has done so far: the packets handled with their verdicts, and the states of
      the disk before and after every RENEW_RESPONSE among them. */
  datatype History = History(handled: seq<Packet>, verdicts: seq<Option<RunResult>>, ds: seq<Files>)

  /** The history tells what the disk went through from was to now. */
  ghost predicate OnDisk(x: Crypto, opts: Options, h: History, was: Files, now: Files,
                         log: seq<Files>, start: nat)
  {
    match h
    case History(handled, verdicts, ds) =>
      |verdicts| <= |handled| && Traced(x, opts, ds, Events(handled, verdicts), was, now, log, start)
  }

  lemma {:induction false} EventsAppend(a: seq<Packet>, b: seq<Packet>, before: seq<Option<RunResult>>,
                                        now: seq<Option<RunResult>>)
    requires |before| == |a| && |now| <= |b|
    ensures Events(a + b, before + now) == Events(a, before) + Events(b, now)
    decreases |now|
  {
    if now == [] {
      assert before + now == before;
      EventsPrefix(a + b, a, before);
    } else {
      var n := |now| - 1;
      EventsAppend(a, b, before, now[..n]);
      assert before + now == (before + now[..n]) + [now[n]];
      EventsSnoc(a + b, before + now[..n], now[n]);
      assert (a + b)[|a| + n] == b[n];
    }
  }

  /** Events look at the packets that have a verdict only. */
  lemma {:induction false} EventsPrefix(ps: seq<Packet>, front: seq<Packet>, vs: seq<Option<RunResult>>)
    requires |vs| <= |front| && front <= ps
    ensures Events(ps, vs) == Events(front, vs)
    decreases |vs|
  {
    if vs != [] {
      EventsPrefix(ps, front, vs[..|vs| - 1]);
    }
  }

  lemma OnDiskAppend(x: Crypto, opts: Options, h: History, b: seq<Packet>, now: seq<Option<RunResult>>,
                     ds: seq<Files>, was: Files, mid: Files, end: Files, log: seq<Files>, log': seq<Files>,
                     start: nat)
    requires OnDisk(x, opts, h, was, mid, log, start) && |h.verdicts| == |h.handled| && log <= log'
    requires |now| <= |b| && Traced(x, opts, ds, Events(b, now), mid, end, log', |log|)
    ensures OnDisk(x, opts, History(h.handled + b[..|now|], h.verdicts + now, h.ds + ds[1..]), was, end, log', start)
  {
    EventsAppend(h.handled, b, h.verdicts, now);
    EventsPrefix(h.handled + b, h.handled + b[..|now|], h.verdicts + now);
    TracedAppend(x, opts, h.ds, Events(h.handled, h.verdicts), ds, Events(b, now), was, mid, end, log, log', start);
  }

  lemma OnDiskSnoc(x: Crypto, opts: Options, h: History, p: Packet, v: Option<RunResult>, ds: seq<Files>,
                   was: Files, mid: Files, end: Files, log: seq<Files>, log': seq<Files>, start: nat)
    requires OnDisk(x, opts, h, was, mid, log, start) && |h.verdicts| == |h.handled| && log <= log'
    requires Traced(x, opts, ds, EventOf(p, v), mid, end, log', |log|)
    ensures OnDisk(x, opts, History(h.handled + [p], h.verdicts + [v], h.ds + ds[1..]), was, end, log', start)
  {
    EventsSnoc(h.handled + [p], h.verdicts, v);
    EventsPrefix(h.handled + [p], h.handled, h.verdicts);
    TracedAppend(x, opts, h.ds, Events(h.handled, h.verdicts), ds, EventOf(p, v), was, mid, end, log, log', start);
  }

  lemma DecidedAppend(x: Crypto, opts: Options, d: Files, d': Files, a: seq<Packet>, b: seq<Packet>,
                      before: seq<Option<RunResult>>, now: seq<Option<RunResult>>)
    requires Decided(x, opts, d, a, before) && Decided(x, opts, d', b, now) && |before| == |a|
    requires d'.crt == d.crt && d'.key == d.key
    ensures Decided(x, opts, d, a + b[..|now|], before + now)
  {
    var ps, vs := a + b[..|now|], before + now;
    forall i | 0 <= i < |vs| ensures vs[i] == Decision(x, opts, d, ps[i]) {
      if i >= |a| {
        SameDecision(x, opts, d, d', b[i - |a|]);
      }
    }
  }

  /** What one read brings: the buffer moved on, its packets handled, and then its error. */
  method Turn(fs: FileSystem, x: Crypto, opts: Options, buf: ReadBuffer, read: Read,
              ghost stream: bytes, ghost h: History, ghost was: Files, ghost start: nat, ghost failures: nat)
    returns (ghost h': History, result: Option<RunResult>)
    requires fs.Valid() && buf.Valid() && buf.Contents() == Decode(stream).rest
    requires h.handled == Decode(stream).packets && Quiet(h.handled, RenewalEnabled(opts), h.verdicts)
    requires OnDisk(x, opts, h, was, fs.State(), fs.log, start)
    requires fs.crt == was.crt && fs.key == was.key && failures <= fs.failures
    requires fs.failures == failures ==> Decided(x, opts, was, h.handled, h.verdicts)
    modifies fs, buf, buf.data
    ensures fs.Valid() && old(fs.log) <= fs.log && old(fs.failures) <= fs.failures
    ensures buf.Valid() && (buf.data == old(buf.data) || fresh(buf.data))
    ensures buf.Contents() == Decode(stream + read.data).rest
    ensures result.Some? ==>
      Outcome(Decode(stream + read.data).packets, RenewalEnabled(opts), read.err, h'.handled, h'.verdicts, result)
    ensures result == None ==>
      && read.err == None && h'.handled == Decode(stream + read.data).packets
      && Quiet(h'.handled, RenewalEnabled(opts), h'.verdicts)
      && fs.crt == was.crt && fs.key == was.key
    ensures OnDisk(x, opts, h', was, fs.State(), fs.log, start)
    ensures fs.failures == failures ==> Decided(x, opts, was, h'.handled, h'.verdicts)
  {
    h' := h;
    if |read.data| > 0 {
      h', result := HandleRead(fs, x, opts, buf, read, stream, h, was, start, failures);
      if result.Some? {
        return;
      }
    } else {
      assert stream + read.data == stream;
    }
    QuietGoesOn(h'.handled, RenewalEnabled(opts), h'.verdicts, read.err);
    result := read.err;
  }

  /** Received behind the stream so far. */
  method ReceiveNext(buf: ReadBuffer, data: bytes, ghost stream: bytes) returns (raw: seq<RawPacket>)
    requires buf.Valid() && buf.Contents() == Decode(stream).rest
    modifies buf, buf.data
    ensures buf.Valid() && (buf.data == old(buf.data) || fresh(buf.data))
    ensures buf.Contents() == Decode(stream + data).rest
    ensures var more := Decode(Decode(stream).rest + data).packets;
      Holds(raw, more) && Decode(stream + data).packets == Decode(stream).packets + more
  {
    DecodeSplit(stream, data);
    raw := Receive(buf, data);
  }

  /** The packets that came with the read's bytes. */
  method HandleRead(fs: FileSystem, x: Crypto, opts: Options, buf: ReadBuffer, read: Read,
                    ghost stream: bytes, ghost h: History, ghost was: Files, ghost start: nat, ghost failures: nat)
    returns (ghost h': History, result: Option<RunResult>)
    requires fs.Valid() && buf.Valid() && buf.Contents() == Decode(stream).rest
    requires h.handled == Decode(stream).packets && Quiet(h.handled, RenewalEnabled(opts), h.verdicts)
    requires OnDisk(x, opts, h, was, fs.State(), fs.log, start)
    requires fs.crt == was.crt && fs.key == was.key && failures <= fs.failures
    requires fs.failures == failures ==> Decided(x, opts, was, h.handled, h.verdicts)
    modifies fs, buf, buf.data
    ensures fs.Valid() && old(fs.log) <= fs.log && old(fs.failures) <= fs.failures
    ensures buf.Valid() && (buf.data == old(buf.data) || fresh(buf.data))
    ensures buf.Contents() == Decode(stream + read.data).rest
    ensures result.Some? ==>
      Outcome(Decode(stream + read.data).packets, RenewalEnabled(opts), read.err, h'.handled, h'.verdicts, result)
    ensures result == None ==>
      && h'.handled == Decode(stream + read.data).packets && Quiet(h'.handled, RenewalEnabled(opts), h'.verdicts)
      && fs.crt == was.crt && fs.key == was.key
    ensures OnDisk(x, opts, h', was, fs.State(), fs.log, start)
    ensures fs.failures == failures ==> Decided(x, opts, was, h'.handled, h'.verdicts)
  {
    ghost var more := Decode(Decode(stream).rest + read.data).packets;
    var raw := ReceiveNext(buf, read.data, stream);
    ghost var mid, log := fs.State(), fs.log;
    ghost var now, ds;
    now, ds, result := HandleAll(fs, x, opts, raw, more);
    h' := History(h.handled + more[..|now|], h.verdicts + now, h.ds + ds[1..]);
    HistoryGrows(x, opts, h, more, now, ds, result, read.err, was, mid, fs.State(), log, fs.log, start);
    if fs.failures == failures {
      DecidedAppend(x, opts, was, mid, h.handled, more, h.verdicts, now);
    }
  }

  lemma HistoryGrows(x: Crypto, opts: Options, h: History, more: seq<Packet>, now: seq<Option<RunResult>>,
                     ds: seq<Files>, result: Option<RunResult>, err: Option<RunResult>, was: Files, mid: Files,
                     end: Files, log: seq<Files>, log': seq<Files>, start: nat)
    requires Quiet(h.handled, RenewalEnabled(opts), h.verdicts) && Verdicts(more, RenewalEnabled(opts), now)
    requires if Ended(now) then result == now[|now| - 1] else |now| == |more| && result == None
    requires OnDisk(x, opts, h, was, mid, log, start) && log <= log'
    requires Traced(x, opts, ds, Events(more, now), mid, end, log', |log|)
    ensures var h' := History(h.handled + more[..|now|], h.verdicts + now, h.ds + ds[1..]);
      && OnDisk(x, opts, h', was, end, log', start)
      && (result.Some? ==>
           Outcome(h.handled + more, RenewalEnabled(opts), err, h'.handled, h'.verdicts, result))
      && (result == None ==>
           h'.handled == h.handled + more && Quiet(h'.handled, RenewalEnabled(opts), h'.verdicts))
  {
    OnDiskAppend(x, opts, h, more, now, ds, was, mid, end, log, log', start);
    OutcomeExtends(h.handled, more, RenewalEnabled(opts), h.verdicts, now, err, if Ended(now) then result else err);
  }

  /** What a loop was started with: the files as they were, the log up to then, the failures. */
  datatype Start = Start(was: Files, log: nat, failures: nat)

  /** Where the loop stands after n reads, with these bytes kept and the files as they are. */
  ghost predicate Stands(x: Crypto, opts: Options, script: seq<Read>, n: nat, kept: bytes, h: History,
                         result: Option<RunResult>, start: Start, now: Files, log: seq<Files>, failures: nat)
  {
    match start
    case Start(was, from, before) =>
      && n <= |script| && kept == Decode(Stream(script, n)).rest
      && (n == 0 || ErrorFree(script, n - 1))
      && (result == None ==> ErrorFree(script, n) && now.crt == was.crt && now.key == was.key)
      && Outcome(Decode(Stream(script, n)).packets, RenewalEnabled(opts), if n == 0 then None else script[n - 1].err,
           h.handled, h.verdicts, result)
      && OnDisk(x, opts, h, was, now, log, from)
      && before <= failures && (failures == before ==> Decided(x, opts, was, h.handled, h.verdicts))
  }

  lemma StandsAtStart(x: Crypto, opts: Options, script: seq<Read>, was: Files, log: seq<Files>, failures: nat)
    ensures Stands(x, opts, script, 0, [], History([], [], [was]), None, Start(was, |log|, failures),
      was, log, failures)
  {
  }

  /** One read of the script. */
  method OneRead(fs: FileSystem, x: Crypto, opts: Options, buf: ReadBuffer, script: seq<Read>, n: nat,
                 ghost h: History, ghost start: Start)
    returns (ghost h': History, result: Option<RunResult>)
    requires fs.Valid() && buf.Valid() && n < |script|
    requires Stands(x, opts, script, n, buf.Contents(), h, None, start, fs.State(), fs.log, fs.failures)
    modifies fs, buf, buf.data
    ensures fs.Valid() && old(fs.log) <= fs.log
    ensures buf.Valid() && (buf.data == old(buf.data) || fresh(buf.data))
    ensures Stands(x, opts, script, n + 1, buf.Contents(), h', result, start, fs.State(), fs.log, fs.failures)
  {
    ghost var stream := Stream(script, n);
    assert n > 0 ==> script[n - 1].err == None;
    GoingOnIsQuiet(Decode(stream).packets, RenewalEnabled(opts), h.handled, h.verdicts);
    h', result := Turn(fs, x, opts, buf, script[n], stream, h, start.was, start.log, start.failures);
    if result == None {
      QuietGoesOn(h'.handled, RenewalEnabled(opts), h'.verdicts, None);
    }
    assert stream + script[n].data == Stream(script, n + 1);
  }

  /** readLoop on a script of reads: the packets handled and the result are those of the
      whole stream read, whatever the sizes of the reads; the files went through the run of
      the answers handled, dying at any point of which leaves a state on its way; and with no
      failing file operation every verdict is decided by the certificate on disk. None: the
      script is used up and the next read has not returned. */
  method Loop(fs: FileSystem, x: Crypto, opts: Options, script: seq<Read>)
    returns (result: Option<RunResult>, used: nat, ghost h: History)
    requires fs.Valid()
    modifies fs
    ensures fs.Valid() && old(fs.log) <= fs.log
    ensures used <= |script| && (result == None ==> used == |script|)
    ensures used == 0 || ErrorFree(script, used - 1)
    ensures Outcome(Decode(Stream(script, used)).packets, RenewalEnabled(opts),
      if used > 0 then script[used - 1].err else None, h.handled, h.verdicts, result)
    ensures OnDisk(x, opts, h, old(fs.State()), fs.State(), fs.log, |old(fs.log)|)
    ensures fs.failures == old(fs.failures) ==> Decided(x, opts, old(fs.State()), h.handled, h.verdicts)
  {
    ghost var start := Start(fs.State(), |fs.log|, fs.failures);
    var buf := new ReadBuffer(32768);
    used, h, result := 0, History([], [], [fs.State()]), None;
    StandsAtStart(x, opts, script, fs.State(), fs.log, fs.failures);
    while used < |script| && result == None
      invariant fs.Valid() && old(fs.log) <= fs.log && used <= |script|
      invariant fresh(buf) && fresh(buf.data) && buf.Valid()
      invariant Stands(x, opts, script, used, buf.Contents(), h, result, start, fs.State(), fs.log, fs.failures)
    {
      h, result := OneRead(fs, x, opts, buf, script, used, h, start);
      used := used + 1;
    }
  }

  // ---- What a run of the loop means for the files ----

  lemma RenewalsOfOne(p: Packet, renewal: bool, v: Option<RunResult>)
    requires PacketVerdict(p, renewal, v)
    ensures Renewals(EventOf(p, v)) == if v == Some(Renewed) then 1 else 0
  {
    if p.cmd == CMD_RENEW_RESPONSE {
      assert EventOf(p, v)[..0] == [];
    }
  }

  /** Among packets handled up to the first verdict, a certificate is installed exactly if the
      last verdict says so. */
  lemma {:induction false} RenewalsOfVerdicts(ps: seq<Packet>, renewal: bool, vs: seq<Option<RunResult>>)
    requires Verdicts(ps, renewal, vs)
    ensures Renewals(Events(ps, vs)) == if vs != [] && vs[|vs| - 1] == Some(Renewed) then 1 else 0
    decreases |vs|
  {
    if vs != [] {
      var n := |vs| - 1;
      RenewalsOfVerdicts(ps, renewal, vs[..n]);
      RenewalsAppend(Events(ps, vs[..n]), EventOf(ps[n], vs[n]));
      assert PacketVerdict(ps[n], renewal, vs[n]);
      RenewalsOfOne(ps[n], renewal, vs[n]);
    }
  }

  lemma {:induction false} EventsAreHandled(ps: seq<Packet>, vs: seq<Option<RunResult>>)
    requires |vs| <= |ps|
    ensures forall e :: e in Events(ps, vs) ==> e.Handled?
    decreases |vs|
  {
    if vs != [] {
      EventsAreHandled(ps, vs[..|vs| - 1]);
    }
  }

  /** The loop returns ErrCertificateRenewed exactly when one certificate was installed during
      it, and otherwise none was: the file is byte for byte the same. */
  lemma RenewedMeansInstalled(x: Crypto, opts: Options, all: seq<Packet>, err: ReadError, h: History,
                              result: Option<RunResult>, was: Files, now: Files, log: seq<Files>, start: nat)
    requires Outcome(all, RenewalEnabled(opts), err, h.handled, h.verdicts, result)
    requires OnDisk(x, opts, h, was, now, log, start)
    ensures Renewals(Events(h.handled, h.verdicts)) == if result == Some(Renewed) then 1 else 0
    ensures result == Some(Renewed) <==> Der(x, now) != Der(x, was)
    ensures result != Some(Renewed) ==> now.crt == was.crt
  {
    OutcomeMeaning(all, RenewalEnabled(opts), err, h.handled, h.verdicts, result);
    RenewalsOfVerdicts(h.handled, RenewalEnabled(opts), h.verdicts);
    EventsAreHandled(h.handled, h.verdicts);
    OneRenewal(x, opts, h.ds, Events(h.handled, h.verdicts));
  }

  /** In a run without crashes the file changes with the renewals only; one changes its DER. */
  lemma {:induction false} OneRenewal(x: Crypto, opts: Options, ds: seq<Files>, es: seq<Event>)
    requires Run(x, opts, ds, es) && forall e :: e in es ==> e.Handled?
    ensures Renewals(es) == 0 ==> ds[|es|].crt == ds[0].crt
    ensures Renewals(es) == 1 ==> Der(x, ds[|es|]) != Der(x, ds[0])
    decreases |es|
  {
    if es != [] {
      var n := |es| - 1;
      RunPrefix(x, opts, ds, es, n);
      OneRenewal(x, opts, ds[..n + 1], es[..n]);
      assert es[n] in es && StepAt(x, opts, ds, es, n);
      RenewedIffChanged(x, opts, ds[n], es[n].payload, es[n].renewed, ds[n + 1]);
    }
  }

  /** Certificate safety of the loop: wherever the process dies in it, and at its end, a pair
      that loaded still loads, with the same key, subject and serial. */
  lemma LoopIsSafe(x: Crypto, opts: Options, h: History, was: Files, now: Files, log: seq<Files>, start: nat)
    requires OnDisk(x, opts, h, was, now, log, start)
    ensures Safe(x, was, now)
    ensures forall i :: start <= i < |log| ==> Safe(x, was, log[i])
  {
    TracedIsSafe(x, opts, h.ds, Events(h.handled, h.verdicts), was, now, log, start);
  }

  // ---- Independence of the reads ----

  lemma OutcomesMean(all: seq<Packet>, renewal: bool, err: Option<RunResult>,
                     h1: History, r1: Option<RunResult>, h2: History, r2: Option<RunResult>)
    requires Outcome(all, renewal, err, h1.handled, h1.verdicts, r1)
    requires Outcome(all, renewal, err, h2.handled, h2.verdicts, r2)
    ensures UpToFirstVerdict(all, renewal, err, h1.handled, h1.verdicts, r1)
    ensures UpToFirstVerdict(all, renewal, err, h2.handled, h2.verdicts, r2)
  {
    OutcomeMeaning(all, renewal, err, h1.handled, h1.verdicts, r1);
    OutcomeMeaning(all, renewal, err, h2.handled, h2.verdicts, r2);
  }

  /** Two outcomes on the same stream whose verdicts do not differ are the same. */
  lemma SameVerdictsSameOutcome(all: seq<Packet>, renewal: bool, err: Option<RunResult>,
                                h1: History, r1: Option<RunResult>, h2: History, r2: Option<RunResult>)
    requires Outcome(all, renewal, err, h1.handled, h1.verdicts, r1)
    requires Outcome(all, renewal, err, h2.handled, h2.verdicts, r2)
    requires forall i :: 0 <= i < |h1.verdicts| && i < |h2.verdicts| ==> h1.verdicts[i] == h2.verdicts[i]
    ensures h1.handled == h2.handled && h1.verdicts == h2.verdicts && r1 == r2
  {
    OutcomesMean(all, renewal, err, h1, r1, h2, r2);
    assert |h1.handled| == |h2.handled|;
    assert h1.handled == all[..|h1.handled|] && h2.handled == all[..|h2.handled|];
  }

  /** The packets after which the files decide whether the loop goes on. */
  predicate AsksDisk(p: Packet, renewal: bool) {
    p.cmd == CMD_RENEW_RESPONSE && renewal && OffersCertificate(p)
  }

  /** However a stream is cut into reads: if it offers no certificate, or renewal is not
      enabled, the packets handled, their verdicts and the result are the same. */
  lemma SplitIndependent(all: seq<Packet>, renewal: bool, err: Option<RunResult>,
                         h1: History, r1: Option<RunResult>, h2: History, r2: Option<RunResult>)
    requires Outcome(all, renewal, err, h1.handled, h1.verdicts, r1)
    requires Outcome(all, renewal, err, h2.handled, h2.verdicts, r2)
    requires forall p :: p in all ==> !AsksDisk(p, renewal)
    ensures h1.handled == h2.handled && h1.verdicts == h2.verdicts && r1 == r2
  {
    OutcomesMean(all, renewal, err, h1, r1, h2, r2);
    forall i | 0 <= i < |h1.verdicts| && i < |h2.verdicts| ensures h1.verdicts[i] == h2.verdicts[i] {
      assert h1.handled[i] == all[i] == h2.handled[i] && all[i] in all;
      assert PacketVerdict(h1.handled[i], renewal, h1.verdicts[i]);
      assert PacketVerdict(h2.handled[i], renewal, h2.verdicts[i]);
    }
    SameVerdictsSameOutcome(all, renewal, err, h1, r1, h2, r2);
  }

  /** And if it offers certificates: starting from the same certificate and key, and with no
      failing file operation, the result and the installed file are the same too. */
  lemma SplitIndependentOnDisk(x: Crypto, opts: Options, all: seq<Packet>, err: Option<RunResult>,
                               h1: History, r1: Option<RunResult>, was1: Files,
                               h2: History, r2: Option<RunResult>, was2: Files)
    requires Outcome(all, RenewalEnabled(opts), err, h1.handled, h1.verdicts, r1)
    requires Outcome(all, RenewalEnabled(opts), err, h2.handled, h2.verdicts, r2)
    requires Decided(x, opts, was1, h1.handled, h1.verdicts) && Run(x, opts, h1.ds, Events(h1.handled, h1.verdicts))
    requires Decided(x, opts, was2, h2.handled, h2.verdicts) && Run(x, opts, h2.ds, Events(h2.handled, h2.verdicts))
    requires h1.ds[0] == was1 && h2.ds[0] == was2 && was1.crt == was2.crt && was1.key == was2.key
    ensures h1.handled == h2.handled && r1 == r2
    ensures h1.ds[|h1.ds| - 1].crt == h2.ds[|h2.ds| - 1].crt
  {
    OutcomesMean(all, RenewalEnabled(opts), err, h1, r1, h2, r2);
    forall i | 0 <= i < |h1.verdicts| && i < |h2.verdicts| ensures h1.verdicts[i] == h2.verdicts[i] {
      assert h1.handled[i] == all[i] == h2.handled[i];
      SameDecision(x, opts, was1, was2, all[i]);
    }
    SameVerdictsSameOutcome(all, RenewalEnabled(opts), err, h1, r1, h2, r2);
    EventsAreHandled(h1.handled, h1.verdicts);
    SameEventsSameFile(x, opts, h1.ds, h2.ds, Events(h1.handled, h1.verdicts));
  }

  lemma {:induction false} SameEventsSameFile(x: Crypto, opts: Options, ds: seq<Files>, ds': seq<Files>, es: seq<Event>)
    requires Run(x, opts, ds, es) && Run(x, opts, ds', es) && ds[0].crt == ds'[0].crt
    requires forall e :: e in es ==> e.Handled?
    ensures ds[|es|].crt == ds'[|es|].crt
    decreases |es|
  {
    if es != [] {
      var n := |es| - 1;
      RunPrefix(x, opts, ds, es, n);
      RunPrefix(x, opts, ds', es, n);
      SameEventsSameFile(x, opts, ds[..n + 1], ds'[..n + 1], es[..n]);
      assert es[n] in es && StepAt(x, opts, ds, es, n) && StepAt(x, opts, ds', es, n);
    }
  }
}
