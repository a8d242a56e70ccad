/** The shared object of internal/tunnel, updated in place, and the source's goroutines on it.
    Between any two blocking points of a goroutine the others take whatever steps they like;
    what the environment decides (bytes read, dial and write results) is a free choice. Every
    goroutine keeps Valid: whatever it does is a run of the step system in Tunnel, so every
    theorem about reachable states holds of the object at every moment. A goroutine is followed
    for a number of scheduling moments; if they are used up it is still on its way. */
module ServerConn {
  import opened Bytes
  import opened Disk
  import opened Framing
  import opened Outcomes
  import opened Tunnel
  import opened TunnelEmits
  import opened TunnelEnds
  import opened TunnelHistory
  import opened TunnelInterference
  import opened TunnelLanguage
  import opened TunnelQueue
  import opened TunnelReader
  import opened TunnelRuns
  import opened TunnelSessions
  import Renewal
  import ReadLoop

  class Conn {
    const conf: Config
    const fs: FileSystem
    const crypto: Renewal.Crypto
    const opts: Renewal.Options
    var serverSend: seq<Entry>
    var done: bool
    var dests: map<uint16, nat>
    var sessions: seq<Session>
    var reader: Reader
    var buf: bytes
    var writer: Writer
    var ticker: Ticker
    // Histories
    var readErr: Option<RunResult>
    var enqueued: seq<Entry>
    var taken: nat
    var wire: bytes
    var inbound: bytes
    var handled: seq<Packet>
    ghost var trace: seq<Action>             // every step taken, by any goroutine
    ghost var waits: nat                     // how often a goroutine let the others run
    ghost var history: ReadLoop.History      // the packets handled, their verdicts, the disk

    function Now(): State
      reads this
    {
      State(conf, serverSend, done, dests, sessions, reader, buf, readErr, writer, ticker,
        enqueued, taken, wire, inbound, handled)
    }

    /** The object is where the steps taken so far lead. */
    ghost predicate Valid()
      reads this
    {
      Path(Init(conf), trace, Now())
    }

    /** Connect: a connection before Run. */
    constructor (conf: Config, fs: FileSystem, crypto: Renewal.Crypto, opts: Renewal.Options)
      ensures this.conf == conf && this.fs == fs && this.crypto == crypto && this.opts == opts
      ensures Now() == Init(conf) && trace == [] && Valid()
    {
      this.conf, this.fs, this.crypto, this.opts := conf, fs, crypto, opts;
      serverSend, done, dests, sessions := [], false, map[], [];
      reader, buf, readErr, writer, ticker := Starting, [], None, Waiting, NotStarted;
      enqueued, taken, wire, inbound, handled := [], 0, [], [], [];
      trace, waits, history := [], 0, ReadLoop.History([], [], []);
    }

    // ---- Steps ----

    /** One atomic step. */
    method Take(a: Action)
      requires Valid() && Enabled(Now(), a)
      modifies this
      ensures Valid() && trace == old(trace) + [a] && waits == old(waits) && history == old(history)
      ensures Now() == Do(old(Now()), a)
    {
      DoKeepsConf(Now(), a);
      PathSnoc(Init(conf), trace, Now(), a);
      trace := trace + [a];
      Become(Do(Now(), a));
    }

    method Become(s: State)
      requires s.conf == conf
      modifies this
      ensures Now() == s && trace == old(trace) && waits == old(waits) && history == old(history)
    {
      BecomeShared(s);
      BecomeAt(s);
      BecomePast(s);
    }

    method BecomeShared(s: State)
      modifies this`serverSend, this`done, this`dests, this`sessions
      ensures serverSend == s.queue && done == s.done && dests == s.dests && sessions == s.sessions
    {
      serverSend, done, dests, sessions := s.queue, s.done, s.dests, s.sessions;
    }

    method BecomeAt(s: State)
      modifies this`reader, this`buf, this`writer, this`ticker
      ensures reader == s.reader && buf == s.buf && writer == s.writer && ticker == s.ticker
    {
      reader, buf, writer, ticker := s.reader, s.buf, s.writer, s.ticker;
    }

    method BecomePast(s: State)
      modifies this`readErr, this`enqueued, this`taken, this`wire, this`inbound, this`handled
      ensures readErr == s.readErr && enqueued == s.enqueued && taken == s.taken
      ensures wire == s.wire && inbound == s.inbound && handled == s.handled
    {
      readErr, enqueued, taken := s.readErr, s.enqueued, s.taken;
      wire, inbound, handled := s.wire, s.inbound, s.handled;
    }

    /** The scheduler runs the other goroutines: any steps that are not who's. */
    method Others(who: Role)
      requires Valid() && Started(who, Now())
      modifies this
      ensures Valid() && old(trace) <= trace && waits == old(waits) + 1 && history == old(history)
      ensures Untouched(who, old(Now()), Now()) && Started(who, Now())
    {
      var schedule: seq<Action> := *;
      waits := waits + 1;
      UntouchedRefl(who, Now());
      for i := 0 to |schedule|
        invariant Valid() && old(trace) <= trace && waits == old(waits) + 1 && history == old(history)
        invariant Untouched(who, old(Now()), Now()) && Started(who, Now())
      {
        var a := schedule[i];
        if !Mine(who, a) && Enabled(Now(), a) {
          ghost var s := Now();
          ReachableReader(conf, s);
          StepUntouched(who, s, a);
          Take(a);
          UntouchedTrans(who, old(Now()), s, Now());
        }
      }
    }

    // ---- A session's goroutine ----

    /** The others run: the goroutine stays where it is. */
    method Yield(t: nat)
      requires Valid() && t < |sessions| && !sessions[t].pc.Refusing?
      modifies this
      ensures Valid() && old(trace) <= trace && waits == old(waits) + 1
      ensures t < |sessions| && sessions[t].pc == old(sessions[t].pc)
      ensures sessions[t].read == old(sessions[t].read) && sessions[t].answer == old(sessions[t].answer)
    {
      Others(Goroutine(t));
    }

    /** A session's goroutine takes its next step. */
    method Advance(t: nat, a: SessionAct)
      requires Valid() && t < |sessions| && Ready(sessions[t], a, |serverSend| < QUEUE_CAPACITY, done)
      modifies this
      ensures Valid() && old(trace) <= trace && waits == old(waits)
      ensures trace != [] && trace[|trace| - 1] == SessionStep(t, a) && done == old(done)
      ensures t < |sessions| && sessions[t].pc == NextPc(old(sessions[t].pc), a)
      ensures sessions[t].read == old(sessions[t].read) + if a.ReadDest? then a.chunk else []
      ensures sessions[t].answer == AnswerBy(old(sessions[t]), a)
    {
      MovesOn(Now(), t, a);
      Take(SessionStep(t, a));
    }

    /** select { case serverSend <- packet: case <-done: }: the packet goes out, or done is
        closed and it is given up, or the goroutine is still blocked. */
    method Select(t: nat, patience: nat) returns (taken: bool)
      requires Valid() && t < |sessions| && SendOf(sessions[t].pc).Some?
      modifies this
      ensures Valid() && old(trace) <= trace && old(waits) <= waits && t < |sessions|
      ensures sessions[t].read == old(sessions[t].read)
      ensures taken ==>
        || Took(t, SendOf(old(sessions[t].pc)), old(sessions[t]))
        || (done && Took(t, WayOut(old(sessions[t].pc)), old(sessions[t])))
      ensures !taken ==> sessions[t].pc == old(sessions[t].pc) && waits >= old(waits) + patience
      ensures !taken && patience > 0 ==> |serverSend| >= QUEUE_CAPACITY && !done
    {
      ghost var was := sessions[t];
      for i := 0 to patience
        invariant Valid() && old(trace) <= trace && waits == old(waits) + i
        invariant i > 0 ==> |serverSend| >= QUEUE_CAPACITY && !done
        invariant t < |sessions| && sessions[t].pc == was.pc
        invariant sessions[t].read == was.read && sessions[t].answer == was.answer
      {
        taken := SelectOnce(t, was);
        if taken {
          return;
        }
      }
      return false;
    }

    /** One look at both arms. */
    method SelectOnce(t: nat, ghost was: Session) returns (taken: bool)
      requires Valid() && t < |sessions| && SendOf(was.pc).Some?
      requires sessions[t].pc == was.pc && sessions[t].read == was.read && sessions[t].answer == was.answer
      modifies this
      ensures Valid() && old(trace) <= trace && waits == old(waits) + 1 && t < |sessions|
      ensures sessions[t].read == was.read
      ensures taken ==> Took(t, SendOf(was.pc), was) || (done && Took(t, WayOut(was.pc), was))
      ensures !taken ==>
        && sessions[t].pc == was.pc && sessions[t].answer == was.answer
        && |serverSend| >= QUEUE_CAPACITY && !done
    {
      Yield(t);
      taken := true;
      var sendFirst: bool := *;
      if |serverSend| < QUEUE_CAPACITY && (sendFirst || !done) {
        Advance(t, SendOf(sessions[t].pc).value);
      } else if done {
        Advance(t, WayOut(sessions[t].pc).value);
      } else {
        taken := false;
      }
    }

    /** The session has just taken that step, from where it was. */
    ghost predicate Took(t: nat, a: Option<SessionAct>, was: Session)
      reads this
      requires t < |sessions|
    {
      && a.Some? && trace != [] && trace[|trace| - 1] == SessionStep(t, a.value)
      && sessions[t].pc == NextPc(was.pc, a.value) && sessions[t].answer == AnswerBy(was, a.value)
    }

    /** dialDest: the dial's result, which is a failure or none, and the answer; connected: a
        destination is returned. */
    method DialDest(t: nat, failure: Option<bytes>, patience: nat) returns (connected: bool)
      requires Valid() && t < |sessions| && sessions[t].pc.Dialing?
      modifies this
      ensures Valid() && old(trace) <= trace && old(waits) <= waits && t < |sessions|
      ensures sessions[t].read == old(sessions[t].read)
      ensures connected <==> sessions[t].pc.Registering?
      ensures connected ==> failure == None && sessions[t].answer == Succeeded
      ensures !connected ==>
        || (sessions[t].pc.Abandoned? && done)
        || (sessions[t].pc.Unreachable? && failure.Some? && sessions[t].answer == Failed(failure.value))
        || (waits >= old(waits) + patience
            && sessions[t].pc == if failure.Some? then DialFailed(failure.value) else Connected)
    {
      Yield(t);
      if failure.Some? {
        Advance(t, DialFails(failure.value));
        var _ := Select(t, patience);
        return false;
      }
      Advance(t, DialSucceeds);
      var _ := Select(t, patience);
      connected := sessions[t].pc.Registering?;
    }

    /** dialAndRegister: dial, answer, register, and then the read loop; over: it returned, and
        then, while done is open, it has said its whole word: a failure, or the success, the
        chunks read and a DESTROY. */
    method DialAndRegister(t: nat, failure: Option<bytes>, input: seq<Chunk>, patience: nat)
      returns (over: bool, used: nat)
      requires Valid() && t < |sessions| && sessions[t].pc.Dialing? && Readable(input)
      modifies this
      ensures Valid() && old(trace) <= trace && old(waits) <= waits && t < |sessions|
      ensures over <==> GoroutineOver(sessions[t].pc)
      ensures !over ==> waits >= old(waits) + patience || used == |input|
      ensures used <= |input| && sessions[t].read == old(sessions[t].read) + Joined(input, used)
      ensures over && !done ==> Follow(Proj(enqueued, t), sessions[t].id) == Some(Over)
    {
      var connected := DialDest(t, failure, patience);
      over, used := GoroutineOver(sessions[t].pc), 0;
      if connected {
        Yield(t);
        Advance(t, Register);
        over, used := DestReadLoop(t, input, patience);
      }
      if over && !done {
        SaysWholeWord(t);
      }
    }

    lemma SaysWholeWord(t: nat)
      requires Valid() && t < |sessions| && GoroutineOver(sessions[t].pc) && !done
      ensures Follow(Proj(enqueued, t), sessions[t].id) == Some(Over)
    {
      WholeWord(conf, Now(), t);
    }

    /** destConn.readLoop on what successive reads give: chunks are read and forwarded until a
        read fails or done is closed; then DESTROY, unless done is closed, and the removal from
        the map. */
    method DestReadLoop(t: nat, input: seq<Chunk>, patience: nat) returns (over: bool, used: nat)
      requires Valid() && t < |sessions| && sessions[t].pc.Reading? && Readable(input)
      modifies this
      ensures Valid() && old(trace) <= trace && old(waits) <= waits && t < |sessions|
      ensures over <==> GoroutineOver(sessions[t].pc)
      ensures !over ==> waits >= old(waits) + patience || used == |input|
      ensures used <= |input| && sessions[t].read == old(sessions[t].read) + Joined(input, used)
      ensures forall i :: 0 <= i < used - 1 ==> !input[i].failed
    {
      used := 0;
      assert old(sessions[t].read) + [] == old(sessions[t].read);
      while used < |input| && sessions[t].pc.Reading?
        invariant Valid() && old(trace) <= trace && old(waits) <= waits && t < |sessions|
        invariant sessions[t].pc.Reading? || sessions[t].pc.Forwarding? || sessions[t].pc.Closing?
        invariant sessions[t].pc.Forwarding? ==> waits >= old(waits) + patience
        invariant used <= |input| && sessions[t].read == old(sessions[t].read) + Joined(input, used)
        invariant forall i :: 0 <= i < used && (sessions[t].pc.Reading? || i < used - 1) ==> !input[i].failed
        decreases |input| - used, if sessions[t].pc.Reading? then 1 else 0
      {
        var read := ReadAndForward(t, input[used], patience);
        if read {
          JoinedSnoc(old(sessions[t].read), input, used);
          used := used + 1;
        }
      }
      if sessions[t].pc.Closing? {
        over := Deferred(t, patience);
      } else {
        over := false;
      }
    }

    /** One turn: a read, and its chunk forwarded or dropped; read: the socket was open. */
    method ReadAndForward(t: nat, chunk: Chunk, patience: nat) returns (read: bool)
      requires Valid() && t < |sessions| && sessions[t].pc.Reading? && |chunk.data| <= CHUNK
      modifies this
      ensures Valid() && old(trace) <= trace && old(waits) <= waits && t < |sessions|
      ensures sessions[t].pc.Reading? || sessions[t].pc.Forwarding? || sessions[t].pc.Closing?
      ensures sessions[t].pc.Forwarding? ==> waits >= old(waits) + patience
      ensures sessions[t].pc.Reading? ==> read && !chunk.failed
      ensures sessions[t].read == old(sessions[t].read) + if read then chunk.data else []
    {
      read := ReadChunk(t, chunk);
      if sessions[t].pc.Forwarding? {
        var _ := Select(t, patience);
      }
    }

    /** One Read; on a closed socket it fails and gives nothing. */
    method ReadChunk(t: nat, chunk: Chunk) returns (read: bool)
      requires Valid() && t < |sessions| && sessions[t].pc.Reading? && |chunk.data| <= CHUNK
      modifies this
      ensures Valid() && old(trace) <= trace && waits == old(waits) + 1 && t < |sessions|
      ensures sessions[t].pc == if !read then Closing else NextPc(Reading, ReadDest(chunk.data, chunk.failed))
      ensures sessions[t].read == old(sessions[t].read) + if read then chunk.data else []
    {
      Yield(t);
      read := sessions[t].open;
      if read {
        Advance(t, ReadDest(chunk.data, chunk.failed));
      } else {
        Advance(t, ReadDest([], true));
      }
    }

    /** The deferred end. */
    method Deferred(t: nat, patience: nat) returns (over: bool)
      requires Valid() && t < |sessions| && sessions[t].pc.Closing?
      modifies this
      ensures Valid() && old(trace) <= trace && old(waits) <= waits && t < |sessions|
      ensures sessions[t].read == old(sessions[t].read)
      ensures over <==> GoroutineOver(sessions[t].pc)
      ensures !over ==> waits >= old(waits) + patience
    {
      over := Select(t, patience);
      if over {
        assert sessions[t].pc == Removing;
        RemoveDest(t);
      }
    }

    /** removeDest */
    method RemoveDest(t: nat)
      requires Valid() && t < |sessions| && sessions[t].pc.Removing?
      modifies this
      ensures Valid() && old(trace) <= trace && old(waits) <= waits && t < |sessions|
      ensures sessions[t].pc == Ended && sessions[t].read == old(sessions[t].read)
    {
      Yield(t);
      Advance(t, Remove);
    }

    // ---- The writer and the ticker ----

    /** writeLoop: takes packets and writes them until a write fails or done is closed. */
    method WriteLoop(patience: nat)
      requires Valid() && writer.Waiting?
      modifies this
      ensures Valid() && old(trace) <= trace && old(waits) <= waits
      ensures writer.Exited? || (writer.Waiting? && waits >= old(waits) + patience)
      ensures old(wire) <= wire
    {
      for i := 0 to patience
        invariant Valid() && old(trace) <= trace && waits >= old(waits) + i && old(wire) <= wire
        invariant writer.Waiting?
      {
        var _ := WriterTurn();
        if writer.Exited? {
          return;
        }
      }
    }

    /** One turn of its select; it moves unless nothing is queued and done is open. */
    method WriterTurn() returns (moved: bool)
      requires Valid() && writer.Waiting?
      modifies this
      ensures Valid() && old(trace) <= trace && waits > old(waits) && old(wire) <= wire
      ensures writer.Waiting? || writer.Exited?
      ensures if moved then Stepped(TheWriter, old(trace), trace) else serverSend == [] && !done
    {
      Others(TheWriter);
      var takeFirst: bool := *;
      ghost var at := |trace|;
      moved := true;
      if serverSend != [] && (takeFirst || !done) {
        Take(TakePacket);
        assert Mine(TheWriter, trace[at]);
        WriteFrame();
      } else if done {
        Take(WriterSeesDone);
        assert Mine(TheWriter, trace[at]);
      } else {
        moved := false;
      }
    }

    /** The frame in hand is written until it is used up, or a write fails, which ends the
        writer: the wire gets the whole frame, or part of it. */
    method WriteFrame()
      requires Valid() && writer.Writing?
      modifies this
      ensures Valid() && old(trace) <= trace && old(waits) <= waits
      ensures match writer
        case Waiting => wire == old(wire) + old(writer).rest
        case Writing(_) => false
        case Exited => old(wire) <= wire <= old(wire) + old(writer).rest
    {
      ghost var whole := wire + writer.rest;
      while writer.Writing?
        invariant Valid() && old(trace) <= trace && old(waits) <= waits && old(wire) <= wire
        invariant match writer
          case Waiting => wire == whole
          case Writing(rest) => wire + rest == whole
          case Exited => wire <= whole
        decreases if writer.Writing? then 1 + |writer.rest| else 0
      {
        Others(TheWriter);
        var rest := writer.rest;
        var n: nat :| n <= |rest|;
        var failed: bool := *;
        failed := failed || (n == 0 && |rest| > 0);
        WholeFrame(wire, rest, n);
        Take(WriteServer(n, failed));
      }
    }

    /** keepaliveLoop: a KEEPALIVE for every tick until done is closed. */
    method KeepaliveLoop(patience: nat)
      requires Valid() && ticker.Idle?
      modifies this
      ensures Valid() && old(trace) <= trace && old(waits) <= waits
      ensures ticker.Stopped? || waits >= old(waits) + patience
    {
      for i := 0 to patience
        invariant Valid() && old(trace) <= trace && waits == old(waits) + i && (ticker.Idle? || ticker.Ticked?)
      {
        var _ := TickerTurn();
        if ticker.Stopped? {
          return;
        }
      }
    }

    /** One turn of either select; it moves unless a KEEPALIVE waits for room and done is open. */
    method TickerTurn() returns (moved: bool)
      requires Valid() && (ticker.Idle? || ticker.Ticked?)
      modifies this
      ensures Valid() && old(trace) <= trace && waits == old(waits) + 1 && !ticker.NotStarted?
      ensures if moved then Stepped(TheTicker, old(trace), trace)
        else ticker.Ticked? && |serverSend| >= QUEUE_CAPACITY && !done
    {
      Others(TheTicker);
      var other: bool := *;
      ghost var at := |trace|;
      moved := true;
      if done && (other || (ticker.Ticked? && |serverSend| >= QUEUE_CAPACITY)) {
        Take(TickerSeesDone);
        assert Mine(TheTicker, trace[at]);
      } else if ticker.Idle? {
        Take(Tick);
        assert Mine(TheTicker, trace[at]);
      } else if |serverSend| < QUEUE_CAPACITY {
        Take(SendKeepalive);
        assert Mine(TheTicker, trace[at]);
      } else {
        moved := false;
      }
    }

    // ---- The reader ----

    /** What Run knows of itself: its history tells what it handled and what became of the
        files since the base; and what its reads gave is the base's. */
    ghost predicate Recorded(base: Base)
      reads this, fs
    {
      && Valid() && fs.Valid() && conf.renewal == Renewal.RenewalEnabled(opts)
      && Told(Now(), history)
      && ReadLoop.OnDisk(crypto, opts, history, base.was, fs.State(), fs.log, base.start)
      && inbound == base.got && readErr == base.err
    }

    /** The others run; the reader stays where it is, with what it knows. */
    method Wait(ghost base: Base)
      requires Recorded(base)
      modifies this
      ensures Recorded(base) && old(trace) <= trace && waits == old(waits) + 1
      ensures reader == old(reader) && |sessions| == |old(sessions)|
    {
      ghost var s := Now();
      Others(TheReader);
      ToldStays(s, Now(), history);
    }

    /** A step of the reader's other than handling a packet. */
    method Move(r: ReaderAct, ghost base: Base)
      requires Recorded(base) && ReaderReady(Now(), r) && !r.HandleNext? && !r.ReadServer?
      modifies this
      ensures Recorded(base) && old(trace) <= trace && waits == old(waits)
      ensures Now() == DoReader(old(Now()), r)
    {
      ToldThere(conf, Now(), r, history);
      Take(ReaderStep(r));
    }

    /** Run: the renewal request, the read loop, the shutdown. When it returns, the result is
        the sequential read loop's on the bytes received, the files are where the answers
        handled took them, and whatever the others did is a run of the step system. */
    method Run(script: seq<ReadLoop.Read>, patience: nat) returns (result: Option<RunResult>, used: nat)
      requires Valid() && Now() == Init(conf) && fs.Valid() && conf.renewal == Renewal.RenewalEnabled(opts)
      requires forall i :: 0 <= i < |script| ==> |script[i].data| <= CHUNK
      modifies this, fs
      ensures Valid() && old(trace) <= trace && old(waits) <= waits && history.handled == handled
      ensures result.Some? <==> reader.Finished?
      ensures result == None ==> waits >= old(waits) + patience || used == |script|
      ensures used <= |script| && inbound == ReadLoop.Stream(script, used)
      ensures readErr == if used == 0 then None else script[used - 1].err
      ensures result.Some? ==> reader.result == result.value
      ensures result.Some? ==>
        ReadLoop.Outcome(Decode(inbound).packets, conf.renewal, readErr, handled, history.verdicts, result)
      ensures ReadLoop.OnDisk(crypto, opts, history, old(fs.State()), fs.State(), fs.log, |old(fs.log)|)
      ensures result.Some? ==> (result == Some(Renewed)
        <==> Renewal.Der(crypto, fs.State()) != Renewal.Der(crypto, old(fs.State())))
      ensures forall i :: |old(fs.log)| <= i < |fs.log| ==> Renewal.Safe(crypto, old(fs.State()), fs.log[i])
    {
      ghost var base := Base(fs.State(), |fs.log|, [], None);
      history := ReadLoop.History([], [], [fs.State()]);
      SendRenewRequest(base);
      used, base := ReadServerLoop(script, patience, base);
      result := None;
      if reader.Returned? {
        result := Some(reader.result);
        Shutdown(base);
        Conclude(base);
      }
      ReadLoop.LoopIsSafe(crypto, opts, history, base.was, fs.State(), fs.log, base.start);
    }

    /** What the result says of the certificate. */
    lemma Conclude(base: Base)
      requires Recorded(base) && reader.Finished?
      ensures ReadLoop.Outcome(Decode(inbound).packets, conf.renewal, readErr, handled, history.verdicts,
        Some(reader.result))
      ensures reader.result == Renewed <==> Renewal.Der(crypto, fs.State()) != Renewal.Der(crypto, base.was)
    {
      ReachableReader(conf, Now());
      ReadLoop.RenewedMeansInstalled(crypto, opts, Decode(inbound).packets, readErr, history,
        Some(reader.result), base.was, fs.State(), fs.log, base.start);
    }

    /** close(done), and the lock section. */
    method Shutdown(ghost base: Base)
      requires Recorded(base) && reader.Returned?
      modifies this
      ensures Recorded(base) && old(trace) <= trace && old(waits) <= waits
      ensures reader == Finished(old(reader).result)
    {
      Wait(base);
      Move(ReaderAct.CloseDone, base);
      Wait(base);
      EmptyDests(base);
    }

    /** sendRenewRequest: the select with a default. */
    method SendRenewRequest(ghost base: Base)
      requires Recorded(base) && reader.Starting?
      modifies this
      ensures Recorded(base) && old(trace) <= trace && old(waits) <= waits
      ensures reader.AtRead?
    {
      Wait(base);
      if conf.renewal && |serverSend| >= QUEUE_CAPACITY {
        Move(ReaderAct.SkipRenewRequest, base);
      } else {
        Move(ReaderAct.SendRenewRequest, base);
      }
    }

    /** readLoop on what successive reads give: a read, and its packets, until one of them or a
        read ends it. */
    method ReadServerLoop(script: seq<ReadLoop.Read>, patience: nat, ghost base: Base)
      returns (used: nat, ghost base': Base)
      requires Recorded(base) && reader.AtRead? && base.got == [] && base.err == None
      requires forall i :: 0 <= i < |script| ==> |script[i].data| <= CHUNK
      modifies this, fs
      ensures Recorded(base') && old(trace) <= trace && old(waits) <= waits
      ensures used <= |script| && base' == After(base, script, used)
      ensures reader.Returned? || (reader.AtRead? && used == |script|)
        || (reader.Blocked? && waits >= old(waits) + patience)
    {
      used, base' := 0, base;
      while used < |script| && reader.AtRead?
        invariant Recorded(base') && old(trace) <= trace && old(waits) <= waits
        invariant used <= |script| && base' == After(base, script, used)
        invariant reader.Returned? || reader.AtRead? || (reader.Blocked? && waits >= old(waits) + patience)
        decreases |script| - used
      {
        base' := ReadOnce(script[used], base');
        used := used + 1;
        HandlePackets(patience, base');
      }
    }

    /** What the first n reads have given. */
    ghost function After(base: Base, script: seq<ReadLoop.Read>, n: nat): Base
      requires n <= |script|
    {
      if n == 0 then base
      else base.(got := ReadLoop.Stream(script, n), err := script[n - 1].err)
    }

    /** One Read, and the decoding of what it gave. */
    method ReadOnce(read: ReadLoop.Read, ghost base: Base) returns (ghost base': Base)
      requires Recorded(base) && reader.AtRead? && |read.data| <= CHUNK
      modifies this
      ensures base' == base.(got := base.got + read.data, err := read.err)
      ensures Recorded(base') && old(trace) <= trace && waits == old(waits) + 1
      ensures reader.Handling? || reader.AtRead? || reader.Returned?
    {
      Wait(base);
      ToldThere(conf, Now(), ReaderAct.ReadServer(read.data, read.err), history);
      Take(ReaderStep(ReaderAct.ReadServer(read.data, read.err)));
      base' := base.(got := base.got + read.data, err := read.err);
    }

    /** The packets of one read, in order, up to the first that ends the loop. */
    method HandlePackets(patience: nat, ghost base: Base)
      requires Recorded(base) && (reader.Handling? || reader.AtRead? || reader.Returned?)
      modifies this, fs
      ensures Recorded(base) && old(trace) <= trace && old(waits) <= waits
      ensures reader.Returned? || reader.AtRead? || (reader.Blocked? && waits >= old(waits) + patience)
    {
      while reader.Handling?
        invariant Recorded(base) && old(trace) <= trace && old(waits) <= waits
        invariant reader.Handling? || reader.Returned? || reader.AtRead?
          || (reader.Blocked? && waits >= old(waits) + patience)
        decreases if reader.Handling? then 1 + |reader.next| else 0
      {
        Wait(base);
        HandleOne(patience, base);
      }
    }

    /** handlePacket on the next packet, its blocking points included. */
    method HandleOne(patience: nat, ghost base: Base)
      requires Recorded(base) && reader.Handling?
      modifies this, fs
      ensures Recorded(base) && old(trace) <= trace && old(waits) <= waits
      ensures reader.Handling? || reader.Returned? || reader.AtRead?
        || (reader.Blocked? && waits >= old(waits) + patience)
      ensures reader.Handling? ==> |reader.next| < |old(reader).next|
    {
      HandlePacket(base);
      if reader.Blocked? {
        SendRefusal(patience, base);
      } else if reader.Delivering? {
        SendToDest(base);
      }
    }

    /** handlePacket up to its first blocking point: a RENEW_RESPONSE acts on the files, and
        what it installed decides whether the loop goes on. */
    method HandlePacket(ghost base: Base)
      requires Recorded(base) && reader.Handling?
      modifies this, fs
      ensures Recorded(base) && old(trace) <= trace && old(waits) <= waits
      ensures HoldsPackets(reader) || reader.AtRead? || reader.Returned?
      ensures HoldsPackets(reader) ==> |reader.next| < |old(reader).next|
    {
      var p := reader.next[0];
      ghost var s, mid, log := Now(), fs.State(), fs.log;
      var v;
      ghost var more;
      v, more := ReadLoop.HandlePacket(fs, crypto, opts, p);
      ToldAfter(conf, s, v, history);
      ReadLoop.OnDiskSnoc(crypto, opts, history, p, v, more, base.was, mid, fs.State(), log, fs.log,
        base.start);
      Dispatch(v == Some(Renewed));
      history := Extended(history, p, v).(ds := history.ds + more[1..]);
    }

    /** The dispatch on the command. */
    method Dispatch(renewed: bool)
      requires Valid() && ReaderReady(Now(), HandleNext(renewed))
      modifies this
      ensures Valid() && trace == old(trace) + [ReaderStep(HandleNext(renewed))]
      ensures waits == old(waits) && history == old(history)
      ensures Now() == DoReader(old(Now()), HandleNext(renewed))
    {
      PathSnoc(Init(conf), trace, Now(), ReaderStep(HandleNext(renewed)));
      trace := trace + [ReaderStep(HandleNext(renewed))];
      DispatchCommand(renewed);
    }

    method DispatchCommand(renewed: bool)
      requires ReaderReady(Now(), HandleNext(renewed))
      modifies this`handled, this`reader, this`sessions
      ensures Now() == DoReader(old(Now()), HandleNext(renewed))
    {
      var p, next, err := reader.next[0], reader.next[1..], reader.err;
      handled := handled + [p];
      reader := GoOn(next, err);
      if p.cmd == CMD_CREATE_REQUEST {
        HandleCreateRequest(p.payload, next, err);
      } else if p.cmd == CMD_DESTROY {
        CloseDest(p.payload);
      } else if p.cmd == CMD_DATA {
        HandToDest(p.payload, next, err);
      } else if p.cmd == CMD_REJECT {
        reader := Returned(Rejected(p.payload));
      } else if p.cmd == CMD_RECONNECT {
        reader := Returned(Eof);
      } else if renewed {
        reader := Returned(Renewed);
      }
    }

    method HandleCreateRequest(payload: bytes, next: seq<Packet>, err: Option<RunResult>)
      requires reader == GoOn(next, err)
      modifies this`sessions, this`reader
      ensures Now() == HandleCreate(old(Now()), payload, next, err)
    {
      var r := ParseCreateRequest(payload);
      if r.None? {
        return;
      }
      var host, refusal: Option<bytes> := r.value.host, None;
      if !Allowed(conf, host) {
        refusal := Some(DENIED);
      } else if !IsAddress(conf, host) {
        refusal := Some(conf.notAddress(host));
      }
      if refusal.Some? {
        reader := Blocked(|sessions|, refusal.value, next, err);
        sessions := sessions + [NewSession(r.value, Refusing)];
      } else {
        sessions := sessions + [NewSession(r.value, Dialing)];
      }
    }

    method CloseDest(payload: bytes)
      modifies this`sessions
      ensures sessions == Close(old(sessions), dests, payload)
    {
      var id := ParseDestroy(payload);
      if id.Some? && id.value in dests && dests[id.value] < |sessions| {
        var t := dests[id.value];
        sessions := sessions[t := sessions[t].(open := false, ordered := true)];
      }
    }

    method HandToDest(payload: bytes, next: seq<Packet>, err: Option<RunResult>)
      requires reader == GoOn(next, err)
      modifies this`sessions, this`reader
      ensures Now() == HandleData(old(Now()), payload, next, err)
    {
      var parsed := ParseData(payload);
      if parsed.Some? && parsed.value.0 in dests && dests[parsed.value.0] < |sessions| {
        var t, data := dests[parsed.value.0], parsed.value.1;
        sessions := sessions[t := sessions[t].(inbox := sessions[t].inbox + [data])];
        if |data| > 0 {
          reader := Delivering(t, data, next, err);
        }
      }
    }

    /** The reader's own send has no done arm: it waits for room. */
    method SendRefusal(patience: nat, ghost base: Base)
      requires Recorded(base) && reader.Blocked?
      modifies this
      ensures Recorded(base) && old(trace) <= trace && old(waits) <= waits
      ensures reader == GoOn(old(reader).next, old(reader).err)
        || (reader == old(reader) && waits >= old(waits) + patience)
      ensures reader == old(reader) && patience > 0 ==> |serverSend| >= QUEUE_CAPACITY
    {
      for i := 0 to patience
        invariant Recorded(base) && old(trace) <= trace && waits == old(waits) + i && reader == old(reader)
        invariant i > 0 ==> |serverSend| >= QUEUE_CAPACITY
      {
        Wait(base);
        if |serverSend| < QUEUE_CAPACITY {
          ReachableReader(conf, Now());
          Move(ReaderAct.SendRefusal, base);
          return;
        }
      }
    }

    /** destConn.send: writes the data in hand until it is used up or a write fails. */
    method SendToDest(ghost base: Base)
      requires Recorded(base) && reader.Delivering?
      modifies this
      ensures Recorded(base) && old(trace) <= trace && old(waits) <= waits
      ensures reader == GoOn(old(reader).next, old(reader).err)
    {
      var next, err := reader.next, reader.err;
      while reader.Delivering?
        invariant Recorded(base) && old(trace) <= trace && old(waits) <= waits
        invariant if reader.Delivering? then reader.next == next && reader.err == err else reader == GoOn(next, err)
        decreases if reader.Delivering? then 1 + |reader.rest| else 0
      {
        WriteOnce(base);
      }
    }

    /** One Write; a write of nothing has failed. */
    method WriteOnce(ghost base: Base)
      requires Recorded(base) && reader.Delivering?
      modifies this
      ensures Recorded(base) && old(trace) <= trace && old(waits) <= waits
      ensures if reader.Delivering?
        then reader.next == old(reader).next && reader.err == old(reader).err && |reader.rest| < |old(reader).rest|
        else reader == GoOn(old(reader).next, old(reader).err)
    {
      Wait(base);
      ReachableDelivery(conf, Now());
      var n: nat :| n <= |reader.rest|;
      var failed: bool := *;
      failed := failed || (n == 0 && |reader.rest| > 0);
      Move(WriteDest(n, failed), base);
    }

    /** Run closes the socket of every session in the map. */
    method CloseSockets()
      modifies this`sessions
      ensures sessions == CloseAll(old(sessions), dests)
    {
      var i := 0;
      while i < |sessions|
        invariant 0 <= i <= |sessions| == |old(sessions)|
        invariant forall j :: 0 <= j < i ==> sessions[j] == CloseAll(old(sessions), dests)[j]
        invariant forall j :: i <= j < |sessions| ==> sessions[j] == old(sessions)[j]
      {
        if i in dests.Values {
          sessions := sessions[i := sessions[i].(open := false, swept := true)];
        }
        i := i + 1;
      }
    }

    /** The lock section at the end of Run: the sockets in the map are closed, the map emptied. */
    method EmptyDests(ghost base: Base)
      requires Recorded(base) && reader.DoneClosed?
      modifies this
      ensures Recorded(base) && old(trace) <= trace && old(waits) <= waits
      ensures Now() == DoReader(old(Now()), ReaderAct.EmptyDests)
    {
      ToldThere(conf, Now(), ReaderAct.EmptyDests, history);
      EmptyMap();
    }

    method EmptyMap()
      requires Valid() && reader.DoneClosed?
      modifies this
      ensures Valid() && trace == old(trace) + [ReaderStep(ReaderAct.EmptyDests)]
      ensures waits == old(waits) && history == old(history)
      ensures Now() == DoReader(old(Now()), ReaderAct.EmptyDests)
    {
      PathSnoc(Init(conf), trace, Now(), ReaderStep(ReaderAct.EmptyDests));
      trace := trace + [ReaderStep(ReaderAct.EmptyDests)];
      CloseDests();
    }

    method CloseDests()
      requires reader.DoneClosed?
      modifies this`sessions, this`dests, this`reader
      ensures Now() == DoReader(old(Now()), ReaderAct.EmptyDests)
    {
      EmptiesDests(Now());
      CloseSockets();
      dests, reader := map[], Finished(reader.result);
    }
  }

  /** Where Run started: the files, the length of the disk's log; and what its reads gave. */
  datatype Base = Base(was: Files, start: nat, got: bytes, err: Option<RunResult>)

  /** What one Read of a destination gives. */
  datatype Chunk = Chunk(data: bytes, failed: bool)

  /** No read gives more than the buffer holds. */
  predicate Readable(input: seq<Chunk>) {
    forall i :: 0 <= i < |input| ==> |input[i].data| <= CHUNK
  }

  function Joined(input: seq<Chunk>, n: nat): bytes
    requires n <= |input|
  {
    if n == 0 then [] else Joined(input, n - 1) + input[n - 1].data
  }

  lemma JoinedSnoc(before: bytes, input: seq<Chunk>, n: nat)
    requires n < |input|
    ensures (before + Joined(input, n)) + input[n].data == before + Joined(input, n + 1)
  {
  }

  /** A step of who's was taken between. */
  ghost predicate Stepped(who: Role, before: seq<Action>, after: seq<Action>) {
    exists i :: |before| <= i < |after| && Mine(who, after[i])
  }

  /** The packet a goroutine is about to send, and where either arm of its select leads. */
  function SendOf(pc: Pc): Option<SessionAct> {
    match pc
    case DialFailed(_) => Some(SendFailure)
    case Connected => Some(SendSuccess)
    case Forwarding(_, _) => Some(Forward)
    case Closing => Some(SendDestroy)
    case _ => None
  }

  /** Where a step leads. */
  function NextPc(pc: Pc, a: SessionAct): Pc {
    match a
    case DialFails(reason) => DialFailed(reason)
    case DialSucceeds => Connected
    case SendFailure => Unreachable
    case SendSuccess => Registering
    case GiveUp => Abandoned
    case Register => Reading
    case ReadDest(chunk, failed) =>
      if chunk != [] then Forwarding(chunk, failed) else if failed then Closing else Reading
    case Forward => if pc.Forwarding? && pc.last then Closing else Reading
    case DropChunk => Closing
    case SendDestroy | SkipDestroy => Removing
    case Remove => Ended
  }

  lemma AfterIsNext(sess: Session, a: SessionAct, seen: nat, finished: bool)
    requires Ready(sess, a, true, true)
    ensures After(sess, a, seen, finished).pc == NextPc(sess.pc, a)
  {
    match a
    case DialFails(_) =>
    case SendFailure =>
    case ReadDest(_, _) =>
    case Forward =>
    case DropChunk =>
    case _ =>
  }

  lemma EmptiesDests(s: State)
    requires s.reader.DoneClosed?
    ensures DoReader(s, ReaderAct.EmptyDests)
      == s.(sessions := CloseAll(s.sessions, s.dests), dests := map[], reader := Finished(s.reader.result))
  {
  }

  lemma ToldStays(s: State, s': State, h: ReadLoop.History)
    requires Untouched(TheReader, s, s') && Told(s, h)
    ensures Told(s', h)
  {
  }

  /** The verdict tells whether a certificate was installed, and the other way round. */
  lemma VerdictAgrees(p: Packet, renewal: bool, v: Option<RunResult>)
    requires PacketVerdict(p, renewal, v)
    ensures VerdictOf(p, v == Some(Renewed)) == v
    ensures v == Some(Renewed) ==> PacketVerdict(p, renewal, Some(Renewed))
  {
  }

  lemma ToldThere(conf: Config, s: State, r: ReaderAct, h: ReadLoop.History)
    requires Reachable(conf, s) && ReaderReady(s, r) && Told(s, h) && !r.HandleNext?
    ensures Told(DoReader(s, r), h)
  {
    ReachableReader(conf, s);
    ToldByReader(s, r, h);
  }

  lemma ToldAfter(conf: Config, s: State, v: Option<RunResult>, h: ReadLoop.History)
    requires Reachable(conf, s) && Told(s, h) && s.reader.Handling?
    requires s.reader.next != [] && PacketVerdict(s.reader.next[0], s.conf.renewal, v)
    ensures ReaderReady(s, HandleNext(v == Some(Renewed)))
    ensures var s' := DoReader(s, HandleNext(v == Some(Renewed)));
      && Told(s', Extended(h, s.reader.next[0], v))
      && s'.inbound == s.inbound && s'.readErr == s.readErr
      && (HoldsPackets(s'.reader) || s'.reader.AtRead? || s'.reader.Returned?)
      && (HoldsPackets(s'.reader) ==> |s'.reader.next| < |s.reader.next|)
  {
    ReachableReader(conf, s);
    VerdictAgrees(s.reader.next[0], s.conf.renewal, v);
    ToldByHandle(s, v == Some(Renewed), h);
    HandledOne(s, v == Some(Renewed));
    var p := s.reader.next[0];
    HandleFrame(s.(handled := s.handled + [p]), p, s.reader.next[1..], s.reader.err, v == Some(Renewed));
  }

  lemma HandledOne(s: State, renewed: bool)
    requires ReaderReady(s, HandleNext(renewed))
    ensures var reader := DoReader(s, HandleNext(renewed)).reader;
      && (HoldsPackets(reader) || reader.AtRead? || reader.Returned?)
      && (HoldsPackets(reader) ==> |reader.next| < |s.reader.next|)
  {
    var p, next, err := s.reader.next[0], s.reader.next[1..], s.reader.err;
    VerdictIsVerdict(p, s.conf.renewal, renewed);
    HandleFlows(s.(handled := s.handled + [p]), p, next, err, renewed);
  }

  /** What the session has answered after the step. */
  function AnswerBy(sess: Session, a: SessionAct): Answer {
    match a
    case SendFailure => if sess.pc.DialFailed? then Failed(sess.pc.reason) else sess.answer
    case SendSuccess => Succeeded
    case _ => sess.answer
  }

  lemma AfterReads(sess: Session, a: SessionAct, seen: nat, finished: bool)
    requires Ready(sess, a, true, true)
    ensures After(sess, a, seen, finished).read == sess.read + if a.ReadDest? then a.chunk else []
  {
    assert sess.read + [] == sess.read;
    match a
    case ReadDest(_, _) =>
    case Forward =>
    case DropChunk =>
    case _ =>
  }

  lemma AfterAnswers(sess: Session, a: SessionAct, seen: nat, finished: bool)
    requires Ready(sess, a, true, true)
    ensures After(sess, a, seen, finished).answer == AnswerBy(sess, a)
  {
    match a
    case DialFails(_) =>
    case SendFailure =>
    case SendSuccess =>
    case ReadDest(_, _) =>
    case Forward =>
    case _ =>
  }

  lemma MovesOn(s: State, t: nat, a: SessionAct)
    requires t < |s.sessions| && Ready(s.sessions[t], a, Room(s), s.done)
    ensures Enabled(s, SessionStep(t, a))
    ensures var ss' := Do(s, SessionStep(t, a)).sessions;
      && |ss'| == |s.sessions| && ss'[t].pc == NextPc(s.sessions[t].pc, a)
      && ss'[t].read == s.sessions[t].read + (if a.ReadDest? then a.chunk else [])
      && ss'[t].answer == AnswerBy(s.sessions[t], a)
    ensures Do(s, SessionStep(t, a)).done == s.done
  {
    var seen, finished := |DataFor(s.handled, s.sessions[t].id)|, s.reader.Finished?;
    AfterIsNext(s.sessions[t], a, seen, finished);
    AfterReads(s.sessions[t], a, seen, finished);
    AfterAnswers(s.sessions[t], a, seen, finished);
    assert Do(s, SessionStep(t, a)).sessions[t] == After(s.sessions[t], a, seen, finished);
  }

  lemma WholeFrame(wire: bytes, rest: bytes, n: nat)
    requires n <= |rest|
    ensures (wire + rest[..n]) + rest[n..] == wire + rest
    ensures wire + rest[..n] <= wire + rest
  {
  }
}
