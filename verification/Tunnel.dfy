/** One connection of internal/tunnel as a step system: the reader, the writer, the keepalive
    ticker and one goroutine per accepted CREATE_REQUEST share the send queue, the map of
    destinations and the done flag. Every blocking point of the source (channel operation,
    lock section, dial, read, write) is one atomic step; any interleaving is a run.
    A session is a well-formed CREATE_REQUEST; its tag is its position in order of arrival. */
module Tunnel {
  import opened Bytes
  import opened Framing
  import opened Outcomes
  import A = AccessList

  const QUEUE_CAPACITY := 256
  const CHUNK := 32768

  const DENIED: bytes := Ascii("Destination address not allowed")

  function Ascii(s: string): (b: bytes)
    ensures |b| == |s| && forall i :: 0 <= i < |s| ==> b[i] == (s[i] as int) % 256
  {
    seq(|s|, i requires 0 <= i < |s| => (s[i] as int) % 256)
  }

  function Text(b: bytes): (s: string)
    ensures |s| == |b| && forall i :: 0 <= i < |b| ==> s[i] as int == b[i]
  {
    seq(|b|, i requires 0 <= i < |b| => b[i] as char)
  }

  /** What a connection is started with. */
  datatype Config = Config(
    renewal: bool,               // renewalEnabled()
    identifier: bytes,           // "go/<version>"
    net: A.Net,
    access: seq<A.Entry>,        // the access list loaded for this connection
    notAddress: bytes -> bytes)  // the error text of parseHostPort

  predicate Allowed(conf: Config, host: bytes) {
    A.Permits(conf.net, conf.access, Text(host))
  }

  predicate IsAddress(conf: Config, host: bytes) {
    conf.net.parseIP(Text(host)).Some?
  }

  // ---- Sessions ----

  /** Where a session's goroutine is. */
  datatype Pc =
    | Refusing                                 // not started: the reader is sending the refusal
    | Refused
    | Dialing
    | DialFailed(reason: bytes)                // about to send the failure
    | Unreachable                              // failure sent, goroutine ended
    | Connected                                // about to send the success
    | Abandoned                                // done was closed before the response was sent
    | Registering                              // success sent, not yet in the map
    | Reading
    | Forwarding(chunk: bytes, last: bool)     // a chunk in hand; last: the read also failed
    | Closing                                  // socket closed, about to send DESTROY
    | Removing                                 // about to delete the map entry
    | Ended

  datatype Answer = NoAnswer | Failed(reason: bytes) | Succeeded

  /** A session and its histories. */
  datatype Session = Session(
    id: uint16, host: bytes, port: bytes,
    pc: Pc,
    open: bool,               // the destination socket
    answer: Answer,           // the response put in the queue
    read: bytes,              // everything read from the destination
    forwarded: seq<bytes>,    // the chunks put in the queue as DATA
    lost: bytes,              // the chunk dropped at shutdown
    destroyed: bool,          // DESTROY put in the queue
    start: nat,               // DATA packets handled for the id before registration
    inbox: seq<bytes>,        // payloads handed to send
    written: bytes,           // bytes written to the destination
    intact: bool,             // no write to the destination has failed
    late: bool,               // registered after Run had emptied the map
    ordered: bool,            // its socket was closed on a DESTROY from the server
    swept: bool)              // it was in the map when Run emptied it

  datatype SessionAct =
    | DialFails(reason: bytes)
    | DialSucceeds
    | SendFailure
    | SendSuccess
    | GiveUp
    | Register
    | ReadDest(chunk: bytes, failed: bool)
    | Forward
    | DropChunk
    | SendDestroy
    | SkipDestroy
    | Remove

  /** Whether the goroutine can take the step: room in the queue for a send, done closed for
      the other arm of a select; a read on a closed socket only fails. */
  predicate Ready(sess: Session, a: SessionAct, room: bool, done: bool) {
    match a
    case DialFails(_) => sess.pc.Dialing?
    case DialSucceeds => sess.pc.Dialing?
    case SendFailure => sess.pc.DialFailed? && room
    case SendSuccess => sess.pc.Connected? && room
    case GiveUp => (sess.pc.DialFailed? || sess.pc.Connected?) && done
    case Register => sess.pc.Registering?
    case ReadDest(chunk, failed) =>
      sess.pc.Reading? && |chunk| <= CHUNK && (!sess.open ==> chunk == [] && failed)
    case Forward => sess.pc.Forwarding? && room
    case DropChunk => sess.pc.Forwarding? && done
    case SendDestroy => sess.pc.Closing? && room
    case SkipDestroy => sess.pc.Closing? && done
    case Remove => sess.pc.Removing?
  }

  /** The session after its step; seen DATA packets have been handled for its id, and
      finished says whether Run has emptied the map. */
  function After(sess: Session, a: SessionAct, seen: nat, finished: bool): Session
    requires Ready(sess, a, true, true)
  {
    match a
    case DialFails(reason) => sess.(pc := DialFailed(reason))
    case DialSucceeds => sess.(pc := Connected, open := true)
    case SendFailure => sess.(pc := Unreachable, answer := Failed(sess.pc.reason))
    case SendSuccess => sess.(pc := Registering, answer := Succeeded)
    case GiveUp => sess.(pc := Abandoned, open := false)
    case Register => sess.(pc := Reading, start := seen, late := finished)
    case ReadDest(chunk, failed) =>
      sess.(read := sess.read + chunk,
        pc := if chunk != [] then Forwarding(chunk, failed) else if failed then Closing else Reading,
        open := sess.open && (chunk != [] || !failed))
    case Forward =>
      sess.(forwarded := sess.forwarded + [sess.pc.chunk],
        pc := if sess.pc.last then Closing else Reading,
        open := sess.open && !sess.pc.last)
    case DropChunk => sess.(lost := sess.pc.chunk, pc := Closing, open := false)
    case SendDestroy => sess.(destroyed := true, pc := Removing)
    case SkipDestroy => sess.(pc := Removing)
    case Remove => sess.(pc := Ended)
  }

  /** The packet the step puts in the queue. */
  function Emits(sess: Session, a: SessionAct): Option<Packet>
    requires Ready(sess, a, true, true)
  {
    match a
    case SendFailure => Some(CreateResponse(sess.id, 1, sess.pc.reason))
    case SendSuccess => Some(CreateResponse(sess.id, 0, []))
    case Forward => Some(Data(sess.id, sess.pc.chunk))
    case SendDestroy => Some(Destroy(sess.id))
    case _ => None
  }

  function DestsAfter(dests: map<uint16, nat>, id: uint16, tag: nat, a: SessionAct): map<uint16, nat> {
    match a
    case Register => dests[id := tag]
    case Remove => dests - {id}
    case _ => dests
  }

  // ---- The connection ----

  datatype Origin = Agent | Of(tag: nat)

  /** A queued packet; the queue holds its frame. */
  datatype Entry = Entry(origin: Origin, pkt: Packet)

  datatype Writer = Waiting | Writing(rest: bytes) | Exited

  datatype Ticker = NotStarted | Idle | Ticked | Stopped

  /** Where the reader is; next are the decoded packets not yet handled, err the error the
      last read gave together with its bytes. */
  datatype Reader =
    | Starting
    | AtRead
    | Handling(next: seq<Packet>, err: Option<RunResult>)
    | Blocked(tag: nat, reason: bytes, next: seq<Packet>, err: Option<RunResult>)
    | Delivering(tag: nat, rest: bytes, next: seq<Packet>, err: Option<RunResult>)
    | Returned(result: RunResult)      // readLoop has returned
    | DoneClosed(result: RunResult)
    | Finished(result: RunResult)      // the map is emptied, the connection closed

  datatype State = State(
    conf: Config,
    queue: seq<Entry>,          // serverSend
    done: bool,
    dests: map<uint16, nat>,    // id to session tag
    sessions: seq<Session>,
    reader: Reader,
    buf: bytes,                 // the read loop's remainder
    readErr: Option<RunResult>, // history: the error the last read gave
    writer: Writer,
    ticker: Ticker,
    enqueued: seq<Entry>,       // history: everything ever queued
    taken: nat,                 // history: how many the writer has taken
    wire: bytes,                // history: bytes written to the server
    inbound: bytes,             // history: bytes read from the server
    handled: seq<Packet>)       // history: packets handled

  function Init(conf: Config): State {
    State(conf, [], false, map[], [], Starting, [], None, Waiting, NotStarted, [], 0, [], [], [])
  }

  predicate Room(s: State) {
    |s.queue| < QUEUE_CAPACITY
  }

  function Put(s: State, es: seq<Entry>): State {
    s.(queue := s.queue + es, enqueued := s.enqueued + es)
  }

  function Queued(origin: Origin, p: Option<Packet>): seq<Entry> {
    match p
    case Some(pkt) => [Entry(origin, pkt)]
    case None => []
  }

  /** The reader goes on with the next packet, the next read, or returns the read's error. */
  function GoOn(next: seq<Packet>, err: Option<RunResult>): Reader {
    if next != [] then Handling(next, err)
    else match err
      case None => AtRead
      case Some(e) => Returned(e)
  }

  /** The payloads of the DATA packets for an id, in order. */
  function DataFor(ps: seq<Packet>, id: uint16): seq<bytes> {
    if ps == [] then [] else
      var front, p := DataFor(ps[..|ps| - 1], id), ps[|ps| - 1];
      if p.cmd == CMD_DATA && |p.payload| >= 2 && Get16(p.payload) == id
      then front + [p.payload[2..]] else front
  }

  datatype ReaderAct =
    | SendRenewRequest
    | SkipRenewRequest                              // the select's default branch
    | ReadServer(data: bytes, err: Option<RunResult>)
    | HandleNext(renewed: bool)                     // renewed: a new certificate was installed
    | SendRefusal
    | WriteDest(n: nat, failed: bool)
    | CloseDone
    | EmptyDests

  datatype Action =
    | ReaderStep(r: ReaderAct)
    | TakePacket
    | WriteServer(n: nat, failed: bool)
    | WriterSeesDone
    | Tick
    | SendKeepalive
    | TickerSeesDone
    | SessionStep(tag: nat, a: SessionAct)

  predicate ReaderReady(s: State, r: ReaderAct) {
    match r
    case SendRenewRequest => s.reader.Starting? && (s.conf.renewal ==> Room(s))
    case SkipRenewRequest => s.reader.Starting? && s.conf.renewal && !Room(s)
    case ReadServer(data, err) =>
      s.reader.AtRead? && |data| <= CHUNK && err in {None, Some(Eof), Some(NetError)}
    case HandleNext(renewed) =>
      s.reader.Handling? && s.reader.next != []
      && (renewed ==> PacketVerdict(s.reader.next[0], s.conf.renewal, Some(Renewed)))
    case SendRefusal => s.reader.Blocked? && s.reader.tag < |s.sessions| && Room(s)
    case WriteDest(n, failed) =>
      s.reader.Delivering? && s.reader.tag < |s.sessions| && n <= |s.reader.rest|
    case CloseDone => s.reader.Returned?
    case EmptyDests => s.reader.DoneClosed?
  }

  predicate Enabled(s: State, a: Action) {
    match a
    case ReaderStep(r) => ReaderReady(s, r)
    case TakePacket => s.writer.Waiting? && s.queue != []
    case WriteServer(n, failed) => s.writer.Writing? && n <= |s.writer.rest|
    case WriterSeesDone => s.writer.Waiting? && s.done
    case Tick => s.ticker.Idle?
    case SendKeepalive => s.ticker.Ticked? && Room(s)
    case TickerSeesDone => (s.ticker.Idle? || s.ticker.Ticked?) && s.done
    case SessionStep(tag, a) =>
      tag < |s.sessions| && Ready(s.sessions[tag], a, Room(s), s.done)
  }

  function NewSession(r: Request, pc: Pc): Session {
    Session(r.id, r.host, r.port, pc, false, NoAnswer, [], [], [], false, 0, [], [], true, false, false, false)
  }

  /** handlePacket on a CREATE_REQUEST. */
  function HandleCreate(s: State, payload: bytes, next: seq<Packet>, err: Option<RunResult>): State {
    match ParseCreateRequest(payload)
    case None => s.(reader := GoOn(next, err))
    case Some(r) =>
      if !Allowed(s.conf, r.host) then Refuse(s, r, DENIED, next, err)
      else if !IsAddress(s.conf, r.host) then Refuse(s, r, s.conf.notAddress(r.host), next, err)
      else s.(sessions := s.sessions + [NewSession(r, Dialing)], reader := GoOn(next, err))
  }

  function Refuse(s: State, r: Request, reason: bytes, next: seq<Packet>, err: Option<RunResult>): State {
    s.(sessions := s.sessions + [NewSession(r, Refusing)],
      reader := Blocked(|s.sessions|, reason, next, err))
  }

  /** The sessions after a DESTROY from the server: the socket in the map is closed. */
  function Close(ss: seq<Session>, dests: map<uint16, nat>, payload: bytes): seq<Session> {
    match ParseDestroy(payload)
    case None => ss
    case Some(id) =>
      if id in dests && dests[id] < |ss|
      then var t := dests[id]; ss[t := ss[t].(open := false, ordered := true)] else ss
  }

  /** handlePacket on DATA: a payload for a session in the map is handed to send. */
  function HandleData(s: State, payload: bytes, next: seq<Packet>, err: Option<RunResult>): State {
    match ParseData(payload)
    case None => s.(reader := GoOn(next, err))
    case Some((id, data)) =>
      if id in s.dests && s.dests[id] < |s.sessions| then
        var t := s.dests[id];
        s.(sessions := s.sessions[t := s.sessions[t].(inbox := s.sessions[t].inbox + [data])],
          reader := if data == [] then GoOn(next, err) else Delivering(t, data, next, err))
      else s.(reader := GoOn(next, err))
  }

  /** handlePacket on any packet p, already moved to the handled history. */
  function Handle(s: State, p: Packet, next: seq<Packet>, err: Option<RunResult>, renewed: bool): State {
    if p.cmd == CMD_CREATE_REQUEST then HandleCreate(s, p.payload, next, err)
    else if p.cmd == CMD_DESTROY then
      s.(sessions := Close(s.sessions, s.dests, p.payload), reader := GoOn(next, err))
    else if p.cmd == CMD_DATA then HandleData(s, p.payload, next, err)
    else if p.cmd == CMD_REJECT then s.(reader := Returned(Rejected(p.payload)))
    else if p.cmd == CMD_RECONNECT then s.(reader := Returned(Eof))
    else if renewed then s.(reader := Returned(Renewed))
    else s.(reader := GoOn(next, err))
  }

  /** Run's shutdown loop closes the socket of every session in the map. */
  function CloseAll(ss: seq<Session>, dests: map<uint16, nat>): (r: seq<Session>)
    ensures |r| == |ss|
  {
    seq(|ss|, i requires 0 <= i < |ss| =>
      if i in dests.Values then ss[i].(open := false, swept := true) else ss[i])
  }

  function DoReader(s: State, r: ReaderAct): State
    requires ReaderReady(s, r)
  {
    match r
    case SendRenewRequest =>
      Put(s.(reader := AtRead, ticker := Idle),
        if s.conf.renewal then [Entry(Agent, RenewRequest(s.conf.identifier))] else [])
    case SkipRenewRequest => s.(reader := AtRead, ticker := Idle)
    case ReadServer(data, err) =>
      var d := if data == [] then Decoded([], s.buf) else Decode(s.buf + data);
      s.(inbound := s.inbound + data, buf := d.rest, readErr := err, reader := GoOn(d.packets, err))
    case HandleNext(renewed) =>
      var p := s.reader.next[0];
      Handle(s.(handled := s.handled + [p]), p, s.reader.next[1..], s.reader.err, renewed)
    case SendRefusal =>
      var t := s.reader.tag;
      var sess := s.sessions[t];
      Put(s.(sessions := s.sessions[t := sess.(pc := Refused, answer := Failed(s.reader.reason))],
          reader := GoOn(s.reader.next, s.reader.err)),
        [Entry(Of(t), CreateResponse(sess.id, 1, s.reader.reason))])
    case WriteDest(n, failed) =>
      var t, rest := s.reader.tag, s.reader.rest;
      var sess := s.sessions[t];
      s.(sessions := s.sessions[t := sess.(written := sess.written + rest[..n], intact := sess.intact && !failed)],
        reader := if failed || n == |rest| then GoOn(s.reader.next, s.reader.err)
                  else s.reader.(rest := rest[n..]))
    case CloseDone => s.(done := true, reader := DoneClosed(s.reader.result))
    case EmptyDests =>
      s.(sessions := CloseAll(s.sessions, s.dests), dests := map[], reader := Finished(s.reader.result))
  }

  function DoSession(s: State, t: nat, a: SessionAct): State
    requires t < |s.sessions| && Ready(s.sessions[t], a, Room(s), s.done)
  {
    var sess := s.sessions[t];
    var sess' := After(sess, a, |DataFor(s.handled, sess.id)|, s.reader.Finished?);
    Put(s.(sessions := s.sessions[t := sess'], dests := DestsAfter(s.dests, sess.id, t, a)),
      Queued(Of(t), Emits(sess, a)))
  }

  function Do(s: State, a: Action): State
    requires Enabled(s, a)
  {
    match a
    case ReaderStep(r) => DoReader(s, r)
    case TakePacket =>
      s.(queue := s.queue[1..], taken := s.taken + 1, writer := Writing(Frame(s.queue[0].pkt)))
    case WriteServer(n, failed) =>
      var rest := s.writer.rest;
      s.(wire := s.wire + rest[..n],
        writer := if failed then Exited else if n == |rest| then Waiting else Writing(rest[n..]))
    case WriterSeesDone => s.(writer := Exited)
    case Tick => s.(ticker := Ticked)
    case SendKeepalive => Put(s.(ticker := Idle), [Entry(Agent, Keepalive())])
    case TickerSeesDone => s.(ticker := Stopped)
    case SessionStep(tag, a) => DoSession(s, tag, a)
  }

  /** s' is reached from s by the steps. */
  ghost predicate Path(s: State, steps: seq<Action>, s': State)
    decreases |steps|
  {
    if steps == [] then s == s'
    else Enabled(s, steps[0]) && Path(Do(s, steps[0]), steps[1..], s')
  }

  ghost predicate Reachable(conf: Config, s: State) {
    exists steps :: Path(Init(conf), steps, s)
  }
}
