/** The wire format of internal/protocol: frames, the incremental decoder and the
    per-command payloads. Functions give the meaning of the code; FrameBuffers holds the
    methods that fill and walk real buffers. */
module Framing {
  import opened Bytes

  const CMD_CREATE_REQUEST: byte := 1
  const CMD_CREATE_RESPONSE: byte := 2
  const CMD_DESTROY: byte := 3
  const CMD_DATA: byte := 4
  const CMD_REJECT: byte := 5
  const CMD_RECONNECT: byte := 6
  const CMD_KEEPALIVE: byte := 7
  const CMD_RENEW_REQUEST: byte := 8
  const CMD_RENEW_RESPONSE: byte := 9

  const STATUS_RENEWED: byte := 0
  const STATUS_CURRENT: byte := 1
  const STATUS_ERROR: byte := 2

  /** The longest payload whose frame length still fits the 16-bit length field. */
  const MAX_PAYLOAD := 65532

  datatype Packet = Packet(cmd: byte, payload: bytes)

  datatype Decoded = Decoded(packets: seq<Packet>, rest: bytes)

  predicate Fits(p: Packet) {
    |p.payload| <= MAX_PAYLOAD
  }

  predicate AllFit(ps: seq<Packet>) {
    forall i :: 0 <= i < |ps| ==> Fits(ps[i])
  }

  /** The frame EncodePacket builds; the length is truncated to 16 bits, as in the source. */
  function Frame(p: Packet): bytes {
    Put16((3 + |p.payload|) % 0x1_0000) + [p.cmd] + p.payload
  }

  function Frames(ps: seq<Packet>): bytes {
    if ps == [] then [] else Frame(ps[0]) + Frames(ps[1..])
  }

  /** The decoder can take no packet off the front of buf. */
  predicate Undecodable(buf: bytes) {
    |buf| < 2 || Get16(buf) < 3 || |buf| < Get16(buf)
  }

  /** The front of buf declares a length no frame can have. */
  predicate Stalled(buf: bytes) {
    |buf| >= 2 && Get16(buf) < 3
  }

  function Decode(buf: bytes): Decoded {
    if Undecodable(buf) then Decoded([], buf) else
      var n := Get16(buf);
      var d := Decode(buf[n..]);
      Decoded([Packet(buf[2], buf[3..n])] + d.packets, d.rest)
  }

  // ---- Concatenation of frames ----

  lemma {:induction false} FramesAppend(a: seq<Packet>, b: seq<Packet>)
    ensures Frames(a + b) == Frames(a) + Frames(b)
  {
    if a == [] {
      assert a + b == b;
    } else {
      assert (a + b)[1..] == a[1..] + b;
      FramesAppend(a[1..], b);
    }
  }

  lemma FramesSnoc(ps: seq<Packet>, p: Packet)
    ensures Frames(ps + [p]) == Frames(ps) + Frame(p)
  {
    FramesAppend(ps, [p]);
    assert Frames([p]) == Frame(p) + Frames([]);
  }

  // ---- Canonicity and round trip ----

  /** Taking one packet off a decodable buffer and framing it again gives the bytes taken. */
  lemma FrontFrame(buf: bytes)
    requires !Undecodable(buf)
    ensures Frame(Packet(buf[2], buf[3..Get16(buf)])) == buf[..Get16(buf)]
  {
    var n := Get16(buf);
    Put16OfGet16(buf);
    CutFront(buf, n);
    FrameOf(n, buf[2], buf[3..n]);
  }

  lemma FrameOf(n: uint16, cmd: byte, payload: bytes)
    requires n == 3 + |payload|
    ensures Frame(Packet(cmd, payload)) == Put16(n) + [cmd] + payload
  {
  }

  lemma CutFront(buf: bytes, n: nat)
    requires 3 <= n <= |buf|
    ensures buf[..n] == buf[..2] + [buf[2]] + buf[3..n]
  {
  }

  lemma DecodeUnfold(buf: bytes)
    requires !Undecodable(buf)
    ensures var n := Get16(buf); var d := Decode(buf[n..]);
      Decode(buf) == Decoded([Packet(buf[2], buf[3..n])] + d.packets, d.rest)
  {
  }

  lemma FramesCons(p: Packet, ps: seq<Packet>, rest: bytes)
    ensures Frames([p] + ps) + rest == Frame(p) + (Frames(ps) + rest)
  {
    assert ([p] + ps)[1..] == ps;
  }

  /** For every buffer: re-encoding what was decoded and appending the remainder gives the
      buffer back; the remainder holds no packet; every decoded packet fits a frame. */
  lemma {:induction false} Canonical(buf: bytes)
    ensures var d := Decode(buf);
      && Frames(d.packets) + d.rest == buf
      && Undecodable(d.rest)
      && AllFit(d.packets)
    decreases |buf|
  {
    if Undecodable(buf) {
      assert Frames([]) + buf == buf;
    } else {
      var n := Get16(buf);
      var tail := buf[n..];
      Canonical(tail);
      DecodeUnfold(buf);
      CanonicalStep(buf, tail, Decode(tail));
    }
  }

  lemma CanonicalStep(buf: bytes, tail: bytes, d: Decoded)
    requires !Undecodable(buf) && tail == buf[Get16(buf)..]
    requires Frames(d.packets) + d.rest == tail && AllFit(d.packets)
    ensures var ps := [Packet(buf[2], buf[3..Get16(buf)])] + d.packets;
      Frames(ps) + d.rest == buf && AllFit(ps)
  {
    FrontFrame(buf);
    FramesCons(Packet(buf[2], buf[3..Get16(buf)]), d.packets, d.rest);
    assert buf == buf[..Get16(buf)] + tail;
  }

  /** Decoding peels one fitting frame off the front, whatever follows it. */
  lemma DecodeFrame(p: Packet, tail: bytes)
    requires Fits(p)
    ensures Decode(Frame(p) + tail)
         == Decoded([p] + Decode(tail).packets, Decode(tail).rest)
  {
    var buf := Frame(p) + tail;
    var n := 3 + |p.payload|;
    assert buf[..2] == Put16(n);
    assert Get16(buf) == n;
    assert buf[3..n] == p.payload;
    assert buf[n..] == tail;
    DecodeUnfold(buf);
  }

  lemma {:induction false} DecodeFrames(ps: seq<Packet>, tail: bytes)
    requires AllFit(ps)
    ensures Decode(Frames(ps) + tail)
         == Decoded(ps + Decode(tail).packets, Decode(tail).rest)
  {
    if ps == [] {
      assert Frames(ps) + tail == tail;
      assert ps + Decode(tail).packets == Decode(tail).packets;
    } else {
      var first, more := ps[0], ps[1..];
      assert ps == [first] + more;
      DecodeFrames(more, tail);
      DecodeFrame(first, Frames(more) + tail);
      FramesCons(first, more, tail);
      Associate(first, more, Decode(tail).packets);
    }
  }

  lemma Associate(p: Packet, a: seq<Packet>, b: seq<Packet>)
    ensures ([p] + a) + b == [p] + (a + b)
  {
  }

  /** The round trip, exactly: frames followed by an undecodable tail decode to the packets
      and the tail if and only if no payload exceeds 65532 bytes. */
  lemma RoundTrip(ps: seq<Packet>, tail: bytes)
    requires Undecodable(tail)
    ensures Decode(Frames(ps) + tail) == Decoded(ps, tail) <==> AllFit(ps)
  {
    if AllFit(ps) {
      DecodeFrames(ps, tail);
      assert ps + [] == ps;
    } else {
      Canonical(Frames(ps) + tail);
    }
  }

  /** A payload one byte too long: its frame declares length 0 and stalls the decoder. */
  lemma OversizedPayloadStalls(cmd: byte, payload: bytes)
    requires |payload| == MAX_PAYLOAD + 1
    ensures Stalled(Frame(Packet(cmd, payload)))
    ensures Decode(Frame(Packet(cmd, payload))) == Decoded([], Frame(Packet(cmd, payload)))
  {
    assert Frame(Packet(cmd, payload))[..2] == Put16(0);
  }

  // ---- Incremental decoding ----

  /** Decoding in two reads, keeping the remainder in between, decodes the whole stream. */
  lemma {:induction false} DecodeSplit(a: bytes, b: bytes)
    ensures var d := Decode(a); var e := Decode(d.rest + b);
      Decode(a + b) == Decoded(d.packets + e.packets, e.rest)
    decreases |a|
  {
    if Undecodable(a) {
      assert [] + Decode(a + b).packets == Decode(a + b).packets;
    } else {
      var n := Get16(a);
      var p := Packet(a[2], a[3..n]);
      var tail := a[n..];
      DecodeSplit(tail, b);
      DecodeUnfold(a);
      SameFront(a, b);
      DecodeUnfold(a + b);
      var d, e := Decode(tail), Decode(Decode(tail).rest + b);
      Associate(p, d.packets, e.packets);
    }
  }

  /** More bytes do not change the frame at the front of a decodable buffer. */
  lemma SameFront(a: bytes, b: bytes)
    requires !Undecodable(a)
    ensures var n := Get16(a);
      && !Undecodable(a + b) && Get16(a + b) == n && (a + b)[2] == a[2]
      && (a + b)[3..n] == a[3..n] && (a + b)[n..] == a[n..] + b
  {
  }

  /** The packets of a stream, once decoded, stay the same as more bytes arrive. */
  lemma DecodeMonotone(a: bytes, b: bytes)
    ensures Decode(a).packets <= Decode(a + b).packets
  {
    DecodeSplit(a, b);
  }

  /** Any prefix of a stream of fitting frames decodes to a prefix of the packets. */
  lemma DecodePrefix(w: bytes, ps: seq<Packet>)
    requires AllFit(ps) && w <= Frames(ps)
    ensures Decode(w).packets <= ps
  {
    var b := Frames(ps)[|w|..];
    assert Frames(ps) == w + b;
    DecodeMonotone(w, b);
    assert Undecodable([]);
    RoundTrip(ps, []);
    assert Frames(ps) + [] == Frames(ps);
  }

  /** Nothing is kept between reads beyond 65534 bytes unless the decoder has stalled. */
  lemma {:induction false} BacklogBound(buf: bytes)
    ensures var rest := Decode(buf).rest; Stalled(rest) || |rest| <= 65534
  {
    Canonical(buf);
  }

  /** The bound is attained: 65534 bytes of a 65535-byte frame are all kept. */
  lemma BacklogBoundAttained(buf: bytes)
    requires |buf| == 65534 && Get16(buf) == 65535
    ensures Decode(buf) == Decoded([], buf)
  {
  }

  /** Once stalled, no later input ever yields a packet: the decoder returns what it had
      before, and every further byte is kept. */
  lemma StalledForever(buf: bytes, more: bytes)
    requires Stalled(Decode(buf).rest)
    ensures Decode(buf + more) == Decoded(Decode(buf).packets, Decode(buf).rest + more)
    ensures Stalled(Decode(buf + more).rest)
  {
    DecodeSplit(buf, more);
  }

  /** Exactly: some further input yields another packet unless the decoder has stalled. */
  lemma ProgressIffNotStalled(buf: bytes)
    ensures (exists more :: |Decode(buf + more).packets| > |Decode(buf).packets|)
       <==> !Stalled(Decode(buf).rest)
  {
    if Stalled(Decode(buf).rest) {
      forall more ensures Decode(buf + more).packets == Decode(buf).packets {
        StalledForever(buf, more);
      }
    } else {
      var rest := Decode(buf).rest;
      Canonical(buf);
      var more := Completion(rest);
      DecodeSplit(buf, more);
      DecodeUnfold(rest + more);
    }
  }

  /** What completes the frame at the front of an unstalled remainder. */
  lemma Completion(rest: bytes) returns (more: bytes)
    requires Undecodable(rest) && !Stalled(rest)
    ensures !Undecodable(rest + more)
  {
    var front: bytes := if |rest| == 0 then [0, 3] else if |rest| == 1 then [255] else [];
    var n := Get16(rest + front);
    var zeros: bytes := seq(if n > |rest + front| then n - |rest + front| else 0, _ => 0);
    more := front + zeros;
    assert rest + more == (rest + front) + zeros;
    assert (rest + more)[..2] == (rest + front)[..2];
  }

  // ---- Per-command payloads ----

  function CreateResponse(id: uint16, status: byte, reason: bytes): Packet {
    Packet(CMD_CREATE_RESPONSE, Put16(id) + [status] + reason)
  }

  function Destroy(id: uint16): Packet {
    Packet(CMD_DESTROY, Put16(id))
  }

  function Data(id: uint16, data: bytes): Packet {
    Packet(CMD_DATA, Put16(id) + data)
  }

  function Keepalive(): Packet {
    Packet(CMD_KEEPALIVE, [])
  }

  function RenewRequest(identifier: bytes): Packet {
    Packet(CMD_RENEW_REQUEST, identifier)
  }

  function RenewResponse(status: byte, body: bytes): Packet {
    Packet(CMD_RENEW_RESPONSE, [status] + body)
  }

  function ParseCreateResponse(payload: bytes): Option<(uint16, byte, bytes)> {
    if |payload| < 3 then None else Some((Get16(payload), payload[2], payload[3..]))
  }

  function ParseDestroy(payload: bytes): Option<uint16> {
    if |payload| < 2 then None else Some(Get16(payload))
  }

  function ParseData(payload: bytes): Option<(uint16, bytes)> {
    if |payload| < 2 then None else Some((Get16(payload), payload[2..]))
  }

  function ParseRenewResponse(payload: bytes): Option<(byte, bytes)> {
    if |payload| < 1 then None else Some((payload[0], payload[1..]))
  }

  /** Each encode helper, sent as a frame and parsed at the other end, gives its arguments
      back: exactly when the payload it builds fits a frame. */
  lemma CreateResponseInverts(id: uint16, status: byte, reason: bytes)
    ensures
      var d := Decode(Frame(CreateResponse(id, status, reason)));
      (&& |d.packets| == 1 && d.rest == []
       && d.packets[0].cmd == CMD_CREATE_RESPONSE
       && ParseCreateResponse(d.packets[0].payload) == Some((id, status, reason)))
      <==> |reason| <= 65529
  {
    var p := CreateResponse(id, status, reason);
    OneFrame(p);
    assert p.payload[..2] == Put16(id) && p.payload[3..] == reason;
    var d := Decode(Frame(p));
    if |d.packets| == 1 {
      var q := d.packets[0].payload;
      if |q| >= 3 && q[3..] == reason {
        assert |q| == 3 + |reason|;
      }
      Canonical(Frame(p));
    }
  }

  lemma DataInverts(id: uint16, data: bytes)
    ensures
      var d := Decode(Frame(Data(id, data)));
      (&& |d.packets| == 1 && d.rest == []
       && d.packets[0].cmd == CMD_DATA
       && ParseData(d.packets[0].payload) == Some((id, data)))
      <==> |data| <= 65530
  {
    var p := Data(id, data);
    OneFrame(p);
    assert p.payload[..2] == Put16(id) && p.payload[2..] == data;
    var d := Decode(Frame(p));
    if |d.packets| == 1 {
      var q := d.packets[0].payload;
      if |q| >= 2 && q[2..] == data {
        assert |q| == 2 + |data|;
      }
      Canonical(Frame(p));
    }
  }

  lemma DestroyInverts(id: uint16)
    ensures Decode(Frame(Destroy(id))) == Decoded([Destroy(id)], [])
    ensures ParseDestroy(Destroy(id).payload) == Some(id)
  {
    OneFrame(Destroy(id));
  }

  lemma RenewResponseInverts(status: byte, body: bytes)
    ensures
      var d := Decode(Frame(RenewResponse(status, body)));
      (&& |d.packets| == 1 && d.rest == []
       && d.packets[0].cmd == CMD_RENEW_RESPONSE
       && ParseRenewResponse(d.packets[0].payload) == Some((status, body)))
      <==> |body| <= 65531
  {
    var p := RenewResponse(status, body);
    OneFrame(p);
    assert p.payload[1..] == body;
    var d := Decode(Frame(p));
    if |d.packets| == 1 {
      var q := d.packets[0].payload;
      if |q| >= 1 && q[1..] == body {
        assert |q| == 1 + |body|;
      }
      Canonical(Frame(p));
    }
  }

  lemma OneFrame(p: Packet)
    ensures Decode(Frame(p)) == Decoded([p], []) <==> Fits(p)
  {
    assert Undecodable([]);
    RoundTrip([p], []);
    assert Frames([p]) == Frame(p) + Frames([]);
    assert Frames([p]) + [] == Frame(p);
  }

  /** The byte vectors the Ruby implementation produces. */
  lemma RubyVectors()
    ensures Frame(Keepalive()) == [0x00, 0x03, 0x07]
    ensures Frame(Packet(CMD_RECONNECT, [])) == [0x00, 0x03, 0x06]
    ensures Frame(Destroy(42)) == [0x00, 0x05, 0x03, 0x00, 0x2A]
    ensures Frame(CreateResponse(1, 0, [])) == [0x00, 0x06, 0x02, 0x00, 0x01, 0x00]
  {
  }

  /** The vectors with a text: data of 5 bytes, a reason of 4, a refusal of 31, a target of 12. */
  lemma RubyTextVectors(hello: bytes, reason: bytes, denied: bytes, target: bytes)
    requires |hello| == 5 && |reason| == 4 && |denied| == 31 && |target| == 12
    ensures Frame(Data(1, hello)) == [0x00, 0x0A, 0x04, 0x00, 0x01] + hello
    ensures Frame(Packet(CMD_REJECT, reason)) == [0x00, 0x07, 0x05] + reason
    ensures Frame(CreateResponse(2, 1, denied)) == [0x00, 0x25, 0x02, 0x00, 0x02, 0x01] + denied
    ensures Frame(Packet(CMD_CREATE_REQUEST, [0x00, 0x03] + target))
         == [0x00, 0x11, 0x01, 0x00, 0x03] + target
  {
  }

  /** The renewal commands on the wire. */
  lemma RenewVectors()
    ensures Frame(RenewRequest([103, 111, 47])) == [0x00, 0x06, 0x08, 103, 111, 47]
    ensures Frame(RenewResponse(STATUS_CURRENT, [])) == [0x00, 0x04, 0x09, 0x01]
  {
  }

  /** What the parsers accept, exactly: an id, a status or a command's bytes in front, and
      anything behind. */
  lemma ParsersExact(payload: bytes, id: uint16, status: byte, more: bytes)
    ensures ParseCreateResponse(payload) == Some((id, status, more)) <==> payload == Put16(id) + [status] + more
    ensures ParseDestroy(payload) == Some(id) <==> exists rest :: payload == Put16(id) + rest
    ensures ParseData(payload) == Some((id, more)) <==> payload == Put16(id) + more
    ensures ParseRenewResponse(payload) == Some((status, more)) <==> payload == [status] + more
  {
    if |payload| >= 2 {
      Put16OfGet16(payload);
      assert payload == payload[..2] + payload[2..];
      assert |payload| >= 3 ==> payload == payload[..2] + [payload[2]] + payload[3..];
    }
    if exists rest :: payload == Put16(id) + rest {
      assert payload[..2] == Put16(id);
    }
  }

  // ---- CREATE_REQUEST: host and port separated by '/' ----

  const SLASH: byte := 47

  datatype Request = Request(id: uint16, host: bytes, port: bytes)

  /** Position of the first slash in s, or |s|. */
  function FirstSlash(s: bytes): nat {
    if s == [] || s[0] == SLASH then 0 else 1 + FirstSlash(s[1..])
  }

  function ParseCreateRequest(payload: bytes): Option<Request> {
    if |payload| < 3 then None else
      var hostPort := payload[2..];
      var k := FirstSlash(hostPort);
      if k < |hostPort| then
        Some(Request(Get16(payload), hostPort[..k], hostPort[k + 1..]))
      else None
  }

  lemma {:induction false} FirstSlashMeaning(s: bytes)
    ensures FirstSlash(s) <= |s|
    ensures SLASH !in s[..FirstSlash(s)]
    ensures FirstSlash(s) < |s| ==> s[FirstSlash(s)] == SLASH
    decreases |s|
  {
    if s != [] && s[0] != SLASH {
      FirstSlashMeaning(s[1..]);
      var k := FirstSlash(s);
      assert s[..k] == [s[0]] + s[1..][..k - 1];
    }
  }

  /** The parser succeeds exactly on the payloads id ++ host ++ "/" ++ port with a slash-free
      host, and then returns that host and port: the port may itself hold slashes. */
  lemma ParseCreateRequestExact(payload: bytes, r: Request)
    ensures ParseCreateRequest(payload) == Some(r)
       <==> payload == Put16(r.id) + r.host + [SLASH] + r.port && SLASH !in r.host
  {
    if payload == Put16(r.id) + r.host + [SLASH] + r.port && SLASH !in r.host {
      var s := r.host + [SLASH] + r.port;
      assert payload == Put16(r.id) + s;
      assert payload[..2] == Put16(r.id) && payload[2..] == s;
      FirstSlashMeaning(s);
      assert s[|r.host|] == SLASH;
      assert FirstSlash(s) <= |r.host|;
      assert FirstSlash(s) == |r.host|;
      assert s[..|r.host|] == r.host && s[|r.host| + 1..] == r.port;
    }
    if ParseCreateRequest(payload) == Some(r) {
      FirstSlashMeaning(payload[2..]);
      Put16OfGet16(payload);
    }
  }
}
