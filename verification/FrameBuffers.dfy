/** The methods of internal/protocol that fill and walk buffers, and the growing read buffer
    of the tunnel's read loop, each proved against the functions of Framing. */
module FrameBuffers {
  import opened Bytes
  import opened Framing

  /** copy(buf[at..], src): src lands at offset at, everything else stays. */
  method CopyInto(buf: array<byte>, at: nat, src: bytes)
    requires at + |src| <= buf.Length
    modifies buf
    ensures buf[..] == old(buf[..at]) + src + old(buf[at + |src|..])
  {
    var i := 0;
    while i < |src|
      invariant 0 <= i <= |src|
      invariant buf[..at] == old(buf[..at])
      invariant buf[at..at + i] == src[..i]
      invariant buf[at + |src|..] == old(buf[at + |src|..])
    {
      buf[at + i] := src[i];
      i := i + 1;
    }
    assert buf[..] == buf[..at] + buf[at..at + |src|] + buf[at + |src|..];
  }

  /** Builds a frame in a fresh buffer. */
  method EncodePacket(cmd: byte, payload: bytes) returns (buf: array<byte>)
    ensures fresh(buf) && buf[..] == Frame(Packet(cmd, payload))
  {
    var totalLen := 2 + 1 + |payload|;
    buf := new byte[totalLen](_ => 0);
    CopyInto(buf, 0, Put16(totalLen % 0x1_0000));
    buf[2] := cmd;
    assert buf[..3] == Put16(totalLen % 0x1_0000) + [cmd];
    CopyInto(buf, 3, payload);
    assert buf[..] == buf[..3] + payload;
  }

  method EncodeCreateResponse(id: uint16, status: byte, reason: bytes) returns (buf: array<byte>)
    ensures fresh(buf) && buf[..] == Frame(CreateResponse(id, status, reason))
  {
    var payload := new byte[3 + |reason|](_ => 0);
    CopyInto(payload, 0, Put16(id));
    payload[2] := status;
    assert payload[..3] == Put16(id) + [status];
    CopyInto(payload, 3, reason);
    assert payload[..] == payload[..3] + reason;
    buf := EncodePacket(CMD_CREATE_RESPONSE, payload[..]);
  }

  method EncodeData(id: uint16, data: bytes) returns (buf: array<byte>)
    ensures fresh(buf) && buf[..] == Frame(Data(id, data))
  {
    var payload := new byte[2 + |data|](_ => 0);
    CopyInto(payload, 0, Put16(id));
    assert payload[..2] == Put16(id);
    CopyInto(payload, 2, data);
    assert payload[..] == payload[..2] + data;
    buf := EncodePacket(CMD_DATA, payload[..]);
  }

  method EncodeDestroy(id: uint16) returns (buf: array<byte>)
    ensures fresh(buf) && buf[..] == Frame(Destroy(id))
  {
    var payload := new byte[2](_ => 0);
    CopyInto(payload, 0, Put16(id));
    assert payload[..] == Put16(id);
    buf := EncodePacket(CMD_DESTROY, payload[..]);
  }

  method EncodeRenewResponse(status: byte, body: bytes) returns (buf: array<byte>)
    ensures fresh(buf) && buf[..] == Frame(RenewResponse(status, body))
  {
    var payload := new byte[1 + |body|](_ => 0);
    payload[0] := status;
    assert payload[..1] == [status];
    CopyInto(payload, 1, body);
    assert payload[..] == payload[..1] + body;
    buf := EncodePacket(CMD_RENEW_RESPONSE, payload[..]);
  }

  /** Scans for the first slash by index. */
  method ParseCreateRequestScan(payload: bytes) returns (r: Option<Request>)
    ensures r == ParseCreateRequest(payload)
  {
    if |payload| < 3 {
      return None;
    }
    var hostPort := payload[2..];
    var i := 0;
    while i < |hostPort|
      invariant 0 <= i <= |hostPort|
      invariant FirstSlash(hostPort) == i + FirstSlash(hostPort[i..])
    {
      if hostPort[i] == SLASH {
        return Some(Request(Get16(payload), hostPort[..i], hostPort[i + 1..]));
      }
      i := i + 1;
    }
    return None;
  }

  /** A decoded packet whose payload is a buffer of its own. */
  datatype RawPacket = RawPacket(cmd: byte, payload: array<byte>)

  ghost predicate Holds(raw: seq<RawPacket>, ps: seq<Packet>)
    reads set r | r in raw :: r.payload
  {
    |raw| == |ps| && forall i :: 0 <= i < |raw| ==>
      raw[i].cmd == ps[i].cmd && raw[i].payload[..] == ps[i].payload
  }

  /** The packet at the front of buf[k..n], its payload copied out of the buffer. */
  method CopyFront(buf: array<byte>, k: nat, n: nat, ghost rest: bytes) returns (p: RawPacket)
    requires k <= n <= buf.Length && rest == buf[k..n] && !Undecodable(rest)
    ensures fresh(p.payload)
    ensures p.cmd == rest[2] && p.payload[..] == rest[3..Get16(rest)]
  {
    var totalLen := Get16(buf[k..n]);
    var payload := new byte[totalLen - 3](_ => 0);
    CopyInto(payload, 0, buf[k + 3..k + totalLen]);
    p := RawPacket(buf[k + 2], payload);
    assert rest[3..totalLen] == buf[k + 3..k + totalLen];
  }

  /** One turn of the decoder's loop moves one packet from the undecoded rest to the result. */
  lemma DecodeAdvance(whole: bytes, ps: seq<Packet>, rest: bytes, rest': bytes)
    requires !Undecodable(rest) && rest' == rest[Get16(rest)..]
    requires Decode(whole) == Decoded(ps + Decode(rest).packets, Decode(rest).rest)
    ensures var p := Packet(rest[2], rest[3..Get16(rest)]);
      Decode(whole) == Decoded((ps + [p]) + Decode(rest').packets, Decode(rest').rest)
  {
    DecodeUnfold(rest);
    var p := Packet(rest[2], rest[3..Get16(rest)]);
    assert ps + ([p] + Decode(rest').packets) == (ps + [p]) + Decode(rest').packets;
  }

  /** Decodes the first n bytes of buf: the packets own fresh copies of their payloads, and
      the remainder is buf[k..n]. */
  method DecodePackets(buf: array<byte>, n: nat) returns (raw: seq<RawPacket>, k: nat)
    requires n <= buf.Length
    ensures forall r :: r in raw ==> fresh(r.payload)
    ensures k <= n && buf[k..n] == Decode(buf[..n]).rest
    ensures Holds(raw, Decode(buf[..n]).packets)
  {
    raw, k := [], 0;
    ghost var whole, rest, ps: seq<Packet> := buf[..n], buf[..n], [];
    assert [] + Decode(whole).packets == Decode(whole).packets;
    while n - k >= 2 && !(Get16(buf[k..n]) < 3 || n - k < Get16(buf[k..n]))
      invariant k <= n && rest == buf[k..n]
      invariant forall r :: r in raw ==> fresh(r.payload)
      invariant Holds(raw, ps)
      invariant Decode(whole) == Decoded(ps + Decode(rest).packets, Decode(rest).rest)
      decreases n - k
    {
      var p := CopyFront(buf, k, n, rest);
      ghost var rest' := rest[Get16(rest)..];
      DecodeAdvance(whole, ps, rest, rest');
      raw, ps := raw + [p], ps + [Packet(rest[2], rest[3..Get16(rest)])];
      k := k + Get16(buf[k..n]);
      rest := rest';
    }
    assert ps + [] == ps;
  }

  /** The read loop's buf: a backing array and a length. */
  class ReadBuffer {
    var data: array<byte>
    var len: nat

    ghost predicate Valid()
      reads this
    {
      len <= data.Length
    }

    ghost function Contents(): (b: bytes)
      reads this, data
      requires Valid()
    {
      data[..len]
    }

    constructor (capacity: nat)
      ensures Valid() && fresh(data) && data.Length == capacity && Contents() == []
    {
      data := new byte[capacity](_ => 0);
      len := 0;
    }

    /** append(buf, chunk...): in place when the capacity suffices, else in a larger array. */
    method Append(chunk: bytes)
      requires Valid()
      modifies this, data
      ensures Valid() && (data == old(data) || fresh(data))
      ensures Contents() == old(Contents()) + chunk
    {
      if len + |chunk| > data.Length {
        var grown := new byte[2 * (len + |chunk|)](_ => 0);
        CopyInto(grown, 0, data[..len]);
        assert grown[..len] == old(Contents());
        data := grown;
      }
      CopyInto(data, len, chunk);
      len := len + |chunk|;
    }

    /** append(buf[:0], buf[k:]...): slides the remainder over the front of the same array.
        The source and destination ranges may overlap. */
    method Compact(k: nat)
      requires Valid() && k <= len
      modifies this`len, data
      ensures Valid() && data == old(data)
      ensures Contents() == old(Contents())[k..]
    {
      var n := len - k;
      var i := 0;
      while i < n
        invariant 0 <= i <= n
        invariant data[..i] == old(data[k..k + i])
        invariant data[i..] == old(data[i..])
      {
        assert data[k + i] == data[i..][k];
        data[i] := data[k + i];
        i := i + 1;
      }
      len := n;
      assert old(Contents())[k..] == old(data[k..k + n]);
    }
  }
}
