/** The strict CA bundle reader of internal/config: NewCertPool and the counting argument
    behind it. PEM decoding and X.509 parsing are parameters. */
module CertPool {
  import opened Bytes

  datatype Block = Block(kind: string, der: bytes)

  /** The fields of a parsed certificate the agent looks at. */
  datatype Cert = Cert(raw: bytes, subject: bytes, serial: int)

  datatype Pem = Pem(
    decode: bytes -> Option<(Block, bytes)>,
    parse: bytes -> Option<Cert>)

  const CERTIFICATE := "CERTIFICATE"

  /** "-----BEGIN " */
  const BEGIN: bytes := [45, 45, 45, 45, 45, 66, 69, 71, 73, 78, 32]

  const NEWLINE: byte := 10

  /** What is needed of pem.Decode: the rest is a proper suffix of the input, and what was
      consumed ends at a newline or at the end of the input. */
  ghost predicate Contract(pem: Pem) {
    forall s: bytes :: ContractAt(pem, s)
  }

  predicate ContractAt(pem: Pem, s: bytes) {
    pem.decode(s).Some? ==> ConsumesLines(s, pem.decode(s).value.1)
  }

  predicate ConsumesLines(s: bytes, rest: bytes) {
    && |rest| < |s| && rest == s[|s| - |rest|..]
    && (rest == [] || s[|s| - |rest| - 1] == NEWLINE)
  }

  /** The cutset of the source's TrimLeft: space, tab, carriage return, newline. */
  predicate IsBlank(b: byte) {
    b == 32 || b == 9 || b == 13 || b == 10
  }

  predicate AllBlank(s: bytes) {
    forall i :: 0 <= i < |s| ==> s[i] in {9, 10, 13, 32}
  }

  function TrimBlank(s: bytes): (r: bytes)
    ensures |r| <= |s|
  {
    if s != [] && IsBlank(s[0]) then TrimBlank(s[1..]) else s
  }

  /** bytes.Count(s, BEGIN): non-overlapping occurrences, left to right. */
  function Count(s: bytes): nat {
    if s == [] then 0
    else if BEGIN <= s then 1 + Count(s[|BEGIN|..])
    else Count(s[1..])
  }

  datatype Refusal =
    | NotPem(added: nat)
    | Unreadable(added: nat)
    | NotCertificate(kind: string)
    | BadCertificate(number: nat)
    | NoCertificate
    | CountMismatch(begins: nat, added: nat)

  datatype Loaded = Loaded(certs: seq<Cert>) | Refused(error: Refusal)

  datatype Step = AtEnd | Stop(error: Refusal) | Took(cert: Cert, tail: bytes)

  /** One turn of the loop, when added certificates came before. */
  function NextBlock(pem: Pem, rest: bytes, added: nat): (step: Step)
    requires Contract(pem)
    ensures step.Took? ==> |step.tail| < |rest|
  {
    var s := TrimBlank(rest);
    if s == [] then AtEnd
    else if !(BEGIN <= s) then Stop(NotPem(added))
    else match pem.decode(s)
      case None => Stop(Unreadable(added))
      case Some((block, tail)) =>
        assert ContractAt(pem, s);
        if block.kind != CERTIFICATE then Stop(NotCertificate(block.kind))
        else match pem.parse(block.der)
          case None => Stop(BadCertificate(added + 1))
          case Some(cert) => Took(cert, tail)
  }

  /** The blocks of the rest, when added certificates came before. */
  function ReadBlocks(pem: Pem, rest: bytes, added: nat): Loaded
    requires Contract(pem)
    decreases |rest|
  {
    match NextBlock(pem, rest, added)
    case AtEnd => Loaded([])
    case Stop(e) => Refused(e)
    case Took(cert, tail) => Before([cert], ReadBlocks(pem, tail, added + 1))
  }

  function Pool(pem: Pem, caCert: bytes): Loaded
    requires Contract(pem)
  {
    match ReadBlocks(pem, caCert, 0)
    case Refused(e) => Refused(e)
    case Loaded(certs) =>
      if |certs| == 0 then Refused(NoCertificate)
      else if |certs| != Count(caCert) then Refused(CountMismatch(Count(caCert), |certs|))
      else Loaded(certs)
  }

  function Before(pool: seq<Cert>, more: Loaded): Loaded {
    match more
    case Refused(e) => Refused(e)
    case Loaded(certs) => Loaded(pool + certs)
  }

  lemma BeforeNothing(more: Loaded)
    ensures Before([], more) == more
  {
    if more.Loaded? {
      assert [] + more.certs == more.certs;
    }
  }

  lemma BeforeSnoc(pool: seq<Cert>, cert: Cert, more: Loaded)
    ensures Before(pool, Before([cert], more)) == Before(pool + [cert], more)
  {
    if more.Loaded? {
      assert pool + ([cert] + more.certs) == pool + [cert] + more.certs;
    }
  }

  /** The loop over the blocks. */
  method ReadAll(pem: Pem, caCert: bytes) returns (r: Loaded)
    requires Contract(pem)
    ensures r == ReadBlocks(pem, caCert, 0)
  {
    var pool: seq<Cert> := [];
    var rest := caCert;
    var added := 0;
    BeforeNothing(ReadBlocks(pem, caCert, 0));
    while true
      invariant added == |pool|
      invariant ReadBlocks(pem, caCert, 0) == Before(pool, ReadBlocks(pem, rest, added))
      decreases |rest|
    {
      match NextBlock(pem, rest, added) {
        case AtEnd =>
          assert pool + [] == pool;
          return Loaded(pool);
        case Stop(e) =>
          return Refused(e);
        case Took(cert, tail) =>
          BeforeSnoc(pool, cert, ReadBlocks(pem, tail, added + 1));
          pool := pool + [cert];
          added := added + 1;
          rest := tail;
      }
    }
  }

  method NewCertPool(pem: Pem, caCert: bytes) returns (r: Loaded)
    requires Contract(pem)
    ensures r == Pool(pem, caCert)
  {
    var begins := Count(caCert);
    r := ReadAll(pem, caCert);
    if r.Loaded? {
      if |r.certs| == 0 {
        r := Refused(NoCertificate);
      } else if |r.certs| != begins {
        r := Refused(CountMismatch(begins, |r.certs|));
      }
    }
  }

  // ---- What an accepted bundle looks like ----

  /** A stretch of blanks, then the chunk one certificate was read from. */
  datatype Part = Part(gap: bytes, chunk: bytes, cert: Cert)

  /** s is made of the parts, in order, and blanks at the end; every chunk opens with a BEGIN
      marker, and decoding at a chunk consumes exactly the chunk. */
  ghost predicate Made(pem: Pem, s: bytes, parts: seq<Part>) {
    if parts == [] then AllBlank(s) else
      var p := parts[0];
      && AllBlank(p.gap) && BEGIN <= p.chunk && |p.gap| + |p.chunk| <= |s|
      && var tail := s[|p.gap| + |p.chunk|..];
      && s == p.gap + (p.chunk + tail) && ReadsChunk(pem, p, tail)
      && Made(pem, tail, parts[1..])
  }

  predicate ReadsChunk(pem: Pem, p: Part, tail: bytes) {
    match pem.decode(p.chunk + tail)
    case None => false
    case Some((block, rest)) =>
      rest == tail && block.kind == CERTIFICATE && pem.parse(block.der) == Some(p.cert)
  }

  ghost predicate OneMarkerEach(parts: seq<Part>) {
    forall i :: 0 <= i < |parts| ==> Count(parts[i].chunk) == 1
  }

  function Certs(parts: seq<Part>): seq<Cert> {
    if parts == [] then [] else [parts[0].cert] + Certs(parts[1..])
  }

  function Markers(parts: seq<Part>): nat {
    if parts == [] then 0 else Count(parts[0].chunk) + Markers(parts[1..])
  }

  /** The reader accepts a bundle and returns a pool exactly when the bundle is blanks and
      certificate chunks, every chunk holding a single BEGIN marker, and the pool is the
      chunks' certificates in order: nothing was skipped. */
  lemma AcceptedExactly(pem: Pem, caCert: bytes, certs: seq<Cert>)
    requires Contract(pem)
    ensures Pool(pem, caCert) == Loaded(certs) <==>
      certs != [] && exists parts ::
        Made(pem, caCert, parts) && OneMarkerEach(parts) && Certs(parts) == certs
  {
    if Pool(pem, caCert) == Loaded(certs) {
      var parts := PartsOf(pem, caCert, 0, certs);
      MarkersOfMade(pem, caCert, parts);
      CertsLength(parts);
      Pigeonhole(parts);
    }
    if certs != [] && exists parts ::
      Made(pem, caCert, parts) && OneMarkerEach(parts) && Certs(parts) == certs {
      var parts :| Made(pem, caCert, parts) && OneMarkerEach(parts) && Certs(parts) == certs;
      ReadsMade(pem, caCert, parts, 0);
      MarkersOfMade(pem, caCert, parts);
      CertsLength(parts);
      OneEach(parts);
    }
  }

  lemma {:induction false} CertsLength(parts: seq<Part>)
    ensures |Certs(parts)| == |parts|
  {
    if parts != [] {
      CertsLength(parts[1..]);
    }
  }

  /** Whatever ReadBlocks reads, the input is made of it. */
  lemma {:induction false} PartsOf(pem: Pem, rest: bytes, added: nat, certs: seq<Cert>)
    returns (parts: seq<Part>)
    requires Contract(pem) && ReadBlocks(pem, rest, added) == Loaded(certs)
    ensures Made(pem, rest, parts) && Certs(parts) == certs
    decreases |rest|
  {
    var step := NextBlock(pem, rest, added);
    TrimmedIsBlank(rest);
    if step.AtEnd? {
      assert rest[..|rest|] == rest;
      parts := [];
    } else {
      var more := PartsOf(pem, step.tail, added + 1, certs[1..]);
      var p := TakenPart(pem, rest, added);
      parts := [p] + more;
      MadeCons(pem, rest, p, step.tail, more);
    }
  }

  lemma TakenPart(pem: Pem, rest: bytes, added: nat) returns (p: Part)
    requires Contract(pem) && NextBlock(pem, rest, added).Took?
    ensures var step := NextBlock(pem, rest, added);
      && p.cert == step.cert && rest == p.gap + (p.chunk + step.tail)
      && AllBlank(p.gap) && BEGIN <= p.chunk && ReadsChunk(pem, p, step.tail)
  {
    var s := TrimBlank(rest);
    TrimmedIsBlank(rest);
    assert ContractAt(pem, s);
    var step := NextBlock(pem, rest, added);
    var gap, chunk := CutPart(rest, s, step.tail);
    p := Part(gap, chunk, step.cert);
  }

  /** The blanks before a block and the chunk it takes up. */
  lemma CutPart(rest: bytes, s: bytes, tail: bytes) returns (gap: bytes, chunk: bytes)
    requires |s| <= |rest| && s == rest[|rest| - |s|..] && ConsumesLines(s, tail) && BEGIN <= s
    ensures gap == rest[..|rest| - |s|] && rest == gap + (chunk + tail)
    ensures s == chunk + tail && BEGIN <= chunk
  {
    gap := rest[..|rest| - |s|];
    chunk := ChunkOf(s, tail);
    assert rest == gap + s;
  }

  lemma ChunkOf(s: bytes, tail: bytes) returns (chunk: bytes)
    requires ConsumesLines(s, tail) && BEGIN <= s
    ensures s == chunk + tail && BEGIN <= chunk
  {
    chunk := s[..|s| - |tail|];
    MarkerInChunk(s, chunk, tail);
  }

  lemma MadeCons(pem: Pem, s: bytes, p: Part, tail: bytes, more: seq<Part>)
    requires s == p.gap + (p.chunk + tail) && AllBlank(p.gap) && BEGIN <= p.chunk
    requires ReadsChunk(pem, p, tail) && Made(pem, tail, more)
    ensures Made(pem, s, [p] + more)
    ensures Certs([p] + more) == [p.cert] + Certs(more)
  {
    assert ([p] + more)[1..] == more;
    assert s[|p.gap| + |p.chunk|..] == tail;
  }

  /** A chunk that ends at a newline cannot end inside the marker it opens with. */
  lemma MarkerInChunk(s: bytes, chunk: bytes, tail: bytes)
    requires s == chunk + tail && BEGIN <= s && chunk != []
    requires tail == [] || chunk[|chunk| - 1] == NEWLINE
    ensures BEGIN <= chunk
  {
    var n := |chunk| - 1;
    assert chunk[n] == s[n];
    assert tail == [] ==> s == chunk;
    assert n < |BEGIN| ==> s[n] == BEGIN[n];
  }

  lemma {:induction false} TrimmedIsBlank(s: bytes)
    ensures TrimBlank(s) == s[|s| - |TrimBlank(s)|..]
    ensures AllBlank(s[..|s| - |TrimBlank(s)|])
    ensures TrimBlank(s) != [] ==> !IsBlank(TrimBlank(s)[0])
  {
    if s != [] && IsBlank(s[0]) {
      TrimmedIsBlank(s[1..]);
      var n := |s| - |TrimBlank(s)|;
      assert s[..n] == [s[0]] + s[1..][..n - 1];
    }
  }

  lemma {:induction false} TrimOfBlanks(gap: bytes, s: bytes)
    requires AllBlank(gap) && (s == [] || !IsBlank(s[0]))
    ensures TrimBlank(gap + s) == s
  {
    if gap == [] {
      assert gap + s == s;
    } else {
      assert (gap + s)[1..] == gap[1..] + s;
      TrimOfBlanks(gap[1..], s);
    }
  }

  /** An input made of parts is read as exactly their certificates. */
  lemma {:induction false} ReadsMade(pem: Pem, s: bytes, parts: seq<Part>, added: nat)
    requires Contract(pem) && Made(pem, s, parts)
    ensures ReadBlocks(pem, s, added) == Loaded(Certs(parts))
    decreases |parts|
  {
    if parts == [] {
      TrimOfBlanks(s, []);
      assert s + [] == s;
    } else {
      var p := parts[0];
      var tail := s[|p.gap| + |p.chunk|..];
      NextOfMade(pem, s, p, tail, added);
      ReadsMade(pem, tail, parts[1..], added + 1);
    }
  }

  lemma NextOfMade(pem: Pem, s: bytes, p: Part, tail: bytes, added: nat)
    requires Contract(pem) && AllBlank(p.gap) && BEGIN <= p.chunk
    requires s == p.gap + (p.chunk + tail) && ReadsChunk(pem, p, tail)
    ensures NextBlock(pem, s, added) == Took(p.cert, tail)
  {
    TrimOfBlanks(p.gap, p.chunk + tail);
    assert BEGIN <= p.chunk + tail;
  }

  // ---- What a refused bundle looks like ----

  /** s is made of the parts, in order, and the rest after them. */
  ghost predicate MadeBefore(pem: Pem, s: bytes, parts: seq<Part>, rest: bytes) {
    if parts == [] then s == rest else
      var p := parts[0];
      && AllBlank(p.gap) && BEGIN <= p.chunk && |p.gap| + |p.chunk| <= |s|
      && var tail := s[|p.gap| + |p.chunk|..];
      && s == p.gap + (p.chunk + tail) && ReadsChunk(pem, p, tail)
      && MadeBefore(pem, tail, parts[1..], rest)
  }

  /** What stands at t is not a certificate, and why: no BEGIN marker, no PEM block, a block of
      another kind, or one that does not parse. */
  predicate NoCertificateAt(pem: Pem, t: bytes, added: nat, e: Refusal) {
    && t != [] && t[0] !in {9, 10, 13, 32}
    && if !(BEGIN <= t) then e == NotPem(added)
       else match pem.decode(t)
         case None => e == Unreadable(added)
         case Some((block, _)) =>
           if block.kind != "CERTIFICATE" then e == NotCertificate(block.kind)
           else pem.parse(block.der) == None && e == BadCertificate(added + 1)
  }

  lemma MadeBeforeCons(pem: Pem, s: bytes, p: Part, tail: bytes, more: seq<Part>, rest: bytes)
    requires s == p.gap + (p.chunk + tail) && AllBlank(p.gap) && BEGIN <= p.chunk
    requires ReadsChunk(pem, p, tail) && MadeBefore(pem, tail, more, rest)
    ensures MadeBefore(pem, s, [p] + more, rest)
  {
    assert ([p] + more)[1..] == more;
    assert s[|p.gap| + |p.chunk|..] == tail;
  }

  lemma StopHow(pem: Pem, rest: bytes, added: nat, e: Refusal) returns (gap: bytes, t: bytes)
    requires Contract(pem) && NextBlock(pem, rest, added) == Stop(e)
    ensures rest == gap + t && AllBlank(gap) && NoCertificateAt(pem, t, added, e)
  {
    TrimmedIsBlank(rest);
    t := TrimBlank(rest);
    gap := rest[..|rest| - |t|];
  }

  /** A refusal by the loop: some certificates, and then something that is none. */
  lemma {:induction false} RefusedParts(pem: Pem, s: bytes, added: nat, e: Refusal)
    returns (parts: seq<Part>, rest: bytes)
    requires Contract(pem) && ReadBlocks(pem, s, added) == Refused(e)
    ensures MadeBefore(pem, s, parts, rest) && NextBlock(pem, rest, added + |parts|) == Stop(e)
    decreases |s|
  {
    var step := NextBlock(pem, s, added);
    if step.Stop? {
      parts, rest := [], s;
    } else {
      var p := TakenPart(pem, s, added);
      var more;
      more, rest := RefusedParts(pem, step.tail, added + 1, e);
      MadeBeforeCons(pem, s, p, step.tail, more, rest);
      parts := [p] + more;
    }
  }

  lemma HowStop(pem: Pem, gap: bytes, t: bytes, added: nat, e: Refusal)
    requires Contract(pem) && AllBlank(gap) && NoCertificateAt(pem, t, added, e)
    ensures ReadBlocks(pem, gap + t, added) == Refused(e)
  {
    TrimOfBlanks(gap, t);
    assert NextBlock(pem, gap + t, added) == Stop(e);
  }

  /** What is refused after some certificates is refused with them in front. */
  lemma {:induction false} PartsRefused(pem: Pem, s: bytes, added: nat, parts: seq<Part>, rest: bytes, e: Refusal)
    requires Contract(pem) && MadeBefore(pem, s, parts, rest)
    requires ReadBlocks(pem, rest, added + |parts|) == Refused(e)
    ensures ReadBlocks(pem, s, added) == Refused(e)
    decreases |parts|
  {
    if parts != [] {
      var p := parts[0];
      var tail := s[|p.gap| + |p.chunk|..];
      NextOfMade(pem, s, p, tail, added);
      PartsRefused(pem, tail, added + 1, parts[1..], rest, e);
    }
  }

  /** Why the bundle is refused: after the parts and a gap comes something, at t, that is not
      a certificate; or there is nothing but blanks; or it is all certificates, but not as
      many as there are markers. */
  ghost predicate Reason(pem: Pem, caCert: bytes, e: Refusal, parts: seq<Part>, gap: bytes, t: bytes) {
    match e
    case NoCertificate => AllBlank(caCert)
    case CountMismatch(begins, added) =>
      Made(pem, caCert, parts) && begins == Count(caCert) && added == |parts| && parts != [] && added != begins
    case _ =>
      MadeBefore(pem, caCert, parts, gap + t) && AllBlank(gap) && NoCertificateAt(pem, t, |parts|, e)
  }

  /** A refused bundle has such a reason, which the refusal names ... */
  lemma RefusedHow(pem: Pem, caCert: bytes, e: Refusal) returns (parts: seq<Part>, gap: bytes, t: bytes)
    requires Contract(pem) && Pool(pem, caCert) == Refused(e)
    ensures Reason(pem, caCert, e, parts, gap, t)
  {
    match ReadBlocks(pem, caCert, 0)
    case Refused(_) =>
      var rest;
      parts, rest := RefusedParts(pem, caCert, 0, e);
      gap, t := StopHow(pem, rest, |parts|, e);
    case Loaded(certs) =>
      parts := PartsOf(pem, caCert, 0, certs);
      gap, t := [], [];
      CertsLength(parts);
  }

  /** ... and a bundle with such a reason is refused with it. */
  lemma RefusedExactly(pem: Pem, caCert: bytes, e: Refusal, parts: seq<Part>, gap: bytes, t: bytes)
    requires Contract(pem) && Reason(pem, caCert, e, parts, gap, t)
    ensures Pool(pem, caCert) == Refused(e)
  {
    match e
    case NoCertificate =>
      assert Made(pem, caCert, []);
      ReadsMade(pem, caCert, [], 0);
    case CountMismatch(_, _) =>
      ReadsMade(pem, caCert, parts, 0);
      CertsLength(parts);
    case _ =>
      HowStop(pem, gap, t, |parts|, e);
      PartsRefused(pem, caCert, 0, parts, gap + t, e);
  }

  // ---- Counting ----

  /** The first part of an input made of parts, and what follows it. */
  lemma MadeHead(pem: Pem, s: bytes, parts: seq<Part>) returns (tail: bytes)
    requires Contract(pem) && Made(pem, s, parts) && parts != []
    ensures s == parts[0].gap + (parts[0].chunk + tail) && Made(pem, tail, parts[1..])
    ensures AllBlank(parts[0].gap) && BEGIN <= parts[0].chunk
    ensures ConsumesLines(parts[0].chunk + tail, tail)
  {
    var p := parts[0];
    tail := s[|p.gap| + |p.chunk|..];
    ChunkLines(pem, p, tail);
  }

  lemma ChunkLines(pem: Pem, p: Part, tail: bytes)
    requires Contract(pem) && ReadsChunk(pem, p, tail)
    ensures ConsumesLines(p.chunk + tail, tail)
  {
    assert ContractAt(pem, p.chunk + tail);
  }

  predicate EachMarked(parts: seq<Part>) {
    forall i :: 0 <= i < |parts| ==> Count(parts[i].chunk) >= 1
  }

  lemma EachMarkedCons(parts: seq<Part>)
    requires parts != [] && Count(parts[0].chunk) >= 1 && EachMarked(parts[1..])
    ensures EachMarked(parts)
  {
    assert forall i :: 1 <= i < |parts| ==> parts[i] == parts[1..][i - 1];
  }

  /** Markers are counted chunk by chunk: none straddles a chunk's end, none lies in blanks. */
  lemma {:induction false} MarkersOfMade(pem: Pem, s: bytes, parts: seq<Part>)
    requires Contract(pem) && Made(pem, s, parts)
    ensures Count(s) == Markers(parts) && EachMarked(parts)
    decreases |parts|
  {
    if parts == [] {
      CountBlank(s, []);
      assert s + [] == s;
    } else {
      var tail := MadeHead(pem, s, parts);
      CountOfPart(parts[0].gap, parts[0].chunk, tail);
      MarkersOfMade(pem, tail, parts[1..]);
      EachMarkedCons(parts);
    }
  }

  lemma CountOfPart(gap: bytes, chunk: bytes, tail: bytes)
    requires AllBlank(gap) && BEGIN <= chunk && ConsumesLines(chunk + tail, tail)
    ensures Count(gap + (chunk + tail)) == Count(chunk) + Count(tail) && Count(chunk) >= 1
  {
    CountBlank(gap, chunk + tail);
    ChunkEndsLine(chunk, tail);
    CountAppend(chunk, tail);
    CountOfMarker(chunk);
  }

  lemma CountOfMarker(chunk: bytes)
    requires BEGIN <= chunk
    ensures Count(chunk) == 1 + Count(chunk[|BEGIN|..])
  {
  }

  lemma ChunkEndsLine(chunk: bytes, tail: bytes)
    requires ConsumesLines(chunk + tail, tail)
    ensures tail == [] || (chunk != [] && chunk[|chunk| - 1] == NEWLINE)
  {
    assert (chunk + tail)[|chunk| - 1] == chunk[|chunk| - 1];
  }

  lemma {:induction false} CountBlank(gap: bytes, s: bytes)
    requires AllBlank(gap)
    ensures Count(gap + s) == Count(s)
  {
    if gap == [] {
      assert gap + s == s;
    } else {
      assert !(BEGIN <= gap + s) by {
        assert (gap + s)[0] == gap[0] != BEGIN[0];
      }
      assert (gap + s)[1..] == gap[1..] + s;
      CountBlank(gap[1..], s);
    }
  }

  lemma {:induction false} CountAppend(a: bytes, b: bytes)
    requires b == [] || a == [] || a[|a| - 1] == NEWLINE
    ensures Count(a + b) == Count(a) + Count(b)
    decreases |a|
  {
    if a == [] {
      assert a + b == b;
    } else if b == [] {
      assert a + b == a;
    } else if BEGIN <= a + b {
      MarkerInChunk(a + b, a, b);
      assert (a + b)[|BEGIN|..] == a[|BEGIN|..] + b;
      CountAppend(a[|BEGIN|..], b);
    } else {
      assert !(BEGIN <= a) by {
        assert BEGIN <= a ==> BEGIN <= a + b;
      }
      assert (a + b)[1..] == a[1..] + b;
      CountAppend(a[1..], b);
    }
  }

  lemma {:induction false} MarkersAtLeast(parts: seq<Part>)
    requires EachMarked(parts)
    ensures Markers(parts) >= |parts|
  {
    if parts != [] {
      MarkersAtLeast(parts[1..]);
    }
  }

  /** At least one marker in every chunk, and as many markers as chunks: one in each. */
  lemma {:induction false} Pigeonhole(parts: seq<Part>)
    requires EachMarked(parts)
    requires Markers(parts) == |parts|
    ensures OneMarkerEach(parts)
  {
    if parts != [] {
      assert EachMarked(parts[1..]) by {
        assert forall i :: 0 <= i < |parts| - 1 ==> parts[1..][i] == parts[i + 1];
      }
      MarkersAtLeast(parts[1..]);
      Pigeonhole(parts[1..]);
      assert forall i :: 1 <= i < |parts| ==> parts[i] == parts[1..][i - 1];
    }
  }

  lemma {:induction false} OneEach(parts: seq<Part>)
    requires OneMarkerEach(parts)
    ensures Markers(parts) == |parts|
  {
    if parts != [] {
      OneEach(parts[1..]);
    }
  }

  /** The number of positions at which a marker starts. */
  function Positions(s: bytes): nat {
    if s == [] then 0 else (if BEGIN <= s then 1 else 0) + Positions(s[1..])
  }

  /** Counting without overlap counts every marker: two occurrences cannot overlap. */
  lemma {:induction false} CountIsPositions(s: bytes)
    ensures Count(s) == Positions(s)
  {
    if s != [] {
      if BEGIN <= s {
        forall i | 0 <= i < |BEGIN| - 1 ensures !(BEGIN <= s[1..][i..]) {
          assert s[1..][i..] == s[i + 1..];
          NoOverlap(s, i + 1);
        }
        SkipPositions(s[1..], |BEGIN| - 1);
        assert s[1..][|BEGIN| - 1..] == s[|BEGIN|..];
        CountIsPositions(s[|BEGIN|..]);
      } else {
        CountIsPositions(s[1..]);
      }
    }
  }

  lemma {:induction false} SkipPositions(s: bytes, k: nat)
    requires k <= |s| && forall i :: 0 <= i < k ==> !(BEGIN <= s[i..])
    ensures Positions(s) == Positions(s[k..])
  {
    if k == 0 {
      assert s[0..] == s;
    } else {
      SkipPositions(s, k - 1);
      assert s[k - 1..][1..] == s[k..];
    }
  }

  lemma NoOverlap(s: bytes, i: nat)
    requires BEGIN <= s && 1 <= i < |BEGIN|
    ensures !(BEGIN <= s[i..])
  {
    assert s[5] == BEGIN[5] && s[i] == BEGIN[i];
  }
}
