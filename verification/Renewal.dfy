/** Certificate renewal: internal/certrenew and the tunnel's handling of RENEW_RESPONSE,
    and what whole runs of it, crashes included, keep. */
module Renewal {
  import opened Bytes
  import opened CertPool
  import opened Disk
  import opened Framing

  /** The parts of Go's crypto packages renewal uses: PEM and X.509 parsing, the key pair
      check of tls.X509KeyPair, and chain verification for client authentication. */
  datatype Crypto = Crypto(
    pem: Pem,
    pairs: (bytes, bytes) -> bool,
    verifies: (Cert, seq<Cert>) -> bool)

  datatype Reason =
    | NoCurrent | NoRoots | NotPemCertificate | Unparseable | NoKey | KeyMismatch
    | WrongSubject | WrongSerial | Untrusted

  datatype Verdict = Rejected(reason: Reason) | Unchanged(cert: Cert) | Accepted(cert: Cert)

  /** The certificate in the first PEM block of data, if that is what it holds. */
  function FirstCert(pem: Pem, data: bytes): Option<Cert> {
    match pem.decode(data)
    case Some((block, _)) => if block.kind == CERTIFICATE then pem.parse(block.der) else None
    case None => None
  }

  /** LoadCurrent on the bytes of the file, None when it is missing. */
  function Current(pem: Pem, file: Option<bytes>): Option<Cert> {
    match file
    case Some(data) => FirstCert(pem, data)
    case None => None
  }

  /** Validate: every check, in the source's order; key is None when it cannot be read. */
  function Validate(x: Crypto, current: Option<Cert>, roots: Option<seq<Cert>>,
                    key: Option<bytes>, candidate: bytes): Verdict
  {
    if current.None? then Rejected(NoCurrent)
    else if roots.None? then Rejected(NoRoots)
    else match x.pem.decode(candidate)
      case None => Rejected(NotPemCertificate)
      case Some((block, _)) =>
        if block.kind != CERTIFICATE then Rejected(NotPemCertificate)
        else match x.pem.parse(block.der)
          case None => Rejected(Unparseable)
          case Some(cert) =>
            if key.None? then Rejected(NoKey)
            else if !x.pairs(candidate, key.value) then Rejected(KeyMismatch)
            else if cert.subject != current.value.subject then Rejected(WrongSubject)
            else if cert.serial != current.value.serial then Rejected(WrongSerial)
            else if !x.verifies(cert, roots.value) then Rejected(Untrusted)
            else if cert.raw == current.value.raw then Unchanged(cert)
            else Accepted(cert)
  }

  datatype Options = Options(roots: Option<seq<Cert>>, certPath: string, keyPath: string)

  predicate RenewalEnabled(opts: Options) {
    opts.roots.Some? && opts.certPath != "" && opts.keyPath != ""
  }

  /** The candidate passes every check against the files as they are, and differs. */
  predicate MayInstall(x: Crypto, opts: Options, d: Files, candidate: bytes) {
    && RenewalEnabled(opts)
    && Validate(x, Current(x.pem, d.crt), opts.roots, d.key, candidate).Accepted?
  }

  /** The candidate a RENEW_RESPONSE payload carries when its status is RENEWED. */
  function Offered(payload: bytes): Option<bytes> {
    match ParseRenewResponse(payload)
    case Some((status, body)) => if status == STATUS_RENEWED then Some(body) else None
    case None => None
  }

  // ---- Runs ----

  /** What can happen to the files: a RENEW_RESPONSE is handled to the end, with or without
      an installed certificate, or the process dies at some point of handling it. */
  datatype Event = Handled(payload: bytes, renewed: bool) | Crashed(payload: bytes)

  predicate Installs(x: Crypto, opts: Options, d: Files, payload: bytes, d': Files) {
    && Offered(payload).Some? && MayInstall(x, opts, d, Offered(payload).value)
    && d'.crt == Offered(payload)
  }

  /** d' is a possible disk after the event. The key never changes; the temp file may hold
      anything. */
  predicate Step(x: Crypto, opts: Options, d: Files, e: Event, d': Files) {
    && d'.key == d.key
    && match e
       case Handled(payload, renewed) =>
         if renewed then Installs(x, opts, d, payload, d') else d'.crt == d.crt
       case Crashed(payload) => d'.crt == d.crt || Installs(x, opts, d, payload, d')
  }

  ghost predicate Run(x: Crypto, opts: Options, ds: seq<Files>, es: seq<Event>) {
    && |ds| == |es| + 1
    && forall i :: 0 <= i < |es| ==> StepAt(x, opts, ds, es, i)
  }

  predicate StepAt(x: Crypto, opts: Options, ds: seq<Files>, es: seq<Event>, i: nat)
    requires |ds| == |es| + 1 && i < |es|
  {
    Step(x, opts, ds[i], es[i], ds[i + 1])
  }

  lemma RunPrefix(x: Crypto, opts: Options, ds: seq<Files>, es: seq<Event>, n: nat)
    requires Run(x, opts, ds, es) && n <= |es|
    ensures Run(x, opts, ds[..n + 1], es[..n])
  {
    var ds', es' := ds[..n + 1], es[..n];
    forall i | 0 <= i < n ensures StepAt(x, opts, ds', es', i) {
      assert StepAt(x, opts, ds, es, i);
    }
  }

  /** A state the disk may be found in when the process dies during the run. */
  ghost predicate OnTheWay(x: Crypto, opts: Options, ds: seq<Files>, es: seq<Event>, d: Files)
    requires |ds| == |es| + 1
  {
    exists k :: 0 <= k < |es| && Step(x, opts, ds[k], Crashed(es[k].payload), d)
  }

  /** The events took the disk from was to now, and dying at any point logged since start
      leaves a state on the way. */
  ghost predicate Traced(x: Crypto, opts: Options, ds: seq<Files>, es: seq<Event>, was: Files,
                         now: Files, log: seq<Files>, start: nat)
  {
    && Run(x, opts, ds, es) && ds[0] == was && ds[|es|] == now
    && start <= |log|
    && forall i {:trigger OnTheWay(x, opts, ds, es, log[i])} ::
         start <= i < |log| ==> OnTheWay(x, opts, ds, es, log[i])
  }

  lemma {:induction false} OnTheWayAppend(x: Crypto, opts: Options, ds: seq<Files>, es: seq<Event>,
                                          ds': seq<Files>, es': seq<Event>, d: Files)
    requires Run(x, opts, ds, es) && Run(x, opts, ds', es') && ds[|es|] == ds'[0]
    requires OnTheWay(x, opts, ds, es, d) || OnTheWay(x, opts, ds', es', d)
    ensures OnTheWay(x, opts, ds + ds'[1..], es + es', d)
  {
    if OnTheWay(x, opts, ds, es, d) {
      var k :| 0 <= k < |es| && Step(x, opts, ds[k], Crashed(es[k].payload), d);
      assert (ds + ds'[1..])[k] == ds[k] && (es + es')[k] == es[k];
    } else {
      var k :| 0 <= k < |es'| && Step(x, opts, ds'[k], Crashed(es'[k].payload), d);
      assert (ds + ds'[1..])[|es| + k] == ds'[k] && (es + es')[|es| + k] == es'[k];
    }
  }

  lemma RunAppend(x: Crypto, opts: Options, ds: seq<Files>, es: seq<Event>, ds': seq<Files>, es': seq<Event>)
    requires Run(x, opts, ds, es) && Run(x, opts, ds', es') && ds[|es|] == ds'[0]
    ensures Run(x, opts, ds + ds'[1..], es + es')
  {
    var all := ds + ds'[1..];
    forall i | 0 <= i < |es + es'| ensures StepAt(x, opts, all, es + es', i) {
      if i >= |es| {
        assert StepAt(x, opts, ds', es', i - |es|);
        assert all[i] == ds'[i - |es|] && all[i + 1] == ds'[i - |es| + 1];
        assert (es + es')[i] == es'[i - |es|];
      } else {
        assert StepAt(x, opts, ds, es, i);
      }
    }
  }

  /** Stretches of a run compose, crash points included. */
  lemma TracedAppend(x: Crypto, opts: Options, ds: seq<Files>, es: seq<Event>, ds': seq<Files>,
                     es': seq<Event>, was: Files, mid: Files, now: Files, log: seq<Files>, log': seq<Files>,
                     start: nat)
    requires Traced(x, opts, ds, es, was, mid, log, start) && log <= log'
    requires Traced(x, opts, ds', es', mid, now, log', |log|)
    ensures Traced(x, opts, ds + ds'[1..], es + es', was, now, log', start)
  {
    RunAppend(x, opts, ds, es, ds', es');
    forall i | start <= i < |log'| ensures OnTheWay(x, opts, ds + ds'[1..], es + es', log'[i]) {
      assert i < |log| ==> OnTheWay(x, opts, ds, es, log[i]);
      OnTheWayAppend(x, opts, ds, es, ds', es', log'[i]);
    }
  }

  // ---- The code ----

  datatype Applied = Installed(cert: Cert) | AlreadyInstalled | Declined(reason: Reason) | WriteFailed

  /** Every state logged since start is a possible crash point of handling the payload. */
  ghost predicate CrashPoints(x: Crypto, opts: Options, log: seq<Files>, start: nat,
                              was: Files, payload: bytes)
  {
    && start <= |log|
    && forall i :: start <= i < |log| ==> Step(x, opts, was, Crashed(payload), log[i])
  }

  /** Apply: nothing is written unless every check passes; the key read may fail. */
  method Apply(fs: FileSystem, x: Crypto, opts: Options, current: Option<Cert>, candidate: bytes)
    returns (r: Applied)
    requires fs.Valid()
    modifies fs
    ensures fs.Valid() && old(fs.log) <= fs.log && old(fs.failures) <= fs.failures
    ensures var v := Validate(x, current, opts.roots, fs.key, candidate);
      && (v.Accepted? ==> Atomic(fs.log, |old(fs.log)|, old(fs.State()), candidate))
      && (!v.Accepted? ==> fs.log == old(fs.log) && !r.Installed?)
      && (r.Installed? ==> v == Accepted(r.cert) && fs.crt == Some(candidate))
      && (fs.failures == old(fs.failures) ==> (r.Installed? <==> v.Accepted?))
    ensures !r.Installed? ==> fs.crt == old(fs.crt)
  {
    var readable: bool := *;
    if !readable {
      fs.failures := fs.failures + 1;
    }
    match Validate(x, current, opts.roots, if readable then fs.key else None, candidate) {
      case Rejected(reason) =>
        r := Declined(reason);
      case Unchanged(_) =>
        r := AlreadyInstalled;
      case Accepted(cert) =>
        var ok := WriteAtomic(fs, candidate);
        r := if ok then Installed(cert) else WriteFailed;
    }
  }

  /** installRenewedCertificate: whether ErrCertificateRenewed is returned. */
  method InstallRenewedCertificate(fs: FileSystem, x: Crypto, opts: Options, candidate: bytes)
    returns (renewed: bool)
    requires fs.Valid() && RenewalEnabled(opts)
    modifies fs
    ensures fs.Valid() && old(fs.log) <= fs.log && old(fs.failures) <= fs.failures
    ensures var may := MayInstall(x, opts, old(fs.State()), candidate);
      && (may ==> Atomic(fs.log, |old(fs.log)|, old(fs.State()), candidate))
      && (!may ==> fs.log == old(fs.log))
      && (renewed ==> may && fs.crt == Some(candidate))
      && (fs.failures == old(fs.failures) ==> renewed == may)
    ensures !renewed ==> fs.crt == old(fs.crt)
  {
    var readable: bool := *;
    if !readable {
      fs.failures := fs.failures + 1;
      return false;
    }
    var current := Current(x.pem, fs.crt);
    if current.None? {
      return false;
    }
    var applied := Apply(fs, x, opts, current, candidate);
    renewed := applied.Installed?;
  }

  /** handleRenewResponse: a complete step of the run, every crash point of which is a step
      too; without failing file operations a certificate is installed exactly when it may be. */
  method HandleRenewResponse(fs: FileSystem, x: Crypto, opts: Options, payload: bytes)
    returns (renewed: bool)
    requires fs.Valid()
    modifies fs
    ensures fs.Valid() && old(fs.log) <= fs.log && old(fs.failures) <= fs.failures
    ensures Step(x, opts, old(fs.State()), Handled(payload, renewed), fs.State())
    ensures CrashPoints(x, opts, fs.log, |old(fs.log)|, old(fs.State()), payload)
    ensures fs.failures == old(fs.failures) ==>
      (renewed <==> Offered(payload).Some?
                    && MayInstall(x, opts, old(fs.State()), Offered(payload).value))
  {
    var parsed := ParseRenewResponse(payload);
    if parsed.None? || !RenewalEnabled(opts) {
      return false;
    }
    var (status, body) := parsed.value;
    if status == STATUS_CURRENT {
      return false;
    } else if status == STATUS_ERROR {
      return false;
    } else if status == STATUS_RENEWED {
      renewed := InstallRenewedCertificate(fs, x, opts, body);
    } else {
      return false;
    }
  }

  // ---- What runs keep ----

  /** tls.LoadX509KeyPair on the files. */
  predicate Loads(x: Crypto, d: Files) {
    d.crt.Some? && d.key.Some? && x.pairs(d.crt.value, d.key.value)
  }

  /** What the backend knows the agent by: subject and serial of the installed certificate. */
  function Identity(x: Crypto, d: Files): Option<(bytes, int)> {
    match Current(x.pem, d.crt)
    case Some(cert) => Some((cert.subject, cert.serial))
    case None => None
  }

  function Der(x: Crypto, d: Files): Option<bytes> {
    match Current(x.pem, d.crt)
    case Some(cert) => Some(cert.raw)
    case None => None
  }

  lemma InstalledIsCandidate(x: Crypto, opts: Options, d: Files, candidate: bytes)
    requires MayInstall(x, opts, d, candidate)
    ensures Current(x.pem, d.crt).Some? && FirstCert(x.pem, candidate).Some?
    ensures var was, now := Current(x.pem, d.crt).value, FirstCert(x.pem, candidate).value;
      now.subject == was.subject && now.serial == was.serial && now.raw != was.raw
    ensures d.key.Some? && x.pairs(candidate, d.key.value)
  {
  }

  /** The data's first PEM block is a certificate, and this one. */
  predicate Certifies(pem: Pem, data: bytes, cert: Cert) {
    && pem.decode(data).Some?
    && var block := pem.decode(data).value.0;
       block.kind == "CERTIFICATE" && pem.parse(block.der) == Some(cert)
  }

  /** Nothing is installed unless renewal has roots and both paths and every check passes, and
      when all do it may be: the candidate's first PEM block is a certificate that pairs with
      the key, keeps subject and serial, chains to the roots for client authentication, and is
      not the one installed. */
  lemma InstallConditions(x: Crypto, opts: Options, d: Files, candidate: bytes)
    ensures MayInstall(x, opts, d, candidate) <==>
      exists was, cert ::
        && opts.roots.Some? && opts.certPath != "" && opts.keyPath != ""
        && d.crt.Some? && Certifies(x.pem, d.crt.value, was) && Certifies(x.pem, candidate, cert)
        && d.key.Some? && x.pairs(candidate, d.key.value)
        && cert.subject == was.subject && cert.serial == was.serial
        && x.verifies(cert, opts.roots.value)
        && cert.raw != was.raw
  {
    if MayInstall(x, opts, d, candidate) {
      assert Certifies(x.pem, d.crt.value, Current(x.pem, d.crt).value);
      assert Certifies(x.pem, candidate, FirstCert(x.pem, candidate).value);
    }
  }

  /** A certificate is offered exactly by the status 0 followed by it. */
  lemma OfferedExactly(payload: bytes, candidate: bytes)
    ensures Offered(payload) == Some(candidate) <==> payload == [0] + candidate
  {
    ParsersExact(payload, 0, 0, candidate);
  }

  /** The identity and the DER are those of the certificate in the file's first PEM block. */
  lemma IdentityMeaning(x: Crypto, d: Files, cert: Cert)
    requires d.crt.Some?
    ensures Certifies(x.pem, d.crt.value, cert) ==>
      Identity(x, d) == Some((cert.subject, cert.serial)) && Der(x, d) == Some(cert.raw)
    ensures Identity(x, d).Some? || Der(x, d).Some? ==>
      Certifies(x.pem, d.crt.value, Current(x.pem, d.crt).value)
  {
  }

  /** Whatever one step does, a key pair that loads still loads and the identity stays. */
  lemma StepKeeps(x: Crypto, opts: Options, d: Files, e: Event, d': Files)
    requires Step(x, opts, d, e, d')
    ensures Loads(x, d) ==> Loads(x, d')
    ensures Identity(x, d') == Identity(x, d)
    ensures d'.key == d.key
  {
    if Installs(x, opts, d, e.payload, d') {
      InstalledIsCandidate(x, opts, d, Offered(e.payload).value);
    }
  }

  /** Certificate safety over whole runs: from a key pair that loads, through any server
      answers, failures and crashes at any file operation, the pair on disk always loads, the
      key is never written, and the subject and serial never change. */
  lemma {:induction false} CertificateSafety(x: Crypto, opts: Options, ds: seq<Files>, es: seq<Event>, n: nat)
    requires Run(x, opts, ds, es) && n < |ds|
    ensures Loads(x, ds[0]) ==> Loads(x, ds[n])
    ensures Identity(x, ds[n]) == Identity(x, ds[0])
    ensures ds[n].key == ds[0].key
  {
    if n > 0 {
      CertificateSafety(x, opts, ds, es, n - 1);
      assert StepAt(x, opts, ds, es, n - 1);
      StepKeeps(x, opts, ds[n - 1], es[n - 1], ds[n]);
    }
  }

  /** In any run the installed file is the original one or holds a certificate that chains to
      the trusted roots and pairs with the key. */
  lemma {:induction false} InstalledIsTrusted(x: Crypto, opts: Options, ds: seq<Files>, es: seq<Event>, n: nat)
    requires Run(x, opts, ds, es) && n < |ds|
    ensures ds[n].crt == ds[0].crt || (
      && Current(x.pem, ds[n].crt).Some? && opts.roots.Some?
      && x.verifies(Current(x.pem, ds[n].crt).value, opts.roots.value)
      && Loads(x, ds[n]))
  {
    if n > 0 {
      InstalledIsTrusted(x, opts, ds, es, n - 1);
      assert StepAt(x, opts, ds, es, n - 1);
      StepKeeps(x, opts, ds[n - 1], es[n - 1], ds[n]);
      if Installs(x, opts, ds[n - 1], es[n - 1].payload, ds[n]) {
        InstallConditions(x, opts, ds[n - 1], Offered(es[n - 1].payload).value);
      }
    }
  }

  /** A file whose first PEM block is not a certificate is never replaced. */
  lemma {:induction false} NoCertificateNoChange(x: Crypto, opts: Options, ds: seq<Files>, es: seq<Event>, n: nat)
    requires Run(x, opts, ds, es) && n < |ds| && Current(x.pem, ds[0].crt).None?
    ensures ds[n].crt == ds[0].crt
  {
    if n > 0 {
      NoCertificateNoChange(x, opts, ds, es, n - 1);
      assert StepAt(x, opts, ds, es, n - 1);
    }
  }

  /** ErrCertificateRenewed is returned exactly when the installed DER changed; every other
      outcome leaves the file byte for byte the same. */
  lemma RenewedIffChanged(x: Crypto, opts: Options, d: Files, payload: bytes, renewed: bool, d': Files)
    requires Step(x, opts, d, Handled(payload, renewed), d')
    ensures renewed <==> Der(x, d') != Der(x, d)
    ensures !renewed ==> d'.crt == d.crt
  {
    if renewed {
      InstalledIsCandidate(x, opts, d, Offered(payload).value);
    }
  }

  /** What a state of the disk must keep of the one at the start. */
  predicate Safe(x: Crypto, was: Files, now: Files) {
    (Loads(x, was) ==> Loads(x, now)) && Identity(x, now) == Identity(x, was) && now.key == was.key
  }

  /** Certificate safety at every point of a traced stretch, its end and its crashes included. */
  lemma TracedIsSafe(x: Crypto, opts: Options, ds: seq<Files>, es: seq<Event>, was: Files,
                     now: Files, log: seq<Files>, start: nat)
    requires Traced(x, opts, ds, es, was, now, log, start)
    ensures Safe(x, was, now)
    ensures forall i :: start <= i < |log| ==> Safe(x, was, log[i])
  {
    CertificateSafety(x, opts, ds, es, |es|);
    forall i | start <= i < |log| ensures Safe(x, was, log[i]) {
      assert OnTheWay(x, opts, ds, es, log[i]);
      var k :| 0 <= k < |es| && Step(x, opts, ds[k], Crashed(es[k].payload), log[i]);
      CertificateSafety(x, opts, ds, es, k);
      StepKeeps(x, opts, ds[k], Crashed(es[k].payload), log[i]);
    }
  }

  function Renewals(es: seq<Event>): nat {
    if es == [] then 0 else
      Renewals(es[..|es| - 1])
      + match es[|es| - 1] case Handled(_, renewed) => (if renewed then 1 else 0) case Crashed(_) => 0
  }

  lemma {:induction false} RenewalsAppend(es: seq<Event>, es': seq<Event>)
    ensures Renewals(es + es') == Renewals(es) + Renewals(es')
    decreases |es'|
  {
    if es' == [] {
      assert es + es' == es;
    } else {
      RenewalsAppend(es, es'[..|es'| - 1]);
      assert (es + es')[..|es + es'| - 1] == es + es'[..|es'| - 1];
    }
  }

  /** The certificate an answer offers, if it offers one. */
  function OfferedCert(x: Crypto, payload: bytes): Option<Cert> {
    match Offered(payload)
    case Some(candidate) => FirstCert(x.pem, candidate)
    case None => None
  }

  /** Whatever certificate is offered in the run is the one with this DER; other answers,
      other encodings and other errors may come in between. */
  predicate OffersOnly(x: Crypto, es: seq<Event>, der: bytes) {
    forall i :: 0 <= i < |es| && OfferedCert(x, es[i].payload).Some? ==>
      OfferedCert(x, es[i].payload).value.raw == der
  }

  /** Against a server that only ever offers one certificate, however it is encoded and
      whatever else it answers, a run of any length holds at most one renewal, whatever fails
      or crashes in it; and after it that certificate is installed, as one of the answers
      encoded it. */
  lemma {:induction false} Convergence(x: Crypto, opts: Options, ds: seq<Files>, es: seq<Event>, der: bytes)
    requires Run(x, opts, ds, es) && OffersOnly(x, es, der)
    ensures Renewals(es) <= 1
    ensures Renewals(es) == 1 ==> Der(x, ds[|es|]) == Some(der)
    ensures Renewals(es) == 1 ==> exists i :: 0 <= i < |es| && ds[|es|].crt == Offered(es[i].payload)
    decreases |es|
  {
    if es != [] {
      var n := |es| - 1;
      RunPrefix(x, opts, ds, es, n);
      Convergence(x, opts, ds[..n + 1], es[..n], der);
      assert StepAt(x, opts, ds, es, n);
      if Installs(x, opts, ds[n], es[n].payload, ds[n + 1]) {
        InstalledIsCandidate(x, opts, ds[n], Offered(es[n].payload).value);
      } else if Renewals(es) == 1 {
        var i :| 0 <= i < n && ds[n].crt == Offered(es[..n][i].payload);
        assert es[i] == es[..n][i];
      }
    }
  }

  /** So with one and the same answer every time, the file is in the end what it carries. */
  lemma ConvergenceSameAnswer(x: Crypto, opts: Options, ds: seq<Files>, es: seq<Event>, payload: bytes)
    requires Run(x, opts, ds, es)
    requires forall i :: 0 <= i < |es| ==> es[i].payload == payload
    ensures Renewals(es) <= 1
    ensures Renewals(es) == 1 ==>
      Offered(payload).Some? && ds[|es|].crt == Offered(payload)
      && FirstCert(x.pem, Offered(payload).value).Some?
  {
    var offer := OfferedCert(x, payload);
    Convergence(x, opts, ds, es, if offer.Some? then offer.value.raw else []);
  }
}
