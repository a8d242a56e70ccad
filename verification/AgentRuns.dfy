/** Whole runs of the agent: one attempt after the other, connections handled by the read loop
    on the same certificate files, through failures, crashes and restarts. */
module AgentRuns {
  import opened Bytes
  import opened Disk
  import opened Framing
  import opened Outcomes
  import opened ReadLoop
  import opened Renewal
  import opened Supervisor

  /** One turn of RunAgent's loop, with what the read loop did in it. */
  datatype Life =
    | NoAccess                              // the access list does not load
    | NoConnection
    | Connected(all: seq<Packet>, err: ReadError, h: History, result: RunResult)
    | Unfinished(h: History, crash: Option<bytes>)   // still open, or the process died in it

  /** What the supervisor sees; a process that died starts anew. */
  function AttemptOf(life: Life): seq<Attempt> {
    match life
    case NoAccess => [AccessError]
    case NoConnection => [ConnectError]
    case Connected(_, _, _, result) => [Ran(result)]
    case Unfinished(_, _) => []
  }

  function AttemptsOf(lives: seq<Life>): seq<Attempt> {
    if lives == [] then [] else AttemptsOf(lives[..|lives| - 1]) + AttemptOf(lives[|lives| - 1])
  }

  /** The history tells how the disk got from was to now. */
  ghost predicate Leads(x: Crypto, opts: Options, h: History, was: Files, now: Files) {
    && |h.verdicts| <= |h.handled| && Run(x, opts, h.ds, Events(h.handled, h.verdicts))
    && h.ds[0] == was && h.ds[|h.ds| - 1] == now
  }

  /** The read loop's contract for a connection: it ended with the outcome its history tells,
      or nothing has ended it yet; a crash is one in the handling of some answer. */
  ghost predicate Lived(x: Crypto, opts: Options, life: Life, was: Files, now: Files) {
    match life
    case NoAccess => now == was
    case NoConnection => now == was
    case Connected(all, err, h, result) =>
      && Outcome(all, RenewalEnabled(opts), err, h.handled, h.verdicts, Some(result))
      && Leads(x, opts, h, was, now)
    case Unfinished(h, crash) =>
      && Quiet(h.handled, RenewalEnabled(opts), h.verdicts)
      && match crash
         case None => Leads(x, opts, h, was, now)
         case Some(payload) =>
           h.ds != [] && Leads(x, opts, h, was, h.ds[|h.ds| - 1])
           && Step(x, opts, h.ds[|h.ds| - 1], Crashed(payload), now)
  }

  /** The lives follow one another: each finds the files as the one before left them. */
  ghost predicate Lives(x: Crypto, opts: Options, lives: seq<Life>, disks: seq<Files>) {
    && |disks| == |lives| + 1
    && forall i :: 0 <= i < |lives| ==> LivedAt(x, opts, lives, disks, i)
  }

  ghost predicate LivedAt(x: Crypto, opts: Options, lives: seq<Life>, disks: seq<Files>, i: nat)
    requires |disks| == |lives| + 1 && i < |lives|
  {
    Lived(x, opts, lives[i], disks[i], disks[i + 1])
  }

  /** One connection of the agent: the read loop on a script of reads is such a life. */
  method RunConnection(fs: FileSystem, x: Crypto, opts: Options, script: seq<Read>)
    returns (result: Option<RunResult>, ghost life: Life)
    requires fs.Valid()
    modifies fs
    ensures fs.Valid() && old(fs.log) <= fs.log
    ensures Lived(x, opts, life, old(fs.State()), fs.State())
    ensures AttemptOf(life) == match result case Some(r) => [Ran(r)] case None => []
  {
    var used;
    ghost var h;
    result, used, h := Loop(fs, x, opts, script);
    ghost var all := Decode(Stream(script, used)).packets;
    ghost var err: ReadError := if used > 0 then script[used - 1].err else None;
    if result.Some? {
      life := Connected(all, err, h, result.value);
    } else {
      OutcomeMeaning(all, RenewalEnabled(opts), err, h.handled, h.verdicts, None);
      life := Unfinished(h, None);
    }
  }

  // ---- The files over all lives ----

  /** What happened to the files in one life. */
  function EventsOf(life: Life): seq<Event> {
    match life
    case Connected(_, _, h, _) => HistoryEvents(h)
    case Unfinished(h, None) => HistoryEvents(h)
    case Unfinished(h, Some(payload)) => HistoryEvents(h) + [Crashed(payload)]
    case _ => []
  }

  function HistoryEvents(h: History): seq<Event> {
    if |h.verdicts| <= |h.handled| then Events(h.handled, h.verdicts) else []
  }

  function AllEvents(lives: seq<Life>): seq<Event> {
    if lives == [] then [] else AllEvents(lives[..|lives| - 1]) + EventsOf(lives[|lives| - 1])
  }

  /** A life is a stretch of a run. */
  lemma LifeRun(x: Crypto, opts: Options, life: Life, was: Files, now: Files) returns (ds: seq<Files>)
    requires Lived(x, opts, life, was, now)
    ensures Run(x, opts, ds, EventsOf(life)) && ds[0] == was && ds[|ds| - 1] == now
  {
    match life
    case Connected(_, _, h, _) =>
      ds := h.ds;
    case Unfinished(h, None) =>
      ds := h.ds;
    case Unfinished(h, Some(payload)) =>
      var last := h.ds[|h.ds| - 1];
      assert StepAt(x, opts, [last, now], [Crashed(payload)], 0);
      RunAppend(x, opts, h.ds, HistoryEvents(h), [last, now], [Crashed(payload)]);
      ds := h.ds + [last, now][1..];
    case _ =>
      ds := [was];
  }

  lemma LivesPrefix(x: Crypto, opts: Options, lives: seq<Life>, disks: seq<Files>, n: nat)
    requires Lives(x, opts, lives, disks) && n <= |lives|
    ensures Lives(x, opts, lives[..n], disks[..n + 1])
  {
    var lives', disks' := lives[..n], disks[..n + 1];
    forall i | 0 <= i < n ensures LivedAt(x, opts, lives', disks', i) {
      assert LivedAt(x, opts, lives, disks, i);
    }
  }

  /** All lives together are one run of the files. */
  lemma {:induction false} LivesRun(x: Crypto, opts: Options, lives: seq<Life>, disks: seq<Files>)
    returns (ds: seq<Files>)
    requires Lives(x, opts, lives, disks)
    ensures Run(x, opts, ds, AllEvents(lives)) && ds[0] == disks[0] && ds[|ds| - 1] == disks[|lives|]
    decreases |lives|
  {
    if lives == [] {
      ds := [disks[0]];
    } else {
      var n := |lives| - 1;
      LivesPrefix(x, opts, lives, disks, n);
      var front := LivesRun(x, opts, lives[..n], disks[..n + 1]);
      assert LivedAt(x, opts, lives, disks, n);
      var back := LifeRun(x, opts, lives[n], disks[n], disks[n + 1]);
      RunAppend(x, opts, front, AllEvents(lives[..n]), back, EventsOf(lives[n]));
      ds := front + back[1..];
    }
  }

  /** Certificate safety over all lives of the agent: at the start of every one of them a pair
      that loaded at the beginning still loads, with the same key, subject and serial. */
  lemma SafeAtEveryLife(x: Crypto, opts: Options, lives: seq<Life>, disks: seq<Files>, n: nat)
    requires Lives(x, opts, lives, disks) && n <= |lives|
    ensures Safe(x, disks[0], disks[n])
  {
    LivesPrefix(x, opts, lives, disks, n);
    var ds := LivesRun(x, opts, lives[..n], disks[..n + 1]);
    CertificateSafety(x, opts, ds, AllEvents(lives[..n]), |ds| - 1);
  }

  // ---- Reconnects caused by renewal ----

  /** Attempts that ended with an installed certificate, after each of which the agent
      reconnects at once. */
  function RenewalReconnects(attempts: seq<Attempt>): nat {
    if attempts == [] then 0 else
      RenewalReconnects(attempts[..|attempts| - 1])
      + (if attempts[|attempts| - 1] == Ran(Renewed) then 1 else 0)
  }

  /** In one life a certificate is installed to the end exactly if it ended with Renewed. */
  lemma LifeRenewals(x: Crypto, opts: Options, life: Life, was: Files, now: Files)
    requires Lived(x, opts, life, was, now)
    ensures Renewals(EventsOf(life)) == RenewalReconnects(AttemptOf(life))
  {
    match life
    case Connected(all, err, h, result) =>
      OutcomeMeaning(all, RenewalEnabled(opts), err, h.handled, h.verdicts, Some(result));
      RenewalsOfVerdicts(h.handled, RenewalEnabled(opts), h.verdicts);
      assert [Ran(result)][..0] == [];
    case Unfinished(h, crash) =>
      RenewalsOfVerdicts(h.handled, RenewalEnabled(opts), h.verdicts);
      if crash.Some? {
        assert (HistoryEvents(h) + [Crashed(crash.value)])[..|HistoryEvents(h)|] == HistoryEvents(h);
      }
    case NoAccess =>
      assert [AccessError][..0] == [];
    case NoConnection =>
      assert [ConnectError][..0] == [];
  }

  lemma {:induction false} ReconnectsAreRenewals(x: Crypto, opts: Options, lives: seq<Life>, disks: seq<Files>)
    requires Lives(x, opts, lives, disks)
    ensures RenewalReconnects(AttemptsOf(lives)) == Renewals(AllEvents(lives))
    decreases |lives|
  {
    if lives != [] {
      var n := |lives| - 1;
      LivesPrefix(x, opts, lives, disks, n);
      ReconnectsAreRenewals(x, opts, lives[..n], disks[..n + 1]);
      assert LivedAt(x, opts, lives, disks, n);
      LifeRenewals(x, opts, lives[n], disks[n], disks[n + 1]);
      RenewalsAppend(AllEvents(lives[..n]), EventsOf(lives[n]));
      ReconnectsAppend(AttemptsOf(lives[..n]), AttemptOf(lives[n]));
    }
  }

  lemma ReconnectsAppend(attempts: seq<Attempt>, more: seq<Attempt>)
    requires |more| <= 1
    ensures RenewalReconnects(attempts + more) == RenewalReconnects(attempts) + RenewalReconnects(more)
  {
    if more == [] {
      assert attempts + more == attempts;
    } else {
      assert (attempts + more)[..|attempts|] == attempts && more[..0] == [];
    }
  }

  /** Against servers that only ever offer one certificate, all lives of the agent together
      contain at most one reconnect caused by renewal, whatever fails or crashes in them; and
      after it that certificate is the one on disk. */
  lemma AtMostOneRenewalReconnect(x: Crypto, opts: Options, lives: seq<Life>, disks: seq<Files>, der: bytes)
    requires Lives(x, opts, lives, disks) && OffersOnly(x, AllEvents(lives), der)
    ensures RenewalReconnects(AttemptsOf(lives)) <= 1
    ensures RenewalReconnects(AttemptsOf(lives)) == 1 ==> Der(x, disks[|lives|]) == Some(der)
  {
    ReconnectsAreRenewals(x, opts, lives, disks);
    var ds := LivesRun(x, opts, lives, disks);
    Convergence(x, opts, ds, AllEvents(lives), der);
  }
}
