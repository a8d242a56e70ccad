/** RunAgent: the retry and reconnect automaton over what each attempt brings. */
module Supervisor {
  import opened Bytes
  import opened Outcomes

  const MAX_RETRIES := 4

  /** One turn of RunAgent's loop: the access list does not load, the connection fails, or it
      runs and ends with a result. */
  datatype Attempt = AccessError | ConnectError | Ran(result: RunResult)

  datatype Exit = AccessFailure | TooManyFailures | Stopped(reason: bytes)

  /** The length of the run of connect failures at the end. */
  function TrailingFailures(attempts: seq<Attempt>): nat {
    if attempts != [] && attempts[|attempts| - 1].ConnectError?
    then 1 + TrailingFailures(attempts[..|attempts| - 1])
    else 0
  }

  predicate FourthFailure(attempts: seq<Attempt>, i: nat)
    requires i < |attempts|
  {
    i >= 3 && forall j :: i - 3 <= j <= i ==> attempts[j].ConnectError?
  }

  /** Why the agent stops at attempt i, if it does. */
  function ExitAt(attempts: seq<Attempt>, i: nat): Option<Exit>
    requires i < |attempts|
  {
    match attempts[i]
    case AccessError => Some(AccessFailure)
    case ConnectError => if FourthFailure(attempts, i) then Some(TooManyFailures) else None
    case Ran(result) => if result.Rejected? then Some(Stopped(result.reason)) else None
  }

  lemma {:induction false} TrailingMeaning(attempts: seq<Attempt>)
    ensures TrailingFailures(attempts) <= |attempts|
    ensures forall j :: |attempts| - TrailingFailures(attempts) <= j < |attempts| ==>
      attempts[j].ConnectError?
    ensures TrailingFailures(attempts) < |attempts| ==>
      !attempts[|attempts| - TrailingFailures(attempts) - 1].ConnectError?
  {
    if attempts != [] && attempts[|attempts| - 1].ConnectError? {
      TrailingMeaning(attempts[..|attempts| - 1]);
    }
  }

  lemma FourthIsTrailing(attempts: seq<Attempt>, i: nat)
    requires i < |attempts|
    ensures FourthFailure(attempts, i) <==> TrailingFailures(attempts[..i + 1]) >= MAX_RETRIES
  {
    TrailingMeaning(attempts[..i + 1]);
    var t := TrailingFailures(attempts[..i + 1]);
    if t < MAX_RETRIES && i >= 3 {
      assert !attempts[i - t].ConnectError?;
    }
  }

  /** The first n attempts end in four connect failures in a row. */
  predicate FourInARow(attempts: seq<Attempt>, n: nat)
    requires n <= |attempts|
  {
    && n >= 4
    && attempts[n - 4].ConnectError? && attempts[n - 3].ConnectError?
    && attempts[n - 2].ConnectError? && attempts[n - 1].ConnectError?
  }

  predicate IsRejected(attempt: Attempt) {
    attempt.Ran? && attempt.result.Rejected?
  }

  /** The exit after n attempts: a rejection, with its reason, if the last one ended with it; a
      failure of the access list if its list did not load; too many failures if it is the
      fourth connect failure in a row; and no attempt before it is any of these. */
  ghost predicate StopsWith(attempts: seq<Attempt>, n: nat, exit: Option<Exit>)
    requires n <= |attempts|
  {
    && (exit.Some? && exit.value.Stopped? <==> n > 0 && IsRejected(attempts[n - 1]))
    && (exit.Some? && exit.value.Stopped? ==> exit.value.reason == attempts[n - 1].result.reason)
    && (exit == Some(AccessFailure) <==> n > 0 && attempts[n - 1].AccessError?)
    && (exit == Some(TooManyFailures) <==> FourInARow(attempts, n))
    && forall i :: 0 <= i < n - 1 ==>
         !attempts[i].AccessError? && !IsRejected(attempts[i]) && !FourInARow(attempts, i + 1)
  }

  lemma FourthIsFour(attempts: seq<Attempt>, i: nat)
    requires i < |attempts|
    ensures FourthFailure(attempts, i) <==> FourInARow(attempts, i + 1)
  {
    if FourthFailure(attempts, i) {
      assert attempts[i - 3].ConnectError? && attempts[i - 2].ConnectError?;
    }
  }

  lemma StopsMeaning(attempts: seq<Attempt>, n: nat)
    requires n <= |attempts| && forall i :: 0 <= i < n - 1 ==> ExitAt(attempts, i) == None
    ensures StopsWith(attempts, n, if n > 0 then ExitAt(attempts, n - 1) else None)
  {
    if n > 0 {
      FourthIsFour(attempts, n - 1);
    }
    forall i | 0 <= i < n - 1
      ensures !attempts[i].AccessError? && !IsRejected(attempts[i]) && !FourInARow(attempts, i + 1)
    {
      assert ExitAt(attempts, i) == None;
      FourthIsFour(attempts, i);
    }
  }

  /** At every loop head sslRetries is the length of the trailing run of connect failures and
      below 4; the loop stops at the first attempt with an exit, with that exit: an access
      list load error, a REJECT, or the fourth consecutive connect failure, and nothing
      else, so never a renewal or a disconnect. None: the script is used up. */
  method RunAgent(attempts: seq<Attempt>) returns (exit: Option<Exit>, used: nat, sslRetries: nat)
    ensures used <= |attempts|
    ensures exit.Some? ==> used > 0 && ExitAt(attempts, used - 1) == exit
    ensures forall i :: 0 <= i < used - 1 ==> ExitAt(attempts, i) == None
    ensures exit.None? ==> (
      && used == |attempts|
      && (forall i :: 0 <= i < used ==> ExitAt(attempts, i) == None)
      && sslRetries == TrailingFailures(attempts) < 4)
    ensures StopsWith(attempts, used, exit)
  {
    sslRetries, used := 0, 0;
    while used < |attempts|
      invariant 0 <= used <= |attempts|
      invariant sslRetries == TrailingFailures(attempts[..used]) < MAX_RETRIES
      invariant forall i :: 0 <= i < used ==> ExitAt(attempts, i) == None
    {
      assert attempts[..used + 1][..used] == attempts[..used];
      FourthIsTrailing(attempts, used);
      var attempt := attempts[used];
      used := used + 1;
      StopsMeaning(attempts, used);
      if attempt.AccessError? {
        return Some(AccessFailure), used, sslRetries;
      }
      if attempt.ConnectError? {
        sslRetries := sslRetries + 1;
        if sslRetries >= MAX_RETRIES {
          return Some(TooManyFailures), used, sslRetries;
        }
        continue;
      }
      sslRetries := 0;
      if attempt.result.Rejected? {
        return Some(Stopped(attempt.result.reason)), used, sslRetries;
      }
    }
    assert attempts[..used] == attempts;
    StopsMeaning(attempts, used);
    return None, used, sslRetries;
  }
}
