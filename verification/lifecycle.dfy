/**
 * What the controller can learn about a worker from its background-worker
 * handle, and the two polling loops built on it: waiting for the worker to
 * stop (pg_background_wait_v2) and cancelling it, SIGINT first and SIGTERM
 * once a grace period has passed (pgbg_send_cancel_signals).
 *
 * The supervisor's answers and the clock are inputs: a loop is given the
 * sequence of observations it makes, one per turn, and the model says what
 * it returns or sends. When the observations run out before the loop
 * decides, the loop is still running; the result records that.
 */
module Lifecycle {
  import opened Base

  /** BgwHandleStatus as GetBackgroundWorkerPid reports it; a started worker comes with its OS pid. */
  datatype HandleStatus = Started(pid: int) | NotYetStarted | Stopped | PostmasterDied

  /**
   * pgbg_worker_state: 0 while the worker runs, 1 once it has stopped, -1
   * when it cannot be told. None stands for a missing entry or a missing
   * handle.
   */
  function WorkerState(handle: Option<HandleStatus>): (s: int)
    ensures s == 0 <==> handle.Some? && handle.value.Started?
    ensures s == 1 <==> handle == Some(Stopped)
    ensures s == -1 <==> handle.None? || handle.value.NotYetStarted? || handle.value.PostmasterDied?
  {
    match handle
    case None => -1
    case Some(Started(_)) => 0
    case Some(Stopped) => 1
    case Some(PostmasterDied) => -1
    case Some(NotYetStarted) => -1
  }

  /**
   * The state column of pg_background_status_v2: "detached" for an entry
   * marked detached, otherwise "complete" for a stopped worker and
   * "running" for anything else, including a state that cannot be told.
   */
  function StatusName(detached: bool, state: int): (name: string)
    ensures name == "detached" <==> detached
    ensures name == "complete" <==> !detached && state == 1
    ensures name == "running" <==> !detached && state != 1
  {
    if detached then "detached" else if state == 1 then "complete" else "running"
  }

  /* ---------------------------------------------------------------------
   * Waiting (pg_background_wait_v2)
   * --------------------------------------------------------------------- */

  /**
   * One turn of the wait loop: the handle's status and the milliseconds
   * since the wait began, as measured on that turn.
   */
  datatype Poll = Poll(status: Option<HandleStatus>, elapsed: int)

  /** A timeout of -1 (the SQL NULL) or any other negative value waits for ever. */
  predicate TimedOut(timeoutMs: int, elapsed: int)
  {
    timeoutMs >= 0 && elapsed >= timeoutMs
  }

  /** Whether the wait loop returns on this turn. */
  predicate WaitEnds(timeoutMs: int, p: Poll)
  {
    WorkerState(p.status) != 0 || TimedOut(timeoutMs, p.elapsed)
  }

  /**
   * The answer of the wait loop over these turns: true as soon as the worker
   * is seen stopped, false as soon as its state cannot be told or the
   * timeout has passed, None while it is still waiting.
   */
  function WaitOutcome(timeoutMs: int, polls: seq<Poll>): Option<bool>
  {
    if polls == [] then None
    else if WorkerState(polls[0].status) == 1 then Some(true)
    else if WorkerState(polls[0].status) < 0 then Some(false)
    else if TimedOut(timeoutMs, polls[0].elapsed) then Some(false)
    else WaitOutcome(timeoutMs, polls[1..])
  }

  /** The first turn on which the wait loop returns, or |polls| if none is. */
  function FirstWaitEnd(timeoutMs: int, polls: seq<Poll>): (k: nat)
    ensures k <= |polls|
    ensures forall j :: 0 <= j < k ==> !WaitEnds(timeoutMs, polls[j])
    ensures k < |polls| ==> WaitEnds(timeoutMs, polls[k])
  {
    if polls == [] || WaitEnds(timeoutMs, polls[0]) then 0
    else 1 + FirstWaitEnd(timeoutMs, polls[1..])
  }

  /**
   * The wait is decided by the first turn on which the worker is not seen
   * running or the timeout has passed, and its answer is whether the worker
   * was seen stopped on that turn.
   */
  lemma {:induction false} WaitDecidedByFirstEnd(timeoutMs: int, polls: seq<Poll>)
    ensures var k := FirstWaitEnd(timeoutMs, polls);
            WaitOutcome(timeoutMs, polls)
            == if k == |polls| then None else Some(WorkerState(polls[k].status) == 1)
  {
    if polls != [] && !WaitEnds(timeoutMs, polls[0]) {
      WaitDecidedByFirstEnd(timeoutMs, polls[1..]);
    }
  }

  /** Without a timeout the wait returns false only when it sees a state it cannot tell. */
  lemma WaitWithoutTimeout(timeoutMs: int, polls: seq<Poll>)
    requires timeoutMs < 0
    requires forall j :: 0 <= j < |polls| ==> WorkerState(polls[j].status) != -1
    ensures WaitOutcome(timeoutMs, polls) != Some(false)
  {
    WaitDecidedByFirstEnd(timeoutMs, polls);
  }

  /** With a timeout, a worker still running when the timeout has passed makes the wait return false. */
  lemma WaitTimesOut(timeoutMs: int, polls: seq<Poll>, k: nat)
    requires timeoutMs >= 0
    requires k < |polls| && polls[k].elapsed >= timeoutMs
    requires forall j :: 0 <= j <= k ==> WorkerState(polls[j].status) == 0
    ensures WaitOutcome(timeoutMs, polls) == Some(false)
  {
    WaitDecidedByFirstEnd(timeoutMs, polls);
  }

  /** The polling loop of pg_background_wait_v2. */
  method WaitLoop(timeoutMs: int, polls: seq<Poll>) returns (r: Option<bool>)
    ensures r == WaitOutcome(timeoutMs, polls)
  {
    var i := 0;
    while i < |polls|
      invariant 0 <= i <= |polls|
      invariant WaitOutcome(timeoutMs, polls) == WaitOutcome(timeoutMs, polls[i..])
    {
      assert polls[i..][1..] == polls[i + 1..];
      var st := WorkerState(polls[i].status);
      if st == 1 {
        return Some(true);
      }
      if st < 0 {
        return Some(false);
      }
      if timeoutMs >= 0 && polls[i].elapsed >= timeoutMs {
        return Some(false);
      }
      i := i + 1;
    }
    return None;
  }

  /* ---------------------------------------------------------------------
   * Cancelling (pgbg_send_cancel_signals)
   * --------------------------------------------------------------------- */

  /** The longest grace period: one minute. */
  const MaxGraceMs: int := 60000

  /** The grace period is clamped to [0, 60000] ms. */
  function ClampGrace(graceMs: int): (g: int)
    ensures 0 <= g <= MaxGraceMs
    ensures 0 <= graceMs <= MaxGraceMs ==> g == graceMs
    ensures graceMs < 0 ==> g == 0
    ensures graceMs > MaxGraceMs ==> g == MaxGraceMs
  {
    if graceMs < 0 then 0 else if graceMs > MaxGraceMs then MaxGraceMs else graceMs
  }

  datatype Signal = SigInt | SigTerm

  /** A kill(2) the controller sends. */
  datatype Kill = Kill(signal: Signal, pid: int)

  /**
   * One turn of the escalation loop: what GetBackgroundWorkerPid reports and
   * the milliseconds since SIGINT was sent, as measured on that turn.
   */
  datatype Probe = Probe(status: HandleStatus, elapsed: int)

  /** The signals sent, and whether the procedure returned within the observed turns. */
  datatype CancelRun = CancelRun(kills: seq<Kill>, finished: bool)

  /**
   * After SIGINT: return quietly once the worker is no longer reported
   * started; send SIGTERM to the last reported pid once the grace period has
   * passed with the worker still started.
   */
  function Escalation(graceMs: int, probes: seq<Probe>): CancelRun
  {
    if probes == [] then CancelRun([], false)
    else if !probes[0].status.Started? then CancelRun([], true)
    else if probes[0].elapsed >= graceMs then CancelRun([Kill(SigTerm, probes[0].status.pid)], true)
    else Escalation(graceMs, probes[1..])
  }

  /**
   * pgbg_send_cancel_signals outside Windows: nothing unless the first look
   * at the handle finds the worker started with a positive pid; then SIGINT
   * to that pid, followed by the escalation with the clamped grace period.
   */
  function CancelSignals(graceMs: int, first: HandleStatus, probes: seq<Probe>): CancelRun
  {
    if !(first.Started? && first.pid > 0) then CancelRun([], true)
    else
      var e := Escalation(ClampGrace(graceMs), probes);
      CancelRun([Kill(SigInt, first.pid)] + e.kills, e.finished)
  }

  /** Whether the escalation loop leaves on this turn. */
  predicate EscalationEnds(graceMs: int, p: Probe)
  {
    !p.status.Started? || p.elapsed >= graceMs
  }

  /** The first turn on which the escalation loop leaves, or |probes| if none is. */
  function FirstEscalationEnd(graceMs: int, probes: seq<Probe>): (k: nat)
    ensures k <= |probes|
    ensures forall j :: 0 <= j < k ==> !EscalationEnds(graceMs, probes[j])
    ensures k < |probes| ==> EscalationEnds(graceMs, probes[k])
  {
    if probes == [] || EscalationEnds(graceMs, probes[0]) then 0
    else 1 + FirstEscalationEnd(graceMs, probes[1..])
  }

  /**
   * The escalation is decided by the first turn on which the worker is not
   * reported started or the grace period has passed; SIGTERM goes out exactly
   * when the worker was still started on that turn.
   */
  lemma {:induction false} EscalationDecidedByFirstEnd(graceMs: int, probes: seq<Probe>)
    ensures var k := FirstEscalationEnd(graceMs, probes);
            Escalation(graceMs, probes)
            == if k == |probes| then CancelRun([], false)
               else if probes[k].status.Started? then CancelRun([Kill(SigTerm, probes[k].status.pid)], true)
               else CancelRun([], true)
  {
    if probes != [] && !EscalationEnds(graceMs, probes[0]) {
      EscalationDecidedByFirstEnd(graceMs, probes[1..]);
    }
  }

  /**
   * The signals sent: none unless the worker was first seen started with a
   * positive pid; otherwise SIGINT to that pid, then at most a SIGTERM.
   */
  lemma CancelSendsSigIntFirst(graceMs: int, first: HandleStatus, probes: seq<Probe>)
    ensures var run := CancelSignals(graceMs, first, probes);
            (run.kills == [] <==> !(first.Started? && first.pid > 0))
            && (run.kills != [] ==> run.kills[0] == Kill(SigInt, first.pid) && |run.kills| <= 2)
            && (|run.kills| == 2 ==> run.kills[1].signal == SigTerm)
  {
    EscalationDecidedByFirstEnd(ClampGrace(graceMs), probes);
  }

  /**
   * A worker that stays started is sent SIGTERM once a full minute has
   * passed, whatever grace period was asked for.
   */
  lemma CancelEscalatesWithinAMinute(graceMs: int, first: HandleStatus, probes: seq<Probe>, k: nat)
    requires first.Started? && first.pid > 0
    requires k < |probes| && probes[k].elapsed >= MaxGraceMs
    requires forall j :: 0 <= j <= k ==> probes[j].status.Started?
    ensures |CancelSignals(graceMs, first, probes).kills| == 2
    ensures CancelSignals(graceMs, first, probes).finished
  {
    EscalationDecidedByFirstEnd(ClampGrace(graceMs), probes);
  }

  /** A worker that stops before the grace period has passed is sent SIGINT only. */
  lemma CancelStopsAtSigInt(graceMs: int, first: HandleStatus, probes: seq<Probe>, k: nat)
    requires first.Started? && first.pid > 0
    requires k < |probes| && !probes[k].status.Started?
    requires forall j :: 0 <= j < k ==> probes[j].elapsed < ClampGrace(graceMs)
    ensures CancelSignals(graceMs, first, probes) == CancelRun([Kill(SigInt, first.pid)], true)
  {
    EscalationDecidedByFirstEnd(ClampGrace(graceMs), probes);
  }

  /** The loop of pgbg_send_cancel_signals outside Windows. */
  method CancelLoop(graceMs: int, first: HandleStatus, probes: seq<Probe>) returns (run: CancelRun)
    ensures run == CancelSignals(graceMs, first, probes)
  {
    var grace := graceMs;
    if grace < 0 {
      grace := 0;
    }
    if grace > MaxGraceMs {
      grace := MaxGraceMs;
    }
    if !first.Started? || first.pid <= 0 {
      return CancelRun([], true);
    }
    var wpid := first.pid;
    var i := 0;
    while i < |probes|
      invariant 0 <= i <= |probes|
      invariant Escalation(grace, probes) == Escalation(grace, probes[i..])
    {
      assert probes[i..][1..] == probes[i + 1..];
      if !probes[i].status.Started? {
        return CancelRun([Kill(SigInt, first.pid)], true);
      }
      wpid := probes[i].status.pid;
      if probes[i].elapsed >= grace {
        return CancelRun([Kill(SigInt, first.pid), Kill(SigTerm, wpid)], true);
      }
      i := i + 1;
    }
    return CancelRun([Kill(SigInt, first.pid)], false);
  }
}
