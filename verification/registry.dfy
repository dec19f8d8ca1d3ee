/**
 * The controller session's table of workers (worker_hash) and the dynamic
 * shared memory segments it is attached to, with the SQL-callable entry
 * points that look workers up and change the table: launch, result,
 * detach, status, wait, cancel, and the clean-up when the backend exits.
 *
 * A segment's on-detach callback (cleanup_worker_info) removes the entry of
 * the pid it was registered for, so detaching a segment is what removes an
 * entry. A segment whose mapping is pinned outlives the transaction; an
 * unpinned one is released, and its callback run, when the transaction
 * ends (ReleaseAtTransactionEnd).
 *
 * The privilege test (has_privs_of_role) and the supervisor's view of a
 * worker are inputs.
 */
module Registry {
  import opened Base
  import opened Launch
  import opened Stream
  import opened Lifecycle

  /** pg_background_worker_info: one entry of the table, keyed by the worker's pid. */
  datatype WorkerInfo = WorkerInfo(
    pid: int,
    cookie: bv64,
    seg: nat,           // the segment holding the worker's queue
    owner: Oid,         // the user that launched the worker
    consumed: bool,
    mappingPinned: bool,
    startedAt: int,
    lastMsgAt: int,
    detached: bool)

  /** A segment the session is attached to: whether its mapping is pinned, and the pid its on-detach callback cleans up. */
  datatype Segment = Segment(pinned: bool, cleanupPid: int)

  /** has_privs_of_role(current user, owner of the worker). */
  type Privileges = (Oid, Oid) -> bool

  /** check_rights: the current user must have the privileges of the user who launched the worker. */
  function CheckRights(info: WorkerInfo, user: Oid, privs: Privileges): (r: Outcome)
    ensures r.Pass? <==> privs(user, info.owner)
    ensures r.Fail? ==> r.code == InsufficientPrivilege
  {
    Need(privs(user, info.owner), InsufficientPrivilege)
  }

  /**
   * getTypeBinaryInputInfo for each column of the result type, in order: a
   * type missing from the catalog is a cache lookup failure, a type without
   * a binary receive function an undefined function.
   */
  function ReceiveFunctions(types: seq<Oid>, catalog: Catalog): (r: Outcome)
    ensures r.Pass? <==> forall i :: 0 <= i < |types| ==> types[i] in catalog && catalog[types[i]]
    ensures r.Fail? ==> r.code == InternalError(TypeCacheLookupFailed) || r.code == UndefinedFunction
  {
    if types == [] then Pass
    else if types[0] !in catalog then Fail(InternalError(TypeCacheLookupFailed))
    else if !catalog[types[0]] then Fail(UndefinedFunction)
    else ReceiveFunctions(types[1..], catalog)
  }

  /** The loop of the first call of pg_background_result that looks up each column's receive function. */
  method LookupReceivers(types: seq<Oid>, catalog: Catalog) returns (r: Outcome)
    ensures r == ReceiveFunctions(types, catalog)
  {
    var i := 0;
    while i < |types|
      invariant 0 <= i <= |types|
      invariant ReceiveFunctions(types, catalog) == ReceiveFunctions(types[i..], catalog)
    {
      assert types[i..][1..] == types[i + 1..];
      if types[i] !in catalog {
        return Fail(InternalError(TypeCacheLookupFailed));
      }
      if !catalog[types[i]] {
        return Fail(UndefinedFunction);
      }
      i := i + 1;
    }
    return Pass;
  }

  /**
   * What a result call returns once it has claimed the worker's results: a
   * result type that is not a row type, then a column type without a
   * receive function, then whatever the queue yields.
   */
  function ClaimedResult(composite: bool, expected: seq<Oid>, catalog: Catalog, parseNotice: NoticeParser,
                         msgs: seq<seq<byte>>): Fetched
  {
    if !composite then Fetched([], 0, Fail(FeatureNotSupported))
    else if ReceiveFunctions(expected, catalog).Fail? then Fetched([], 0, Fail(ReceiveFunctions(expected, catalog).code))
    else Fetch(msgs, expected, catalog, parseNotice)
  }

  /** The clock reading stored as last_msg_at after n messages were taken, one reading per message. */
  function LastMessageAt(previous: int, times: seq<int>, n: nat): int
    requires n <= |times|
  {
    if n == 0 then previous else times[n - 1]
  }

  /**
   * The pid launch_internal goes on with: the one WaitForBackgroundWorkerStartup
   * reports for a started worker, and otherwise the value the variable
   * happened to hold, since a stopped worker's pid is not reported.
   */
  function StartedPid(startup: HandleStatus, unassignedPid: int): int
  {
    if startup.Started? then startup.pid else unassignedPid
  }

  /** The status row of pg_background_status_v2. */
  datatype StatusRow = StatusRow(pid: int, state: string, startedAt: int, lastMsgAt: int)

  /* ---------------------------------------------------------------------
   * The buffer of pids collected by the first pass of pg_background_on_exit
   * --------------------------------------------------------------------- */

  /** The pid buffer: NULL, a chunk of the given capacity, or what repalloc yields for a pointer palloc never returned. */
  datatype PidBuffer = Unallocated | Chunk(capacity: nat) | Undefined

  /** repalloc resizes a chunk palloc returned; for any other pointer, NULL included, its behaviour is undefined. */
  function Repalloc(b: PidBuffer, size: nat): (r: PidBuffer)
    ensures r.Chunk? <==> b.Chunk?
    ensures r.Chunk? ==> r.capacity == size
  {
    if b.Chunk? then Chunk(size) else Undefined
  }

  /** The capacity after a growth step: 16 the first time, doubled after that. */
  function NextCapacity(cap: nat): (c: nat)
    ensures c > cap
  {
    if cap == 0 then 16 else cap * 2
  }

  /**
   * The buffer and its capacity once the first pass has stored n pids. The
   * buffer grows whenever it is full. asWritten grows it with repalloc even
   * while it is still NULL; otherwise the first growth allocates it.
   */
  function Collected(n: nat, asWritten: bool): (PidBuffer, nat)
  {
    if n == 0 then (Unallocated, 0)
    else
      var (b, cap) := Collected(n - 1, asWritten);
      if cap != n - 1 then (b, cap)
      else if b.Unallocated? && !asWritten then (Chunk(NextCapacity(cap)), NextCapacity(cap))
      else (Repalloc(b, NextCapacity(cap)), NextCapacity(cap))
  }

  /**
   * As written, the first pass hands repalloc the NULL buffer when it meets
   * the first entry, so a session that ends with any worker still in its
   * table gets undefined behaviour, and the buffer stays undefined.
   */
  lemma {:induction false} OnExitAsWrittenRepallocsNull(n: nat)
    requires n >= 1
    ensures Collected(n, true).0 == Undefined
  {
    if n > 1 {
      OnExitAsWrittenRepallocsNull(n - 1);
    }
  }

  /**
   * Allocating the buffer on its first growth, the first pass always has a
   * chunk large enough for the pids stored so far, at least 16 once there is
   * one.
   */
  lemma {:induction false} CollectedHoldsAll(n: nat)
    ensures var (b, cap) := Collected(n, false);
            n <= cap && (n == 0 <==> b == Unallocated) && (n > 0 ==> b == Chunk(cap) && cap >= 16)
  {
    if n > 0 {
      CollectedHoldsAll(n - 1);
    }
  }

  /* ---------------------------------------------------------------------
   * The invariant of the table and the session's segments
   * --------------------------------------------------------------------- */

  type Table = map<int, WorkerInfo>
  type Segments = map<nat, Segment>

  /** Entry p is consistent with its segment and has not been marked detached. */
  ghost predicate Live(workers: Table, segments: Segments, p: int)
    requires p in workers
  {
    var w := workers[p];
    && w.pid == p
    && !w.detached
    && w.seg in segments
    && segments[w.seg] == Segment(w.mappingPinned, p)
    && w.mappingPinned == !w.consumed
  }

  /**
   * Every entry owns exactly one attached segment, whose callback names it;
   * the mapping is pinned exactly until the results are claimed; no live
   * entry is marked detached; segment numbers below nextSeg are used.
   */
  ghost predicate Consistent(workers: Table, segments: Segments, nextSeg: nat)
  {
    && (forall p :: p in workers ==> Live(workers, segments, p))
    && (forall s :: s in segments ==>
          s < nextSeg && segments[s].cleanupPid in workers && workers[segments[s].cleanupPid].seg == s)
  }

  /** Detaching an entry's segment, which removes the entry, keeps the table consistent. */
  lemma DropKeepsConsistent(workers: Table, segments: Segments, nextSeg: nat, pid: int)
    requires Consistent(workers, segments, nextSeg) && pid in workers
    ensures Consistent(workers - {pid}, segments - {workers[pid].seg}, nextSeg)
  {
    var w', s' := workers - {pid}, segments - {workers[pid].seg};
    forall p | p in w'
      ensures Live(w', s', p)
    {
      assert Live(workers, segments, p);
      assert segments[workers[p].seg].cleanupPid == p;
    }
  }

  /** The session's segments once the segment of pid's entry, if there is one, is detached. */
  function Retired(workers: Table, segments: Segments, pid: int): Segments
  {
    if pid in workers then segments - {workers[pid].seg} else segments
  }

  /**
   * Entering the entry of a new segment, once the old entry of the same pid,
   * if any, was detached, keeps the table consistent.
   */
  lemma EnterKeepsConsistent(workers: Table, segments: Segments, nextSeg: nat, info: WorkerInfo)
    requires Consistent(workers, segments, nextSeg)
    requires info.seg == nextSeg && !info.detached && info.mappingPinned == !info.consumed
    ensures Consistent(workers[info.pid := info],
                       Retired(workers, segments, info.pid)[info.seg := Segment(info.mappingPinned, info.pid)],
                       nextSeg + 1)
  {
    var pid := info.pid;
    var w1, s1 := workers - {pid}, Retired(workers, segments, pid);
    if pid in workers {
      DropKeepsConsistent(workers, segments, nextSeg, pid);
    } else {
      assert w1 == workers;
    }
    assert w1[pid := info] == workers[pid := info];
    var w', s' := w1[pid := info], s1[info.seg := Segment(info.mappingPinned, pid)];
    forall p | p in w'
      ensures Live(w', s', p)
    {
      if p != pid {
        assert Live(w1, s1, p);
      }
    }
    forall s | s in s' && s != info.seg
      ensures s < nextSeg + 1 && s'[s].cleanupPid in w' && w'[s'[s].cleanupPid].seg == s
    {
      assert s1[s].cleanupPid in w1;
    }
  }

  /** Claiming an entry's results, which unpins its mapping, keeps the table consistent. */
  lemma ClaimKeepsConsistent(workers: Table, segments: Segments, nextSeg: nat, pid: int)
    requires Consistent(workers, segments, nextSeg) && pid in workers && !workers[pid].consumed
    ensures var w := workers[pid];
            Consistent(workers[pid := w.(consumed := true, mappingPinned := false)],
                       segments[w.seg := Segment(false, pid)], nextSeg)
  {
    var w := workers[pid];
    var w', s' := workers[pid := w.(consumed := true, mappingPinned := false)], segments[w.seg := Segment(false, pid)];
    assert Live(workers, segments, pid);
    forall p | p in w'
      ensures Live(w', s', p)
    {
      if p != pid {
        assert Live(workers, segments, p);
        assert segments[workers[p].seg].cleanupPid == p;
      }
    }
  }

  /** Recording when an entry's worker was last heard from keeps the table consistent. */
  lemma StampKeepsConsistent(workers: Table, segments: Segments, nextSeg: nat, pid: int, lastMsgAt: int)
    requires Consistent(workers, segments, nextSeg) && pid in workers
    ensures Consistent(workers[pid := workers[pid].(lastMsgAt := lastMsgAt)], segments, nextSeg)
  {
    var w' := workers[pid := workers[pid].(lastMsgAt := lastMsgAt)];
    forall p | p in w'
      ensures Live(w', segments, p)
    {
      assert Live(workers, segments, p);
    }
  }

  /** Releasing the unpinned segments, which removes the claimed entries, keeps the table consistent. */
  lemma ReleaseKeepsConsistent(workers: Table, segments: Segments, nextSeg: nat)
    requires Consistent(workers, segments, nextSeg)
    ensures Consistent(map p | p in workers && !workers[p].consumed :: workers[p],
                       map s | s in segments && segments[s].pinned :: segments[s], nextSeg)
  {
    var w' := map p | p in workers && !workers[p].consumed :: workers[p];
    var s' := map s | s in segments && segments[s].pinned :: segments[s];
    forall p | p in w'
      ensures Live(w', s', p)
    {
      assert Live(workers, segments, p);
    }
    forall s | s in s'
      ensures s < nextSeg && s'[s].cleanupPid in w' && w'[s'[s].cleanupPid].seg == s
    {
      assert Live(workers, segments, segments[s].cleanupPid);
    }
  }

  /** A consistent session without entries is attached to no segment. */
  lemma NoEntriesNoSegments(workers: Table, segments: Segments, nextSeg: nat)
    requires Consistent(workers, segments, nextSeg) && workers == map[]
    ensures segments == map[]
  {
    if s :| s in segments {
      assert segments[s].cleanupPid in workers;
    }
  }

  /**
   * The first allocation of the pid buffer, or its doubling by repalloc once
   * it is full: a larger buffer holding the same first count pids.
   */
  method Grow(pids: array?<int>, count: nat) returns (grown: array<int>)
    requires pids == null ==> count == 0
    requires pids != null ==> count <= pids.Length
    ensures fresh(grown)
    ensures grown.Length == NextCapacity(if pids == null then 0 else pids.Length)
    ensures pids != null ==> grown[..count] == pids[..count]
  {
    grown := new int[NextCapacity(if pids == null then 0 else pids.Length)];
    if pids != null {
      forall j | 0 <= j < count {
        grown[j] := pids[j];
      }
    }
  }

  /** Stores v after the first count pids of the buffer. */
  method Store(pids: array<int>, count: nat, v: int)
    requires count < pids.Length
    modifies pids
    ensures pids[..count + 1] == old(pids[..count]) + [v]
    ensures pids[count + 1..] == old(pids[count + 1..])
  {
    pids[count] := v;
    assert pids[..count + 1] == pids[..count] + [v];
  }

  /** Once the entry of the i-th collected pid is gone, every entry left is among the pids after it. */
  lemma RemainingAfter(workers: Table, order: seq<int>, i: nat)
    requires i < |order|
    requires forall p :: p in workers ==> p in order[i..]
    ensures forall p :: p in workers - {order[i]} ==> p in order[i + 1..]
  {
    forall p | p in workers - {order[i]}
      ensures p in order[i + 1..]
    {
      assert p in order[i..];
      assert order[i..] == [order[i]] + order[i + 1..];
    }
  }

  /** Proof step for Pick, not a model of the source: a set is empty or has an element. */
  lemma EmptyOrHasElement(s: set<int>)
    ensures s == {} || exists y :: y in s
  {
    if forall y :: y !in s {
      assert s == {};
    }
  }

  /** Some element of a non-empty set: the next entry a sequential scan of the table returns. */
  method Pick(s: set<int>) returns (x: int)
    requires s != {}
    ensures x in s
  {
    EmptyOrHasElement(s);
    x :| x in s;
  }

  /** The session: its worker table and the segments it is attached to. */
  class Backend {
    /** Whether worker_hash has been created (it is created by the first launch). */
    var hashCreated: bool
    var workers: Table
    var segments: Segments
    /** A number no segment of the session has used yet. */
    var nextSeg: nat

    ghost predicate Valid()
      reads this
    {
      && (!hashCreated ==> workers == map[])
      && Consistent(workers, segments, nextSeg)
    }

    constructor()
      ensures Valid()
      ensures !hashCreated && workers == map[] && segments == map[]
    {
      hashCreated := false;
      workers := map[];
      segments := map[];
      nextSeg := 0;
    }

    /** find_worker_info. */
    function Find(pid: int): (r: Option<WorkerInfo>)
      reads this
      ensures r.Some? <==> hashCreated && pid in workers
      ensures r.Some? ==> r.value == workers[pid]
    {
      if hashCreated && pid in workers then Some(workers[pid]) else None
    }

    /**
     * The checks every entry point makes before it touches a worker: the pid
     * must be in the table, the caller must have the owner's privileges, and
     * a v2 call's cookie must match. cookie is None for the v1 entry points.
     */
    function Access(pid: int, cookie: Option<bv64>, user: Oid, privs: Privileges): (r: Result<WorkerInfo>)
      reads this
      ensures r.Ok? <==> hashCreated && pid in workers && privs(user, workers[pid].owner)
                         && (cookie.None? || cookie.value == workers[pid].cookie)
      ensures r.Ok? ==> r.value == workers[pid]
      ensures !(hashCreated && pid in workers) ==> r == Err(UndefinedObject(NotAttached))
      ensures hashCreated && pid in workers && !privs(user, workers[pid].owner) ==> r == Err(InsufficientPrivilege)
      ensures hashCreated && pid in workers && privs(user, workers[pid].owner) && r.Err?
              ==> r == Err(UndefinedObject(CookieMismatch))
    {
      match Find(pid)
      case None => Err(UndefinedObject(NotAttached))
      case Some(info) =>
        if CheckRights(info, user, privs).Fail? then Err(InsufficientPrivilege)
        else if cookie.Some? && ValidateV2(info.cookie, cookie.value).Fail? then Err(UndefinedObject(CookieMismatch))
        else Ok(info)
    }

    /** The checks of the first result call: access, then results not yet consumed. */
    function Claim(pid: int, cookie: Option<bv64>, user: Oid, privs: Privileges): (r: Result<WorkerInfo>)
      reads this
      ensures r.Ok? <==> Access(pid, cookie, user, privs).Ok? && !workers[pid].consumed
      ensures r.Ok? ==> r.value == workers[pid]
      ensures Access(pid, cookie, user, privs).Err? ==> r == Err(Access(pid, cookie, user, privs).code)
      ensures Access(pid, cookie, user, privs).Ok? && r.Err? ==> r == Err(UndefinedObject(AlreadyConsumed))
    {
      match Access(pid, cookie, user, privs)
      case Err(e) => Err(e)
      case Ok(info) => if info.consumed then Err(UndefinedObject(AlreadyConsumed)) else Ok(info)
    }

    /** A table entry for pid exists under a user other than user: the collision save_worker_info treats as fatal. */
    predicate Collides(pid: int, user: Oid)
      reads this
    {
      hashCreated && pid in workers && workers[pid].owner != user
    }

    /** cleanup_worker_info: the on-detach callback; removes the entry of pid if there is one. */
    method Cleanup(pid: int)
      modifies this
      ensures workers == if hashCreated then old(workers) - {pid} else old(workers)
      ensures hashCreated == old(hashCreated) && segments == old(segments) && nextSeg == old(nextSeg)
    {
      if !hashCreated {
        return;
      }
      if pid !in workers {
        assert workers - {pid} == workers;
        return;
      }
      workers := workers - {pid};
    }

    /** dsm_detach of one of the session's segments: the mapping goes away and its callback runs. */
    method DetachSegment(s: nat)
      requires s in segments
      modifies this
      ensures segments == old(segments) - {s}
      ensures workers == if hashCreated then old(workers) - {old(segments)[s].cleanupPid} else old(workers)
      ensures hashCreated == old(hashCreated) && nextSeg == old(nextSeg)
    {
      var pid := segments[s].cleanupPid;
      segments := segments - {s};
      Cleanup(pid);
    }

    /** Unpin the mapping of pid's segment if it is pinned, and record that it no longer is. */
    method UnpinMapping(pid: int)
      requires pid in workers && workers[pid].seg in segments
      modifies this
      ensures var w := old(workers)[pid];
              if w.mappingPinned then
                && workers == old(workers)[pid := w.(mappingPinned := false)]
                && segments == old(segments)[w.seg := old(segments)[w.seg].(pinned := false)]
              else workers == old(workers) && segments == old(segments)
      ensures hashCreated == old(hashCreated) && nextSeg == old(nextSeg)
    {
      var w := workers[pid];
      if w.mappingPinned {
        segments := segments[w.seg := segments[w.seg].(pinned := false)];
        workers := workers[pid := w.(mappingPinned := false)];
      }
    }

    /**
     * Unpin and detach the segment of a live entry, as detach, the end of a
     * result call and the exit clean-up do; the callback removes the entry.
     */
    method Retire(pid: int)
      requires Valid() && hashCreated && pid in workers
      modifies this
      ensures Valid()
      ensures workers == old(workers) - {pid} && segments == old(segments) - {old(workers)[pid].seg}
      ensures hashCreated == old(hashCreated) && nextSeg == old(nextSeg)
    {
      ghost var w0, s0 := workers, segments;
      var seg := workers[pid].seg;
      assert Live(w0, s0, pid);
      UnpinMapping(pid);
      DetachSegment(seg);
      DropKeepsConsistent(w0, s0, nextSeg, pid);
      assert segments == s0 - {seg};
      assert workers == w0 - {pid};
    }

    /**
     * save_worker_info: create the table on first use; a pid already in the
     * table under another user is fatal: the backend exits, and the exit hook
     * registered by _PG_init (OnExit) empties the table and detaches every
     * segment; under the same user the old entry's
     * segment is unpinned and detached, which removes the old entry; then
     * the new segment gets the clean-up callback and the new entry is made,
     * unconsumed, unpinned, not detached, started and last heard from now.
     */
    method SaveWorkerInfo(pid: int, cookie: bv64, seg: nat, user: Oid, now: int) returns (r: Outcome)
      requires Valid() && seg == nextSeg
      modifies this
      ensures hashCreated && nextSeg == old(nextSeg)
      ensures r.Fail? <==> old(Collides(pid, user))
      ensures r.Fail? ==> r.code == DuplicateObjectFatal && workers == map[] && segments == map[]
      ensures r.Pass? ==> workers == old(workers)[pid := WorkerInfo(pid, cookie, seg, user, false, false, now, now, false)]
      ensures r.Pass? ==> segments == Retired(old(workers), old(segments), pid)[seg := Segment(false, pid)]
    {
      if !hashCreated {
        hashCreated := true;
      }
      ghost var w0 := workers;
      if pid in workers {
        var info := workers[pid];
        if user != info.owner {
          OnExit();
          return Fail(DuplicateObjectFatal);
        }
        Retire(pid);
      }
      segments := segments[seg := Segment(false, pid)];
      workers := workers[pid := WorkerInfo(pid, cookie, seg, user, false, false, now, now, false)];
      assert pid in w0 ==> workers == w0[pid := WorkerInfo(pid, cookie, seg, user, false, false, now, now, false)];
      return Pass;
    }

    /**
     * launch_internal: the guardrails, the registration of the worker, its
     * start-up, the new entry and the pinning of its segment's mapping.
     * startup is what WaitForBackgroundWorkerStartup reports; a worker that
     * has already stopped leaves pid unassigned, whose value is unassignedPid.
     */
    method Launch(sqlLen: int, queueSize: int, mqMinimumSize: nat, cookie: bv64, registered: bool,
                  startup: HandleStatus, unassignedPid: int, user: Oid, now: int) returns (r: Result<int>)
      requires Valid()
      modifies this
      ensures Valid()
      ensures Guardrails(sqlLen, queueSize, mqMinimumSize).Fail?
              ==> r == Err(Guardrails(sqlLen, queueSize, mqMinimumSize).code)
      ensures Admissible(sqlLen, queueSize, mqMinimumSize) && !registered ==> r == Err(InsufficientResources)
      ensures Admissible(sqlLen, queueSize, mqMinimumSize) && registered && startup.PostmasterDied?
              ==> r == Err(InsufficientResources)
      ensures Admissible(sqlLen, queueSize, mqMinimumSize) && registered && startup.NotYetStarted?
              ==> r == Err(InternalError(UnexpectedStartupStatus))
      ensures r.Err? && r.code != DuplicateObjectFatal ==> unchanged(this)
      ensures var pid := StartedPid(startup, unassignedPid);
              && (r == Err(DuplicateObjectFatal)
                  <==> Admissible(sqlLen, queueSize, mqMinimumSize) && registered
                       && (startup.Started? || startup.Stopped?) && old(Collides(pid, user)))
              && (r == Err(DuplicateObjectFatal) ==> workers == map[] && segments == map[] && nextSeg == old(nextSeg))
              && (r.Ok? <==> Admissible(sqlLen, queueSize, mqMinimumSize) && registered
                             && (startup.Started? || startup.Stopped?) && !old(Collides(pid, user)))
              && (r.Ok? ==> r.value == pid && hashCreated && nextSeg == old(nextSeg) + 1)
              && (r.Ok? ==> workers == old(workers)[pid := WorkerInfo(pid, cookie, old(nextSeg), user, false, true, now, now, false)])
              && (r.Ok? ==> segments == Retired(old(workers), old(segments), pid)[old(nextSeg) := Segment(true, pid)])
    {
      var guard := Guardrails(sqlLen, queueSize, mqMinimumSize);
      if guard.Fail? {
        return Err(guard.code);
      }
      if !registered {
        return Err(InsufficientResources);
      }
      var pid: int;
      match startup {
        case Started(p) =>
          pid := p;
        case Stopped =>
          pid := unassignedPid;
        case PostmasterDied =>
          return Err(InsufficientResources);
        case NotYetStarted =>
          return Err(InternalError(UnexpectedStartupStatus));
      }
      ghost var w0, s0 := workers, segments;
      var seg := nextSeg;
      var saved := SaveWorkerInfo(pid, cookie, seg, user, now);
      if saved.Fail? {
        return Err(saved.code);
      }
      segments := segments[seg := segments[seg].(pinned := true)];
      var info := Find(pid);
      if info.Some? {
        workers := workers[pid := info.value.(mappingPinned := true)];
      }
      nextSeg := nextSeg + 1;
      ghost var entry := WorkerInfo(pid, cookie, seg, user, false, true, now, now, false);
      EnterKeepsConsistent(w0, s0, seg, entry);
      assert workers == w0[pid := entry];
      assert segments == Retired(w0, s0, pid)[seg := Segment(true, pid)];
      return Ok(pid);
    }

    /** pg_background_launch: a launch whose entry stores cookie 0. */
    method LaunchV1(sqlLen: int, queueSize: int, mqMinimumSize: nat, registered: bool, startup: HandleStatus,
                    unassignedPid: int, user: Oid, now: int) returns (r: Result<int>)
      requires Valid()
      modifies this
      ensures Valid()
      ensures Guardrails(sqlLen, queueSize, mqMinimumSize).Fail?
              ==> r == Err(Guardrails(sqlLen, queueSize, mqMinimumSize).code)
      ensures r.Err? && r.code != DuplicateObjectFatal ==> unchanged(this)
      ensures var pid := StartedPid(startup, unassignedPid);
              && (r == Err(DuplicateObjectFatal)
                  <==> Admissible(sqlLen, queueSize, mqMinimumSize) && registered
                       && (startup.Started? || startup.Stopped?) && old(Collides(pid, user)))
              && (r == Err(DuplicateObjectFatal) ==> workers == map[] && segments == map[])
              && (r.Ok? <==> Admissible(sqlLen, queueSize, mqMinimumSize) && registered
                             && (startup.Started? || startup.Stopped?) && !old(Collides(pid, user)))
              && (r.Ok? ==> r.value == pid && hashCreated && nextSeg == old(nextSeg) + 1)
              && (r.Ok? ==> workers == old(workers)[pid := WorkerInfo(pid, 0, old(nextSeg), user, false, true, now, now, false)])
              && (r.Ok? ==> segments == Retired(old(workers), old(segments), pid)[old(nextSeg) := Segment(true, pid)])
    {
      r := Launch(sqlLen, queueSize, mqMinimumSize, 0, registered, startup, unassignedPid, user, now);
    }

    /**
     * pg_background_launch_v2: a launch with a fresh cookie, returned with
     * the pid; a call site that cannot take a row is refused after the
     * worker was launched.
     */
    method LaunchV2(sqlLen: int, queueSize: int, mqMinimumSize: nat, clock: bv64, procPid: bv64, procAddress: bv64,
                    registered: bool, startup: HandleStatus, unassignedPid: int, user: Oid, now: int, composite: bool)
      returns (r: Result<(int, bv64)>)
      requires Valid()
      requires SignExtendedInt32(procPid)
      modifies this
      ensures Valid()
      ensures Guardrails(sqlLen, queueSize, mqMinimumSize).Fail?
              ==> r == Err(Guardrails(sqlLen, queueSize, mqMinimumSize).code)
      ensures var pid := StartedPid(startup, unassignedPid);
              var cookie := MakeCookie(clock, procPid, procAddress);
              var launched := Admissible(sqlLen, queueSize, mqMinimumSize) && registered
                              && (startup.Started? || startup.Stopped?) && !old(Collides(pid, user));
              && (r == Err(DuplicateObjectFatal)
                  <==> Admissible(sqlLen, queueSize, mqMinimumSize) && registered
                       && (startup.Started? || startup.Stopped?) && old(Collides(pid, user)))
              && (r == Err(DuplicateObjectFatal) ==> workers == map[] && segments == map[])
              && (!launched && r != Err(DuplicateObjectFatal) ==> r.Err? && unchanged(this))
              && (r.Ok? <==> launched && composite)
              && (r.Ok? ==> r.value == (pid, cookie) && cookie != 0)
              && (launched && !composite ==> r == Err(FeatureNotSupported))
              && (launched ==> nextSeg == old(nextSeg) + 1)
              && (launched ==> workers == old(workers)[pid := WorkerInfo(pid, cookie, old(nextSeg), user, false, true, now, now, false)])
              && (launched ==> segments == Retired(old(workers), old(segments), pid)[old(nextSeg) := Segment(true, pid)])
    {
      var cookie := MakeCookie(clock, procPid, procAddress);
      var launched := Launch(sqlLen, queueSize, mqMinimumSize, cookie, registered, startup, unassignedPid, user, now);
      if launched.Err? {
        return Err(launched.code);
      }
      if !composite {
        return Err(FeatureNotSupported);
      }
      return Ok((launched.value, cookie));
    }

    /**
     * pg_background_detach and pg_background_detach_v2: after the checks the
     * entry is marked detached, its mapping unpinned and its segment
     * detached, which removes the entry. The worker is not cancelled.
     */
    method Detach(pid: int, cookie: Option<bv64>, user: Oid, privs: Privileges) returns (r: Outcome)
      requires Valid()
      modifies this
      ensures Valid()
      ensures r.Pass? <==> old(Access(pid, cookie, user, privs)).Ok?
      ensures r.Fail? ==> r.code == old(Access(pid, cookie, user, privs)).code && unchanged(this)
      ensures r.Pass? ==> && workers == old(workers) - {pid}
                          && segments == old(segments) - {old(workers)[pid].seg}
                          && hashCreated == old(hashCreated) && nextSeg == old(nextSeg)
    {
      var access := Access(pid, cookie, user, privs);
      if access.Err? {
        return Fail(access.code);
      }
      ghost var w0, s0 := workers, segments;
      var info := access.value;
      assert Live(w0, s0, pid);
      workers := workers[pid := info.(detached := true)];
      UnpinMapping(pid);
      DetachSegment(info.seg);
      DropKeepsConsistent(w0, s0, nextSeg, pid);
      assert segments == s0 - {info.seg};
      assert workers == w0 - {pid};
      return Pass;
    }

    /**
     * The part of a result call after the claim that reads the queue: the
     * result type, the receive functions of its columns, the receive loop.
     */
    method ReadResults(composite: bool, expected: seq<Oid>, catalog: Catalog, parseNotice: NoticeParser,
                       msgs: seq<seq<byte>>) returns (f: Fetched)
      ensures f == ClaimedResult(composite, expected, catalog, parseNotice, msgs)
      ensures f.processed <= |msgs|
    {
      if !composite {
        return Fetched([], 0, Fail(FeatureNotSupported));
      }
      var receivers := LookupReceivers(expected, catalog);
      if receivers.Fail? {
        return Fetched([], 0, Fail(receivers.code));
      }
      f := DrainQueue(msgs, expected, catalog, parseNotice);
      DrainCounts(Initial, msgs, 0, expected, catalog, parseNotice);
    }

    /**
     * A result call once its checks have passed: the claim (consumed, mapping
     * unpinned); the result type, receive functions and receive loop, with
     * one clock reading per message taken; on success the segment is
     * detached, which removes the entry. After an error the claimed entry
     * stays until the transaction ends.
     */
    method ClaimedCall(pid: int, composite: bool, expected: seq<Oid>, catalog: Catalog, parseNotice: NoticeParser,
                       msgs: seq<seq<byte>>, times: seq<int>) returns (f: Fetched)
      requires Valid() && hashCreated && pid in workers && !workers[pid].consumed
      requires |times| == |msgs|
      modifies this
      ensures Valid() && hashCreated && nextSeg == old(nextSeg)
      ensures f == ClaimedResult(composite, expected, catalog, parseNotice, msgs) && f.processed <= |times|
      ensures f.outcome.Pass? ==> workers == old(workers) - {pid} && segments == old(segments) - {old(workers)[pid].seg}
      ensures f.outcome.Fail?
              ==> && workers == old(workers)[pid := old(workers)[pid].(consumed := true, mappingPinned := false,
                                         lastMsgAt := LastMessageAt(old(workers)[pid].lastMsgAt, times, f.processed))]
                  && segments == old(segments)[old(workers)[pid].seg := Segment(false, pid)]
    {
      var info := workers[pid];
      MarkConsumed(pid);
      f := ReadResults(composite, expected, catalog, parseNotice, msgs);
      var last := LastMessageAt(info.lastMsgAt, times, f.processed);
      StampKeepsConsistent(workers, segments, nextSeg, pid, last);
      workers := workers[pid := workers[pid].(lastMsgAt := last)];
      if f.outcome.Pass? {
        Retire(pid);
      }
    }

    /** The claim of a result call: the entry is marked consumed and its mapping unpinned. */
    method MarkConsumed(pid: int)
      requires Valid() && hashCreated && pid in workers && !workers[pid].consumed
      modifies this
      ensures Valid() && hashCreated && nextSeg == old(nextSeg)
      ensures workers == old(workers)[pid := old(workers)[pid].(consumed := true, mappingPinned := false)]
      ensures segments == old(segments)[old(workers)[pid].seg := Segment(false, pid)]
    {
      ghost var w0, s0 := workers, segments;
      var info := workers[pid];
      assert Live(w0, s0, pid);
      workers := workers[pid := info.(consumed := true)];
      UnpinMapping(pid);
      ClaimKeepsConsistent(w0, s0, nextSeg, pid);
    }

    /**
     * pg_background_result and pg_background_result_v2, from the first call
     * to the last: the checks, then the claimed call. The results can be
     * claimed once: afterwards the pid is either gone or consumed.
     */
    method Result(pid: int, cookie: Option<bv64>, user: Oid, privs: Privileges, composite: bool,
                  expected: seq<Oid>, catalog: Catalog, parseNotice: NoticeParser,
                  msgs: seq<seq<byte>>, times: seq<int>) returns (f: Fetched)
      requires Valid()
      requires |times| == |msgs|
      modifies this
      ensures Valid()
      ensures old(Claim(pid, cookie, user, privs)).Err?
              ==> f == Fetched([], 0, Fail(old(Claim(pid, cookie, user, privs)).code)) && unchanged(this)
      ensures old(Claim(pid, cookie, user, privs)).Ok?
              ==> && f == ClaimedResult(composite, expected, catalog, parseNotice, msgs)
                  && f.processed <= |times| && hashCreated && nextSeg == old(nextSeg)
                  && (f.outcome.Pass? ==> workers == old(workers) - {pid} && segments == old(segments) - {old(workers)[pid].seg})
                  && (f.outcome.Fail?
                      ==> && workers == old(workers)[pid := old(workers)[pid].(consumed := true, mappingPinned := false,
                                                 lastMsgAt := LastMessageAt(old(workers)[pid].lastMsgAt, times, f.processed))]
                          && segments == old(segments)[old(workers)[pid].seg := Segment(false, pid)])
                  && (f.outcome.Pass? ==> pid !in workers)
                  && (f.outcome.Fail? ==> pid in workers && workers[pid].consumed)
                  && Claim(pid, cookie, user, privs).Err?
                  && Claim(pid, cookie, user, privs).code.UndefinedObject?
    {
      var access := Access(pid, cookie, user, privs);
      if access.Err? {
        return Fetched([], 0, Fail(access.code));
      }
      if access.value.consumed {
        return Fetched([], 0, Fail(UndefinedObject(AlreadyConsumed)));
      }
      f := ClaimedCall(pid, composite, expected, catalog, parseNotice, msgs, times);
    }

    /**
     * The end of the transaction: the resource owner releases every segment
     * whose mapping is not pinned, and their callbacks remove the entries
     * whose results were claimed.
     */
    method ReleaseAtTransactionEnd()
      requires Valid()
      modifies this
      ensures Valid()
      ensures workers == map p | p in old(workers) && !old(workers)[p].consumed :: old(workers)[p]
      ensures segments == map s | s in old(segments) && old(segments)[s].pinned :: old(segments)[s]
      ensures hashCreated == old(hashCreated) && nextSeg == old(nextSeg)
    {
      ReleaseKeepsConsistent(workers, segments, nextSeg);
      workers := map p | p in workers && !workers[p].consumed :: workers[p];
      segments := map s | s in segments && segments[s].pinned :: segments[s];
    }

    /**
     * pg_background_status_v2: after the checks, the pid, the state name,
     * and the times the worker was started and last heard from. handle is
     * what GetBackgroundWorkerPid reports for the worker.
     */
    function Status(pid: int, cookie: bv64, user: Oid, privs: Privileges, composite: bool, handle: HandleStatus)
      : (r: Result<StatusRow>)
      reads this
      ensures r.Ok? <==> Access(pid, Some(cookie), user, privs).Ok? && composite
      ensures Access(pid, Some(cookie), user, privs).Err? ==> r == Err(Access(pid, Some(cookie), user, privs).code)
      ensures r.Ok? ==> r.value.pid == pid && r.value.startedAt == workers[pid].startedAt
                        && r.value.lastMsgAt == workers[pid].lastMsgAt
    {
      match Access(pid, Some(cookie), user, privs)
      case Err(e) => Err(e)
      case Ok(info) =>
        if !composite then Err(FeatureNotSupported)
        else Ok(StatusRow(pid, StatusName(info.detached, WorkerState(Some(handle))), info.startedAt, info.lastMsgAt))
    }

    /** pg_background_wait_v2: after the checks, the polling loop. */
    method Wait(pid: int, cookie: bv64, user: Oid, privs: Privileges, timeoutMs: int, polls: seq<Poll>)
      returns (r: Result<Option<bool>>)
      ensures Access(pid, Some(cookie), user, privs).Err? ==> r == Err(Access(pid, Some(cookie), user, privs).code)
      ensures Access(pid, Some(cookie), user, privs).Ok? ==> r == Ok(WaitOutcome(timeoutMs, polls))
    {
      var access := Access(pid, Some(cookie), user, privs);
      if access.Err? {
        return Err(access.code);
      }
      var outcome := WaitLoop(timeoutMs, polls);
      return Ok(outcome);
    }

    /**
     * pg_background_cancel and pg_background_cancel_v2: after the checks,
     * the signals. first is the handle's status when the procedure starts.
     */
    method Cancel(pid: int, cookie: Option<bv64>, user: Oid, privs: Privileges, graceMs: int,
                  first: HandleStatus, probes: seq<Probe>) returns (r: Result<CancelRun>)
      ensures Access(pid, cookie, user, privs).Err? ==> r == Err(Access(pid, cookie, user, privs).code)
      ensures Access(pid, cookie, user, privs).Ok? ==> r == Ok(CancelSignals(graceMs, first, probes))
    {
      var access := Access(pid, cookie, user, privs);
      if access.Err? {
        return Err(access.code);
      }
      var run := CancelLoop(graceMs, first, probes);
      return Ok(run);
    }

    /**
     * The first pass of pg_background_on_exit: scan the table and store each
     * entry's pid in a buffer that starts empty, holds 16 at first and
     * doubles when full. The buffer is allocated on its first growth (see
     * OnExitAsWrittenRepallocsNull).
     */
    method CollectPids() returns (pids: array?<int>, count: nat, ghost order: seq<int>)
      requires forall p :: p in workers ==> workers[p].pid == p
      ensures count == |order|
      ensures Collected(count, false) == if pids == null then (Unallocated, 0) else (Chunk(pids.Length), pids.Length)
      ensures count > 0 ==> pids != null
      ensures pids != null ==> fresh(pids) && count <= pids.Length && pids[..count] == order
      ensures forall p :: p in workers <==> p in order
    {
      pids := null;
      count := 0;
      var cap := 0;
      order := [];
      var remaining := workers.Keys;
      while remaining != {}
        invariant remaining <= workers.Keys
        invariant forall p :: p in workers ==> p in remaining || p in order
        invariant forall p :: p in order ==> p in workers
        invariant count == |order| <= cap
        invariant Collected(count, false) == (if pids == null then Unallocated else Chunk(cap), cap)
        invariant pids != null ==> fresh(pids) && pids.Length == cap && pids[..count] == order
        decreases |remaining|
      {
        var p := Pick(remaining);
        CollectedHoldsAll(count);
        if cap == count {
          pids := Grow(pids, count);
          cap := pids.Length;
        }
        CollectedHoldsAll(count + 1);
        Store(pids, count, workers[p].pid);
        count := count + 1;
        order := order + [p];
        remaining := remaining - {p};
      }
      CollectedHoldsAll(count);
    }

    /**
     * pg_background_on_exit: collect the pids of the table, then, for each
     * pid still in the table, unpin its mapping and detach its segment. The
     * session ends attached to nothing and with an empty table.
     */
    method OnExit()
      requires Valid()
      modifies this
      ensures Valid()
      ensures workers == map[] && segments == map[]
      ensures hashCreated == old(hashCreated) && nextSeg == old(nextSeg)
    {
      if !hashCreated {
        NoEntriesNoSegments(workers, segments, nextSeg);
        return;
      }
      forall p | p in workers
        ensures workers[p].pid == p
      {
        assert Live(workers, segments, p);
      }
      var pids, count, order := CollectPids();
      var i := 0;
      while i < count
        invariant 0 <= i <= count == |order|
        invariant count > 0 ==> pids != null && count <= pids.Length && pids[..count] == order
        invariant forall p :: p in workers ==> p in order[i..]
        invariant Valid() && hashCreated && nextSeg == old(nextSeg)
      {
        var pid := pids[i];
        assert pid == order[i];
        RemainingAfter(workers, order, i);
        var info := Find(pid);
        if info.Some? {
          Retire(pid);
        } else {
          assert workers - {pid} == workers;
        }
        i := i + 1;
      }
      assert workers == map[] by {
        if forall p :: p !in workers {
          assert workers.Keys == {};
        }
      }
      NoEntriesNoSegments(workers, segments, nextSeg);
    }
  }

  /**
   * The state column never reads "detached": detaching removes the entry
   * in the same call, so every entry the status function can see is live.
   * It reads "complete" exactly when the worker is reported stopped.
   */
  lemma StatusNeverDetached(b: Backend, pid: int, cookie: bv64, user: Oid, privs: Privileges, composite: bool,
                            handle: HandleStatus)
    requires b.Valid()
    ensures var r := b.Status(pid, cookie, user, privs, composite, handle);
            r.Ok? ==> r.value.state != "detached" && (r.value.state == "complete" <==> handle == Stopped)
  {
    var r := b.Status(pid, cookie, user, privs, composite, handle);
    if r.Ok? {
      assert Live(b.workers, b.segments, pid);
    }
  }
}
