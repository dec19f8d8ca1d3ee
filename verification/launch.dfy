/**
 * The pure parts of launching a worker: the size guardrails checked before any
 * shared memory is created, the v2 identity cookie, and the cookie comparison
 * every v2 entry point applies after finding the worker.
 */
module Launch {
  import opened Base

  /** PG_BACKGROUND_MAX_SQL_LEN: 4 MiB. */
  const MaxSqlLen: int := 4 * 1024 * 1024
  /** PG_BACKGROUND_MAX_QUEUE_SIZE: 16 MiB. */
  const MaxQueueSize: int := 16 * 1024 * 1024

  /** Whether launch_internal lets a request of this size through. */
  predicate Admissible(sqlLen: int, queueSize: int, mqMinimumSize: nat)
  {
    0 < sqlLen <= MaxSqlLen && 0 <= queueSize && mqMinimumSize <= queueSize <= MaxQueueSize
  }

  /**
   * The guardrails of launch_internal, checked in the source's order: empty
   * SQL, oversized SQL, a negative or too-small queue, an oversized queue.
   * mqMinimumSize is shm_mq_minimum_size, a constant of PostgreSQL core.
   */
  function Guardrails(sqlLen: int, queueSize: int, mqMinimumSize: nat): (r: Outcome)
    ensures r.Pass? <==> Admissible(sqlLen, queueSize, mqMinimumSize)
    ensures sqlLen <= 0 ==> r == Fail(InvalidParameterValue)
    ensures sqlLen > MaxSqlLen ==> r == Fail(ProgramLimitExceeded)
    ensures 0 < sqlLen <= MaxSqlLen && (queueSize < 0 || queueSize < mqMinimumSize) ==> r == Fail(InvalidParameterValue)
    ensures 0 < sqlLen <= MaxSqlLen && mqMinimumSize <= queueSize && queueSize > MaxQueueSize ==> r == Fail(ProgramLimitExceeded)
  {
    if sqlLen <= 0 then Fail(InvalidParameterValue)
    else if sqlLen > MaxSqlLen then Fail(ProgramLimitExceeded)
    else if queueSize < 0 || queueSize < mqMinimumSize then Fail(InvalidParameterValue)
    else if queueSize > MaxQueueSize then Fail(ProgramLimitExceeded)
    else Pass
  }

  /** The limits are inclusive: exactly 4 MiB of SQL and a 16 MiB queue are accepted, one byte more is not. */
  lemma GuardrailBoundaries(mqMinimumSize: nat)
    requires mqMinimumSize <= MaxQueueSize
    ensures Guardrails(MaxSqlLen, MaxQueueSize, mqMinimumSize) == Pass
    ensures Guardrails(MaxSqlLen + 1, MaxQueueSize, mqMinimumSize) == Fail(ProgramLimitExceeded)
    ensures Guardrails(MaxSqlLen, MaxQueueSize + 1, mqMinimumSize) == Fail(ProgramLimitExceeded)
    ensures Guardrails(1, mqMinimumSize, mqMinimumSize) == Pass
    ensures mqMinimumSize > 0 ==> Guardrails(1, mqMinimumSize - 1, mqMinimumSize) == Fail(InvalidParameterValue)
    ensures Guardrails(0, mqMinimumSize, mqMinimumSize) == Fail(InvalidParameterValue)
  {
  }

  /**
   * Whether p is a C int (pid_t) cast to uint64: a 32-bit value sign-extended,
   * so its top 33 bits are all equal.
   */
  predicate SignExtendedInt32(p: bv64)
  {
    p >> 31 == 0 || p >> 31 == 0x1_FFFF_FFFF
  }

  /** The golden-ratio constant used when the mixed value happens to be zero. */
  const CookieFallback: bv64 := 0x9e37_79b9_7f4a_7c15

  /**
   * pg_background_make_cookie: the clock reading, shifted both ways, xor the
   * backend's pid and the address of its PGPROC; a zero result is replaced by
   * the fallback constant xor the pid. The clock reading, the pid and the
   * address are inputs, each as the 64 bits of its uint64 cast.
   */
  function MakeCookie(now: bv64, procPid: bv64, procAddress: bv64): (c: bv64)
    requires SignExtendedInt32(procPid)
    ensures c != 0
  {
    var mixed := (now << 17) ^ (now >> 13) ^ procPid ^ procAddress;
    if mixed == 0 then
      FallbackNonZero(procPid);
      CookieFallback ^ procPid
    else mixed
  }

  /** The fallback is never zero: the top half of the constant is neither all zeros nor all ones. */
  lemma FallbackNonZero(procPid: bv64)
    requires SignExtendedInt32(procPid)
    ensures CookieFallback ^ procPid != 0
  {
    if procPid >> 31 == 0 {
      assert (CookieFallback ^ procPid) >> 32 == 0x9e37_79b9;
    } else {
      assert (CookieFallback ^ procPid) >> 32 == 0x9e37_79b9 ^ 0xFFFF_FFFF;
    }
  }

  /**
   * pgbg_validate_v2: the stored uint64 cookie must equal the caller's int64
   * cookie cast to uint64. Both casts keep the 64 bits, so the model compares
   * the bits; a mismatch is reported as an undefined object, the code used
   * for an unknown pid.
   */
  function ValidateV2(stored: bv64, cookieIn: bv64): (r: Outcome)
    ensures r.Pass? <==> cookieIn == stored
    ensures r.Fail? ==> r.code == UndefinedObject(CookieMismatch)
  {
    Need(stored == cookieIn, UndefinedObject(CookieMismatch))
  }

  /**
   * A v1 launch stores cookie 0, so only the v2 cookie 0 reaches a v1 entry,
   * and no v2 cookie is 0: the v1 cookie never reaches a v2 entry.
   */
  lemma CookieZeroSeparatesV1(now: bv64, procPid: bv64, procAddress: bv64)
    requires SignExtendedInt32(procPid)
    ensures ValidateV2(0, 0) == Pass
    ensures ValidateV2(MakeCookie(now, procPid, procAddress), 0).Fail?
  {
  }
}
