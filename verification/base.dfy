/**
 * Values shared by every part of the pg_background model: bytes, PostgreSQL
 * object identifiers, optional values and the error conditions the extension
 * raises with ereport/elog.
 */
module Base {

  /** One octet of a protocol message. */
  type byte = b: int | 0 <= b < 256

  /** A PostgreSQL object identifier (unsigned 32-bit). */
  type Oid = o: int | 0 <= o < 0x1_0000_0000

  /** TEXTOID: the type used as the fallback for columns without a binary receive function. */
  const TextOid: Oid := 25

  predicate IsInt16(x: int) { -0x8000 <= x < 0x8000 }
  predicate IsInt32(x: int) { -0x8000_0000 <= x < 0x8000_0000 }

  datatype Option<+T> = None | Some(value: T)

  /** Why a worker could not be addressed; all are reported as an undefined object. */
  datatype Unaddressable = NotAttached | CookieMismatch | AlreadyConsumed

  /** The internal errors raised with a bare elog(ERROR, ...). */
  datatype Internal =
    | MultipleRowDescription
    | DataRowWithoutRowDescription
    | MalformedDataRow
    | TypeCacheLookupFailed
    | UnexpectedStartupStatus

  /**
   * The message variants raised as a protocol violation by the pq_getmsg
   * readers: pq_getmsgbyte on an empty message has no data left, the
   * multi-byte readers have too little, a string lacks its terminator, or
   * bytes remain at the end.
   */
  datatype Violation = NoDataLeft | InsufficientData | InvalidString | InvalidMessageFormat

  /** The message variants raised as a datatype mismatch. */
  datatype Mismatch = RowTypeMismatch | UseTextInstead | NoResultSet

  /** The error conditions; each constructor names the SQLSTATE the source raises. */
  datatype Code =
    | InvalidParameterValue
    | ProgramLimitExceeded
    | InsufficientResources
    | InternalError(internal: Internal)
    | UndefinedObject(why: Unaddressable)
    | InsufficientPrivilege
    | DuplicateObjectFatal
    | DatatypeMismatch(mismatch: Mismatch)
    | FeatureNotSupported
    | ConnectionFailure
    | ProtocolViolation(violation: Violation)
    | UndefinedFunction
    | RemoteError(report: seq<byte>)

  /** The outcome of an operation that may raise an error. */
  datatype Result<+T> = Ok(value: T) | Err(code: Code) {
    predicate IsFailure() { Err? }
    function PropagateFailure<U>(): Result<U> requires Err? { Err(code) }
    function Extract(): T requires Ok? { value }
  }

  /** The outcome of a check that yields no value. */
  datatype Outcome = Pass | Fail(code: Code) {
    predicate IsFailure() { Fail? }
    function PropagateFailure<U>(): Result<U> requires Fail? { Err(code) }
  }

  function Need(condition: bool, code: Code): (r: Outcome)
    ensures r.Pass? <==> condition
  {
    if condition then Pass else Fail(code)
  }
}
