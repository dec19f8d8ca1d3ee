# pg_background: a Dafny model of the controller side

pg_background is a PostgreSQL extension. A session hands a SQL string to a
dynamic background worker and later reads the results back over a
shared-memory message queue. This project models the controller (launching
backend) side of `pg_background.c` and proves properties of it:

- **Launch** (`launch.dfy`): the size guardrails checked before any shared
  memory is created, the v2 identity cookie, and the cookie comparison
  applied by every v2 entry point.
- **Wire** (`wire.dfy`): the protocol message readers the decoder relies on
  (`pq_getmsgint`, `pq_getmsgbytes`, `pq_getmsgstring`, `pq_getmsgend`). They
  are modelled as a big-endian cursor over the unread bytes that fails on
  overrun, and each reader is proved against its writer.
- **Stream** (`stream.dfy`): the receive loop of `pg_background_result` and
  `form_result_tuple`.
  - It is a state machine over `has_row_description`, `command_tags` and
    `complete`.
  - It is given once as a specification function (`Fetch`) and once as the
    loop that implements it (`DrainQueue`).
- **Frames** (`frames.dfy`): the messages a worker sends (RowDescription,
  DataRow, CommandComplete, ReadyForQuery), laid out as PostgreSQL
  frontend/backend protocol 3.0 ("Message Formats") prescribes. The decoder is
  proved against them:
  - rows are read back as sent;
  - a RowDescription is accepted exactly when it matches the expected row type;
  - a well-formed result is returned whole;
  - a statement without a result set returns its command tags as rows.
- **Lifecycle** (`lifecycle.dfy`): the worker state read from the
  background-worker handle, the status string, and the polling loops of
  `pg_background_wait_v2` and `pgbg_send_cancel_signals`. The supervisor's
  answers and the clock are given as sequences of observations.
- **Registry** (`registry.dfy`): the session's worker table (`worker_hash`)
  and the segments it is attached to, as a class `Backend` whose methods are
  the SQL-callable entry points. The invariant `Consistent` ties each entry to
  its own segment, whose on-detach callback removes that entry. Every method
  preserves it.

Where the code and its documentation differ, the model follows the code:

- When no RowDescription arrives, every collected command tag is returned
  as a row, front of the list first. It is not one row built from the last
  tag.
- A cookie mismatch is reported with the same SQLSTATE (undefined object) as
  an unknown pid, but with a different message text.
- The status column can never read "detached". Detaching sets the flag and
  then detaches the segment in the same call, and the segment's callback
  removes the entry, so no later call can see the flag (`StatusNeverDetached`).
- `WaitForBackgroundWorkerStartup` may report a worker that has already
  stopped. In that case `launch_internal` goes on with a `pid` it never
  assigned. The model takes that value as the input `unassignedPid`.
- After a result call that raised an error, the claimed entry is not removed
  by the call. Its mapping is already unpinned, so the segment is released,
  and the entry removed, when the transaction ends
  (`ReleaseAtTransactionEnd`).

## Model

| member | source | states |
|---|---|---|
| `Launch.Guardrails` | pg_background.c:222-241 | Passes exactly for 0 < SQL length <= 4 MiB and shm_mq_minimum_size <= queue size <= 16 MiB. Each failing check gives its SQLSTATE in source order: empty SQL is an invalid parameter, oversized SQL exceeds a program limit, a negative or too-small queue is an invalid parameter, an oversized queue exceeds a program limit. |
| `Launch.GuardrailBoundaries` | pg_background.c:59-60 | Both limits are inclusive. Exactly 4 MiB of SQL and a 16 MiB queue are accepted; one byte more is refused. The queue minimum is inclusive too. An empty SQL string is refused. |
| `Launch.MakeCookie` | pg_background.c:189-197 | The cookie is never 0, for any clock reading, pid and PGPROC address. |
| `Launch.FallbackNonZero` | pg_background.c:194-195 | The fallback constant xor any sign-extended 32-bit pid is non-zero. |
| `Launch.ValidateV2` | pg_background.c:1110-1117 | Passes exactly when the caller's cookie equals the stored one. A mismatch is an undefined-object error. |
| `Launch.CookieZeroSeparatesV1` | pg_background.c:361-369 | A v1 entry stores cookie 0. Cookie 0 validates against it, and no minted v2 cookie does. |
| `Wire.GetUInt` | pg_background.c:637-642 | A 2- or 4-byte read succeeds exactly when enough bytes remain, and is otherwise an insufficient-data protocol violation. The value is below 2^16 or 2^32, and the cursor moves past the bytes read. |
| `Wire.GetInt16` | pg_background.c:620 | The int16 column count is read when 2 bytes remain. The value is a C int16, and the cursor moves 2 bytes. |
| `Wire.GetInt32` | pg_background.c:921 | The int32 field length is read when 4 bytes remain. The value is a C int32, and the cursor moves 4 bytes. |
| `Wire.GetOid` | pg_background.c:639 | The type oid is read when 4 bytes remain, and the cursor moves 4 bytes. |
| `Wire.GetBytes` | pg_background.c:934 | Succeeds exactly when 0 <= n <= remaining bytes. The bytes returned followed by the new cursor are the old cursor, and exactly n bytes are returned. |
| `Wire.GetString` | pg_background.c:673 | Succeeds exactly when a zero byte remains in the message. The string has no zero byte, and the string, its terminator and the new cursor make up the old cursor. |
| `Wire.GetEnd` | pg_background.c:943 | Passes exactly when no bytes are left, and is otherwise an invalid-message-format violation. |
| `Wire.GetUIntOfEncode` | pg_background.c:637-642 | Reading an n-byte big-endian encoding returns the value and leaves what follows. |
| `Wire.GetInt16OfEncode` | pg_background.c:620 | Round trip of an int16 through its two-byte network representation, negative values included. |
| `Wire.GetInt32OfEncode` | pg_background.c:921-923 | Round trip of an int32 through its four-byte network representation, so the length -1 is read back as -1. |
| `Wire.GetOidOfEncode` | pg_background.c:639 | Round trip of an oid through its four-byte network representation. |
| `Wire.GetStringOfCString` | pg_background.c:636 | A NUL-terminated string is read back whole, and the cursor moves past its terminator. |
| `Stream.CapAtError` | pg_background.c:603-604 | The re-raised level is never above ERROR. Levels up to ERROR are kept, and FATAL and PANIC become ERROR. |
| `Stream.CheckColumnType` | pg_background.c:644-657 | Accepts exactly when the remote type has a binary receive function and equals the expected type, or has none and the expected type is text. An unknown type is a cache-lookup failure; any other refusal is a datatype mismatch. |
| `Stream.RowDescription` | pg_background.c:618-662 | An accepted RowDescription only sets has_row_description. |
| `Stream.ReadRowDescription` | pg_background.c:618-662 | The column loop over the message returns exactly what the RowDescription specification returns, error included. |
| `Stream.DataRowSpec` | pg_background.c:897-945 | A parsed DataRow has exactly the expected number of columns. |
| `Stream.FormResultTuple` | pg_background.c:897-945 | The column loop over the message cursor returns exactly what the DataRow specification returns, error included. |
| `Stream.StepExtends` | pg_background.c:592-697 | No message clears has_row_description or complete, or drops a command tag. |
| `Stream.StepCompletesOnlyOnReady` | pg_background.c:689-691 | Only ReadyForQuery sets complete, and a message yields at most one output. |
| `Stream.StepReportsBelowError` | pg_background.c:596-613 | A report a message yields is always below ERROR. |
| `Stream.StepRejects` | pg_background.c:592-697 | These messages are refused: an empty message, COPY in/out/both (feature not supported), a second RowDescription, a DataRow before any RowDescription, and an error or notice at ERROR or above, which ends the call with the worker's report. |
| `Stream.StepSkipsUnknown` | pg_background.c:693-696 | A message of an unknown type yields only a warning with its type and size, and leaves the state unchanged. |
| `Stream.TagRows` | pg_background.c:712-723 | One text row per command tag, in list order. |
| `Stream.DrainCounts` | pg_background.c:574-598 | The loop takes messages in order and stops right after the first one that raises an error. Without an error it takes the whole queue. Its state only grows. |
| `Stream.DrainReportsBelowError` | pg_background.c:596-613 | No report yielded by the loop is at ERROR or above. |
| `Stream.DrainNeedsReady` | pg_background.c:689-691 | Without a ReadyForQuery, the loop never reaches a complete state. |
| `Stream.ResultNeedsReady` | pg_background.c:700-703 | A queue without ReadyForQuery makes the call fail, whatever rows came before. The error is connection failure unless a message raised one first. |
| `Stream.ResultReportsBelowError` | pg_background.c:596-613 | Every report of a whole result call is below ERROR. |
| `Stream.HandleMessage` | pg_background.c:592-697 | The switch returns exactly the specified step for every message. |
| `Stream.ReceiveLoop` | pg_background.c:574-698 | The receive loop returns exactly the specified drain of the queue: state, outputs, messages taken and error. |
| `Stream.DrainQueue` | pg_background.c:574-730 | A whole result call returns exactly `Fetch`: the loop, then the checks after it, then the command tags as rows. |
| `Frames.ParseFieldOfEncode` | pg_background.c:921-940 | A NULL column (length -1) and a value column are each read back as sent, leaving what follows. |
| `Frames.ParseFieldNegativeIsNull` | pg_background.c:921-930 | A column whose length is any negative int32, not only -1, is read as NULL. |
| `Frames.ParseFieldsOfEncode` | pg_background.c:919-941 | The columns of a row are read back as sent, in order. |
| `Frames.DataRowParse` | pg_background.c:901-943 | After a RowDescription, a DataRow followed by extra bytes is read as follows: a different column count is malformed, trailing bytes are a format violation, and otherwise the row read is the row sent. |
| `Frames.DataRowRoundTrip` | pg_background.c:897-945 | A DataRow of the expected width is read back as the row that was sent. |
| `Frames.DataRowRejectsTrailing` | pg_background.c:943 | Bytes after the last column are an invalid-message-format violation. |
| `Frames.DataRowRejectsCount` | pg_background.c:909-910 | A DataRow whose column count differs from the expected one is malformed. |
| `Frames.ParseColumnOfEncode` | pg_background.c:632-657 | A field description is read whole. It is accepted exactly when its type is, and otherwise fails with the type check's error. |
| `Frames.ParseColumnsOfEncode` | pg_background.c:632-658 | The field descriptions from position i on are read to their end exactly when every column is accepted for its expected type. |
| `Frames.RowDescriptionCount` | pg_background.c:620 | The column count at the front of a RowDescription is read back, and the field descriptions follow it. |
| `Frames.ColumnsOfEncode` | pg_background.c:632-660 | As many field descriptions as expected are read to the end exactly when each column is accepted. |
| `Frames.RowDescriptionAcceptance` | pg_background.c:618-661 | The first RowDescription is accepted exactly when it has as many columns as expected and each column type is accepted. A different count is a row-type mismatch. |
| `Frames.StepRowDescription` | pg_background.c:618-662 | An accepted first RowDescription sets has_row_description and yields nothing. |
| `Frames.StepCommandComplete` | pg_background.c:670-679 | A CommandComplete appends its tag to the list and yields nothing. |
| `Frames.StepReady` | pg_background.c:689-691 | A ReadyForQuery sets complete and yields nothing, whatever its status byte. |
| `Frames.DrainCommandTags` | pg_background.c:670-679 | A run of CommandComplete messages appends their tags to the list, in order. |
| `Frames.DrainTagsThenReady` | pg_background.c:670-691 | Command tags followed by ReadyForQuery record the tags in order, complete the query and yield nothing. |
| `Frames.CommandTagsAsRows` | pg_background.c:705-723 | For a statement without a result set: consumed as exactly one text column, the call returns its command tags as rows, in the order sent, and ends normally. Any other expected row type is a datatype mismatch and returns no row. |
| `Frames.UpdateThreeGivesOneRow` | pg_background.c:705-723 | An UPDATE of three rows read as text gives exactly the one row "UPDATE 3". |
| `Frames.StepDataRow` | pg_background.c:664-668 | After the RowDescription, a DataRow of the expected width yields its row and leaves the state unchanged. |
| `Frames.DrainDataRows` | pg_background.c:664-668 | A run of DataRows yields their rows in order, in front of what the rest of the queue yields. |
| `Frames.DrainCompletes` | pg_background.c:670-691 | A final CommandComplete and ReadyForQuery record the tag, complete the query and yield nothing. |
| `Frames.WellFormedResult` | pg_background.c:574-730 | A RowDescription of accepted columns, DataRows of the expected width, a CommandComplete and a ReadyForQuery make the call return every row in order and end normally. |
| `Lifecycle.WorkerState` | pg_background.c:1119-1138 | 0 exactly when the handle reports started, 1 exactly when stopped, and -1 for a missing handle, a worker not yet started or a dead postmaster. |
| `Lifecycle.StatusName` | pg_background.c:836-842 | "detached" exactly when the flag is set. Otherwise "complete" exactly when the state is 1, and "running" for any other state. |
| `Lifecycle.WaitDecidedByFirstEnd` | pg_background.c:775-788 | The wait is decided on the first turn that sees the worker not running or the timeout passed. It answers true exactly when the worker was seen stopped on that turn. |
| `Lifecycle.WaitWithoutTimeout` | pg_background.c:761-788 | With a NULL or negative timeout, the wait never answers false unless it sees a state it cannot tell. |
| `Lifecycle.WaitTimesOut` | pg_background.c:783-788 | With a non-negative timeout, a worker still running once the timeout has passed makes the wait answer false. |
| `Lifecycle.WaitLoop` | pg_background.c:774-800 | The polling loop returns exactly the specified wait outcome over the observed turns. |
| `Lifecycle.ClampGrace` | pg_background.c:1148-1152 | The grace period is clamped to [0, 60000] ms. Values in range are kept. |
| `Lifecycle.EscalationDecidedByFirstEnd` | pg_background.c:1176-1192 | The escalation is decided on the first turn on which the worker is not started or the grace period has passed. SIGTERM goes to the pid reported on that turn exactly when the worker is still started. |
| `Lifecycle.CancelSendsSigIntFirst` | pg_background.c:1157-1192 | No signal is sent unless the handle first reports started with pid > 0. Otherwise SIGINT goes to that pid first, followed by at most one SIGTERM. |
| `Lifecycle.CancelEscalatesWithinAMinute` | pg_background.c:1148-1192 | A worker that stays started is sent SIGTERM once a minute has passed, whatever grace period was requested. |
| `Lifecycle.CancelStopsAtSigInt` | pg_background.c:1176-1179 | A worker that stops within the grace period is sent SIGINT only. |
| `Lifecycle.CancelLoop` | pg_background.c:1140-1194 | The cancel procedure sends exactly the specified signals over the observed turns. |
| `Registry.CheckRights` | pg_background.c:980-992 | Passes exactly when the current user has the privileges of the worker's owner. It is otherwise an insufficient-privilege error. |
| `Registry.ReceiveFunctions` | pg_background.c:546-562 | Passes exactly when every expected column type is in the catalog and has a binary receive function. It otherwise fails with cache lookup failure or undefined function. |
| `Registry.LookupReceivers` | pg_background.c:554-561 | The loop over the columns returns exactly the specified lookup outcome. |
| `Registry.OnExitAsWrittenRepallocsNull` | pg_background.c:1079-1084 | As written, the first pass hands the NULL buffer to repalloc, so any non-empty table leaves the buffer undefined (see Findings). |
| `Registry.CollectedHoldsAll` | pg_background.c:1079-1084 | When the first growth allocates the buffer, it always holds the pids stored so far. It holds at least 16 once there is one, and stays NULL only while no pid has been stored. |
| `Registry.DropKeepsConsistent` | pg_background.c:950-970 | Detaching an entry's segment, whose callback removes that entry and no other, keeps the table consistent. |
| `Registry.EnterKeepsConsistent` | pg_background.c:1014-1044 | Entering a new entry on a fresh segment keeps the table consistent, once the old entry of the same pid, if any, is gone with its segment. |
| `Registry.ClaimKeepsConsistent` | pg_background.c:520-533 | Marking an entry consumed and unpinning its mapping keeps the table consistent. |
| `Registry.StampKeepsConsistent` | pg_background.c:584 | Recording last_msg_at keeps the table consistent. |
| `Registry.ReleaseKeepsConsistent` | pg_background.c:343-347 | Releasing every unpinned segment at transaction end removes exactly the consumed entries and keeps the table consistent. |
| `Registry.NoEntriesNoSegments` | pg_background.c:1087-1101 | A consistent session without entries is attached to no segment. |
| `Registry.Grow` | pg_background.c:1079-1083 | The buffer grows to 16, then doubles, keeping the pids stored so far. It models the corrected first growth, which allocates the NULL buffer instead of handing it to repalloc (see Findings). |
| `Registry.Store` | pg_background.c:1084 | Stores the pid after the ones already collected and leaves the rest of the buffer as it was. |
| `Registry.Pick` | pg_background.c:1075 | The scan returns an entry still to be visited. |
| `Registry.Backend.constructor` | pg_background.c:119 | A session starts with no table and no segments. |
| `Registry.Backend.Find` | pg_background.c:972-978 | Finds an entry exactly when the table exists and holds the pid, and returns that entry. |
| `Registry.Backend.Access` | pg_background.c:432-444 | The checks run in the order lookup, rights, cookie. An unknown pid is an undefined object, missing privileges an insufficient privilege, and a different cookie an undefined object. Otherwise the entry is returned. |
| `Registry.Backend.Claim` | pg_background.c:514-524 | After the access checks, an entry whose results were already consumed is an undefined object. Otherwise the entry is returned. |
| `Registry.Backend.Cleanup` | pg_background.c:950-970 | Removes the entry of its own pid only, and does nothing without a table or without that entry. |
| `Registry.Backend.DetachSegment` | pg_background.c:392-394 | Detaching a segment drops it, and its callback removes the entry of the pid it was registered for. |
| `Registry.Backend.UnpinMapping` | pg_background.c:385-390 | Unpins a pinned mapping once and clears mapping_pinned. An unpinned mapping is left alone. |
| `Registry.Backend.Retire` | pg_background.c:1094-1100 | Unpinning and detaching a live entry's segment removes exactly that entry and that segment, and keeps the table consistent. |
| `Registry.Backend.SaveWorkerInfo` | pg_background.c:994-1045 | A pid already present under another owner is fatal. The backend then exits and runs the exit clean-up registered at line 164. With the corrected first growth (see Findings), that clean-up leaves the table empty and the session attached to no segment. As written, the collision always reaches the repalloc(NULL) at line 1082, because the table holds at least the colliding entry. Otherwise the old entry is detached and so removed. The new entry is unconsumed, unpinned, not detached, and has last_msg_at equal to started_at. |
| `Registry.Backend.Launch` | pg_background.c:202-355 | Guardrail, registration and start-up failures change nothing. A pid collision under another owner is fatal and ends in the exit clean-up, with the corrected first growth (see Findings); as written it reaches the repalloc(NULL) at line 1082. Success returns the worker's pid. The whole new table and segment set are given: the new entry is pinned and unconsumed on a fresh segment, and replaces the old entry of that pid. |
| `Registry.Backend.LaunchV1` | pg_background.c:360-369 | A v1 launch is a launch with cookie 0. It has the same failures, the fatal collision included, which ends in the exit clean-up with the corrected first growth (see Findings). On success it returns the pid and gives the whole new table and segment set, with cookie 0 in the new entry. |
| `Registry.Backend.LaunchV2` | pg_background.c:402-429 | A v2 launch is a launch with the minted, non-zero cookie, and returns the pid with that cookie. Its fatal collision ends in the exit clean-up with the corrected first growth (see Findings). The whole new table and segment set are given. A call site that cannot take a row is refused after the worker was launched, so the new entry stays. |
| `Registry.Backend.Detach` | pg_background.c:372-397 | Succeeds exactly when the access checks pass; with a cookie this is pg_background_detach_v2 (lines 432-459). A failure changes nothing. Success removes exactly the entry and its segment, and keeps the table consistent. |
| `Registry.Backend.ReadResults` | pg_background.c:535-730 | Returns exactly the specified claimed result: the result-type check, then the receive functions, then the receive loop. |
| `Registry.Backend.MarkConsumed` | pg_background.c:520-533 | The entry becomes consumed and its mapping is unpinned, and the table stays consistent. |
| `Registry.Backend.ClaimedCall` | pg_background.c:520-730 | A claimed result call returns the specified result. On success the entry and its segment are gone. On failure the entry stays consumed and unpinned, with last_msg_at from the last message taken. |
| `Registry.Backend.Result` | pg_background.c:495-749 | A failed check changes nothing. Otherwise the results are claimed once. On success the entry and its segment are gone. On failure the entry stays consumed and unpinned, with last_msg_at from the last message taken, and its segment is unpinned. Every other entry and segment is unchanged. Every later result call fails with an undefined object. |
| `Registry.Backend.ReleaseAtTransactionEnd` | pg_background.c:343-347 | At transaction end the unpinned segments are released, their callbacks remove the consumed entries, and the table stays consistent. |
| `Registry.Backend.Status` | pg_background.c:808-849 | A failed check gives its error. Otherwise it returns the pid with the entry's started_at and last_msg_at, unless the call site cannot take a row. |
| `Registry.Backend.Wait` | pg_background.c:756-801 | A failed check gives its error. Otherwise it returns the wait loop's outcome. |
| `Registry.Backend.Cancel` | pg_background.c:856-892 | A failed check gives its error (the cookie only for the v2 entry). Otherwise it returns the signals of the cancel procedure. |
| `Registry.Backend.CollectPids` | pg_background.c:1071-1085 | With the corrected first growth (see Findings), the first pass stores exactly the table's pids in a buffer large enough for them, with the capacity the growth rule gives. |
| `Registry.Backend.OnExit` | pg_background.c:1057-1105 | With the corrected first growth (see Findings), the exit clean-up leaves the table empty and the session attached to no segment. As written, the first entry already makes the buffer undefined. |
| `Registry.StatusNeverDetached` | pg_background.c:836-842 | The status column never reads "detached", and reads "complete" exactly when the handle reports stopped. |

## Left out

- The shared-memory queue (`shm_mq`), the DSM segment and its table of contents, and `shm_mq_wait_for_attach` are not part of this model. The queue is a finite sequence of messages, and its end stands for the "detached" answer.
- Worker registration and start-up are inputs: whether registration succeeded and what start-up reported. `kill` and `TerminateBackgroundWorker` are modelled as the signals sent.
- The worker side is not part of this model: `pg_background_worker_main`, `execute_sql_string` and `handle_sigterm`.
- The Windows branch of `pgbg_send_cancel_signals` is not part of this model.
- `pq_parse_errornotice`, `exists_binary_recv_fn`, `getTypeBinaryInputInfo` and `has_privs_of_role` are parameters.
  - The catalog is a map from type oid to whether the type has a binary receive function.
  - The per-type `ReceiveFunctionCall` decoders are left out. A DataRow column is the raw bytes or NULL.
- `get_call_result_type` is the boolean `composite`.
- Wire.GetString: leaves out the conversion `pq_getmsgstring` applies with `pg_client_to_server`. A command tag is the bytes sent.
- The encoding conversion in `throw_untranslated_error`, `ThrowErrorData`, the error-context callback and the forwarding of notifications with `pq_putmessage` are not part of this model. A raised report is the body it carries, and a forwarded notification is its bytes.
- Clocks are inputs. A wait or cancel is given the elapsed milliseconds it measures on each turn. `pgbg_timestamp_diff_ms` is not part of this model. The cookie takes the clock reading, pid and PGPROC address as inputs.
- `WaitLatch`, `pg_usleep`, `CHECK_FOR_INTERRUPTS`, memory contexts and `pfree` are not part of this model.
- The SRF protocol is left out. A result call is modelled from its first call to its end, as if every row were taken. A caller that stops reading early is not modelled.
- A worker FATAL raised in the controller as ERROR is modelled as the error code `RemoteError`, carrying the report.
- Registry.Backend.Wait: the loop over the observed turns answers `None` when it has not decided by the last one. A wait that never returns is not modelled.
- Registry.Backend.Cancel: like the wait, it covers only the observed turns. `finished` is false when the escalation had not ended by the last one.
- Registry.Pick: the order of `hash_seq_search` is not modelled. Any element may come next.
- Registry.Backend.ClaimedCall: last_msg_at is written once, after the loop, with the reading taken for the last message. The source writes it on every message, but the final value is the same.
- Registry.Backend.SaveWorkerInfo: a FATAL raised in the controller ends the backend. The model runs the exit clean-up with the corrected first growth (see Findings) and returns `DuplicateObjectFatal`. As written, that clean-up reaches the repalloc(NULL) at line 1082, because the table holds at least the colliding entry. The model does not model the end of the session itself, and a caller is expected to make no later call.
- Stream.RowDescription: its own contract states only the state change; the acceptance conditions are proved about it in `Frames.RowDescriptionAcceptance`.
- Stream.DataRowSpec: its own contract states only the row width; what is read is proved about it in `Frames.DataRowParse`.

## Findings

| source | as written | input that shows it | evidently intended | confidence | as-written member | corrected member |
|---|---|---|---|---|---|---|
| pg_background.c:1079-1084 | The first pass of `pg_background_on_exit` starts with `pids = NULL` and grows the buffer with `repalloc(pids, ...)`. On the first entry this calls `repalloc(NULL, 16 * sizeof(pid_t))`. PostgreSQL's `repalloc` requires a chunk returned by `palloc` and does not accept NULL. | A session that ends with one worker still in its table. A fatal pid collision in save_worker_info (line 1018) always reaches it, because the colliding entry is still in the table. | Allocate the buffer with `palloc` on the first growth, then `repalloc` it when it doubles. | high; not executed | `Registry.OnExitAsWrittenRepallocsNull` | `Registry.CollectedHoldsAll` |
