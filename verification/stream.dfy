/**
 * The result-stream decoder of pg_background_result and form_result_tuple:
 * the controller reads the worker's protocol messages (PostgreSQL
 * frontend/backend protocol 3.0, "Message Formats") from the response queue
 * until the queue reports the worker detached, and turns them into rows,
 * forwarded notifications, re-raised notices and errors.
 *
 * The queue is a finite sequence of messages; its end is the "detached"
 * answer of shm_mq_receive. Fetch is the specification of one complete
 * result call, DrainQueue the loop that implements it.
 */
module Stream {
  import opened Base
  import opened Wire

  const KindRowDescription: byte := 84  // 'T'
  const KindDataRow: byte := 68  // 'D'
  const KindCommandComplete: byte := 67  // 'C'
  const KindReadyForQuery: byte := 90  // 'Z'
  const KindErrorResponse: byte := 69  // 'E'
  const KindNoticeResponse: byte := 78  // 'N'
  const KindNotification: byte := 65  // 'A'
  const KindCopyIn: byte := 71  // 'G'
  const KindCopyOut: byte := 72  // 'H'
  const KindCopyBoth: byte := 87  // 'W'

  /** Error levels, in the server's order. */
  datatype Level = Debug | Log | Info | Notice | Warning | Error | Fatal | Panic

  function Rank(l: Level): nat
  {
    match l
    case Debug => 0
    case Log => 1
    case Info => 2
    case Notice => 3
    case Warning => 4
    case Error => 5
    case Fatal => 6
    case Panic => 7
  }

  /** A worker's FATAL or PANIC is re-raised in the controller as ERROR at most. */
  function CapAtError(l: Level): (c: Level)
    ensures Rank(c) <= Rank(Error)
    ensures Rank(l) <= Rank(Error) ==> c == l
    ensures Rank(l) >= Rank(Error) ==> c == Error
  {
    if Rank(l) > Rank(Error) then Error else l
  }

  /** One column of a data row: NULL, or the bytes handed to the type's receive function. */
  datatype Field = Null | Value(bytes: seq<byte>)

  type Row = seq<Field>

  /** What a result call produces, in order. */
  datatype Output =
    | DataRow(row: Row)                         // a row built from a DataRow message
    | TagRow(tag: seq<byte>)                    // a command tag returned as a one-text-column row
    | Forwarded(kind: byte, payload: seq<byte>) // a NotificationResponse passed on to the client
    | Reported(level: Level, report: seq<byte>) // a notice below ERROR, raised and continued from
    | UnknownWarning(kind: byte, size: nat)     // the WARNING logged for an unknown message type

  /** pg_background_result_state: what the receive loop has seen so far. */
  datatype State = State(hasRowDescription: bool, commandTags: seq<seq<byte>>, complete: bool)

  const Initial: State := State(false, [], false)

  /**
   * The part of the type catalog the decoder consults: for each known type,
   * whether it has a binary receive function. A type missing from the map is
   * a failed cache lookup.
   */
  type Catalog = map<Oid, bool>

  /** pq_parse_errornotice, which belongs to PostgreSQL core: the level of an error or notice body. */
  type NoticeParser = seq<byte> -> Result<Level>

  /** Whether msg is a ReadyForQuery message, the worker's sign that the query finished. */
  predicate IsReady(msg: seq<byte>)
  {
    msg != [] && msg[0] == KindReadyForQuery
  }

  /** The message types the receive loop's switch has a case for. */
  predicate KnownKind(kind: byte)
  {
    || kind == KindErrorResponse || kind == KindNoticeResponse || kind == KindNotification
    || kind == KindRowDescription || kind == KindDataRow || kind == KindCommandComplete
    || kind == KindCopyIn || kind == KindCopyOut || kind == KindCopyBoth || kind == KindReadyForQuery
  }

  /** What a later state of the loop keeps from an earlier one: flags are never cleared, tags never dropped. */
  predicate Extends(st: State, st': State)
  {
    (st.hasRowDescription ==> st'.hasRowDescription)
    && (st.complete ==> st'.complete)
    && st.commandTags <= st'.commandTags
  }

  // ---------------------------------------------------------------------
  // RowDescription ('T')
  // ---------------------------------------------------------------------

  /**
   * Whether a remote column of type remote may fill an expected column of
   * type expected: a type with a binary receive function must be the
   * expected type itself; a type without one may only fill a text column.
   */
  predicate ColumnAccepted(catalog: Catalog, remote: Oid, expected: Oid)
  {
    remote in catalog && (if catalog[remote] then remote == expected else expected == TextOid)
  }

  /** exists_binary_recv_fn followed by the comparison with the expected column type. */
  function CheckColumnType(catalog: Catalog, remote: Oid, expected: Oid): (r: Outcome)
    ensures r.Pass? <==> ColumnAccepted(catalog, remote, expected)
    ensures remote !in catalog ==> r == Fail(InternalError(TypeCacheLookupFailed))
    ensures remote in catalog && r.Fail? ==> r.code.DatatypeMismatch?
  {
    if remote !in catalog then Fail(InternalError(TypeCacheLookupFailed))
    else if catalog[remote] then Need(remote == expected, DatatypeMismatch(RowTypeMismatch))
    else Need(expected == TextOid, DatatypeMismatch(UseTextInstead))
  }

  /**
   * One field description of a RowDescription: name, table oid, column
   * number, type oid, type length, type modifier and format code; all but
   * the type oid are read and ignored.
   */
  function ParseColumn(c: Cursor, catalog: Catalog, expected: Oid): (r: Result<Cursor>)
  {
    var name :- GetString(c);
    var table :- GetUInt(name.1, 4);
    var attnum :- GetUInt(table.1, 2);
    var typ :- GetOid(attnum.1);
    var typlen :- GetUInt(typ.1, 2);
    var typmod :- GetUInt(typlen.1, 4);
    var format :- GetUInt(typmod.1, 2);
    :- CheckColumnType(catalog, typ.0, expected);
    Ok(format.1)
  }

  /** The field descriptions of columns i.. of the expected row type. */
  function ParseColumns(c: Cursor, catalog: Catalog, expected: seq<Oid>, i: nat): Result<Cursor>
    decreases |expected| - i
  {
    if i >= |expected| then Ok(c)
    else
      var c1 :- ParseColumn(c, catalog, expected[i]);
      ParseColumns(c1, catalog, expected, i + 1)
  }

  /** The 'T' case of the receive loop. */
  function RowDescription(st: State, c: Cursor, expected: seq<Oid>, catalog: Catalog): (r: Result<State>)
    ensures r.Ok? ==> r.value == st.(hasRowDescription := true)
  {
    var n :- GetInt16(c);
    :- Need(!st.hasRowDescription, InternalError(MultipleRowDescription));
    :- Need(n.0 == |expected|, DatatypeMismatch(RowTypeMismatch));
    var c2 :- ParseColumns(n.1, catalog, expected, 0);
    :- GetEnd(c2);
    Ok(st.(hasRowDescription := true))
  }

  /** The 'T' case as the source runs it: a loop over the announced columns. */
  method ReadRowDescription(st: State, c: Cursor, expected: seq<Oid>, catalog: Catalog)
    returns (r: Result<State>)
    ensures r == RowDescription(st, c, expected, catalog)
  {
    var n := GetInt16(c);
    if n.Err? {
      return Err(n.code);
    }
    if st.hasRowDescription {
      return Err(InternalError(MultipleRowDescription));
    }
    if n.value.0 != |expected| {
      return Err(DatatypeMismatch(RowTypeMismatch));
    }
    var cur := n.value.1;
    var i := 0;
    while i < |expected|
      invariant 0 <= i <= |expected|
      invariant ParseColumns(n.value.1, catalog, expected, 0) == ParseColumns(cur, catalog, expected, i)
    {
      var col := ParseColumn(cur, catalog, expected[i]);
      if col.Err? {
        return Err(col.code);
      }
      cur := col.value;
      i := i + 1;
    }
    var end := GetEnd(cur);
    if end.Fail? {
      return Err(end.code);
    }
    r := Ok(st.(hasRowDescription := true));
  }

  // ---------------------------------------------------------------------
  // DataRow ('D'), form_result_tuple
  // ---------------------------------------------------------------------

  /** One column of a DataRow: an int32 length, negative for NULL, then that many bytes. */
  function ParseField(c: Cursor): (r: Result<(Field, Cursor)>)
  {
    var len :- GetInt32(c);
    if len.0 < 0 then Ok((Null, len.1))
    else
      var b :- GetBytes(len.1, len.0);
      Ok((Value(b.0), b.1))
  }

  /** k consecutive columns. */
  function ParseFields(c: Cursor, k: nat): (r: Result<(Row, Cursor)>)
    ensures r.Ok? ==> |r.value.0| == k
    decreases k
  {
    if k == 0 then Ok(([], c))
    else
      var f :- ParseField(c);
      var fs :- ParseFields(f.1, k - 1);
      Ok(([f.0] + fs.0, fs.1))
  }

  /**
   * form_result_tuple: the column count, which must follow a RowDescription
   * and equal the expected count, the columns, and nothing after them.
   */
  function DataRowSpec(hasRowDescription: bool, c: Cursor, natts: nat): (r: Result<Row>)
    ensures r.Ok? ==> |r.value| == natts
  {
    var n :- GetInt16(c);
    :- Need(hasRowDescription, InternalError(DataRowWithoutRowDescription));
    :- Need(n.0 == natts, InternalError(MalformedDataRow));
    var fs :- ParseFields(n.1, natts);
    :- GetEnd(fs.1);
    Ok(fs.0)
  }

  /** The parse of the remaining columns, with the columns already read put in front. */
  function Prepend(done: Row, r: Result<(Row, Cursor)>): Result<(Row, Cursor)>
  {
    match r
    case Ok(p) => Ok((done + p.0, p.1))
    case Err(e) => Err(e)
  }

  lemma PrependNothing(r: Result<(Row, Cursor)>)
    ensures Prepend([], r) == r
  {
    if r.Ok? {
      assert [] + r.value.0 == r.value.0;
    }
  }

  lemma PrependOneMore(done: Row, f: Field, r: Result<(Row, Cursor)>)
    ensures Prepend(done, Prepend([f], r)) == Prepend(done + [f], r)
  {
    if r.Ok? {
      assert done + ([f] + r.value.0) == (done + [f]) + r.value.0;
    }
  }

  /** form_result_tuple as the source runs it: a column loop over the message cursor. */
  method FormResultTuple(hasRowDescription: bool, c: Cursor, natts: nat) returns (r: Result<Row>)
    ensures r == DataRowSpec(hasRowDescription, c, natts)
  {
    var n := GetInt16(c);
    if n.Err? {
      return Err(n.code);
    }
    if !hasRowDescription {
      return Err(InternalError(DataRowWithoutRowDescription));
    }
    if n.value.0 != natts {
      return Err(InternalError(MalformedDataRow));
    }
    var values: Row := [];
    var cur := n.value.1;
    var i := 0;
    PrependNothing(ParseFields(cur, natts));
    while i < natts
      invariant 0 <= i <= natts && |values| == i
      invariant ParseFields(n.value.1, natts) == Prepend(values, ParseFields(cur, natts - i))
    {
      var f := ParseField(cur);
      if f.Err? {
        return Err(f.code);
      }
      PrependOneMore(values, f.value.0, ParseFields(f.value.1, natts - i - 1));
      values := values + [f.value.0];
      cur := f.value.1;
      i := i + 1;
    }
    assert values + [] == values;
    var end := GetEnd(cur);
    if end.Fail? {
      return Err(end.code);
    }
    r := Ok(values);
  }

  // ---------------------------------------------------------------------
  // The receive loop
  // ---------------------------------------------------------------------

  /**
   * The 'E' and 'N' cases: the report is parsed and re-raised with its level
   * capped at ERROR, so anything from ERROR up ends the call with the
   * worker's report and anything below is reported and the loop goes on.
   */
  function OnNotice(st: State, body: seq<byte>, parseNotice: NoticeParser): Result<(State, seq<Output>)>
  {
    var level :- parseNotice(body);
    if CapAtError(level) == Error then Err(RemoteError(body))
    else Ok((st, [Reported(level, body)]))
  }

  /** The 'T' case: the row description is checked and remembered. */
  function OnRowDescription(st: State, body: Cursor, expected: seq<Oid>, catalog: Catalog): Result<(State, seq<Output>)>
  {
    var st' :- RowDescription(st, body, expected, catalog);
    Ok((st', []))
  }

  /** The 'D' case: one row is returned. */
  function OnDataRow(st: State, body: Cursor, natts: nat): Result<(State, seq<Output>)>
  {
    var row :- DataRowSpec(st.hasRowDescription, body, natts);
    Ok((st, [DataRow(row)]))
  }

  /** The 'C' case: the command tag is appended to the list kept for the end of the call. */
  function OnCommandComplete(st: State, body: Cursor): Result<(State, seq<Output>)>
  {
    var tag :- GetString(body);
    Ok((st.(commandTags := st.commandTags + [tag.0]), []))
  }

  /**
   * One pass of the receive loop's switch: the new state and what the
   * message produced. pq_getmsgbyte rejects an empty message.
   */
  function Step(st: State, msg: seq<byte>, expected: seq<Oid>, catalog: Catalog, parseNotice: NoticeParser)
    : (r: Result<(State, seq<Output>)>)
  {
    if msg == [] then Err(ProtocolViolation(NoDataLeft))
    else
      var kind := msg[0];
      if kind == KindErrorResponse || kind == KindNoticeResponse then
        OnNotice(st, msg[1..], parseNotice)
      else if kind == KindNotification then
        Ok((st, [Forwarded(kind, msg[1..])]))
      else if kind == KindRowDescription then
        OnRowDescription(st, msg[1..], expected, catalog)
      else if kind == KindDataRow then
        OnDataRow(st, msg[1..], |expected|)
      else if kind == KindCommandComplete then
        OnCommandComplete(st, msg[1..])
      else if kind == KindCopyIn || kind == KindCopyOut || kind == KindCopyBoth then
        Err(FeatureNotSupported)
      else if kind == KindReadyForQuery then
        Ok((st.(complete := true), []))
      else
        Ok((st, [UnknownWarning(kind, |msg|)]))
  }

  /** A message never undoes what the loop has seen. */
  lemma StepExtends(st: State, msg: seq<byte>, expected: seq<Oid>, catalog: Catalog, parseNotice: NoticeParser)
    ensures var r := Step(st, msg, expected, catalog, parseNotice);
            r.Ok? ==> Extends(st, r.value.0)
  {
    assert Extends(st, st);
    if msg == [] {
    } else if msg[0] == KindRowDescription {
      assert Extends(st, st.(hasRowDescription := true));
    } else if msg[0] == KindCommandComplete {
      var tag := GetString(msg[1..]);
      if tag.Ok? {
        assert Extends(st, st.(commandTags := st.commandTags + [tag.value.0]));
      }
    } else if msg[0] == KindReadyForQuery {
      assert Extends(st, st.(complete := true));
    }
  }

  /** Only ReadyForQuery marks the query complete, and a message yields at most one output. */
  lemma StepCompletesOnlyOnReady(st: State, msg: seq<byte>, expected: seq<Oid>, catalog: Catalog, parseNotice: NoticeParser)
    ensures var r := Step(st, msg, expected, catalog, parseNotice);
            r.Ok? ==> |r.value.1| <= 1 && (!IsReady(msg) ==> r.value.0.complete == st.complete)
  {
  }

  /** What a message yields is never a report at ERROR or above: those end the call instead. */
  lemma StepReportsBelowError(st: State, msg: seq<byte>, expected: seq<Oid>, catalog: Catalog, parseNotice: NoticeParser)
    ensures var r := Step(st, msg, expected, catalog, parseNotice);
            r.Ok? ==> forall o :: o in r.value.1 && o.Reported? ==> Rank(o.level) < Rank(Error)
  {
  }

  /**
   * The messages the loop refuses: an empty one, any COPY message, a second
   * RowDescription, a DataRow before the RowDescription, and an error or
   * notice at ERROR or above from the worker (FATAL and PANIC included).
   */
  lemma StepRejects(st: State, msg: seq<byte>, expected: seq<Oid>, catalog: Catalog, parseNotice: NoticeParser)
    ensures var r := Step(st, msg, expected, catalog, parseNotice);
            && (msg == [] ==> r == Err(ProtocolViolation(NoDataLeft)))
            && (msg != [] && (msg[0] == KindCopyIn || msg[0] == KindCopyOut || msg[0] == KindCopyBoth)
                ==> r == Err(FeatureNotSupported))
            && (msg != [] && msg[0] == KindRowDescription && st.hasRowDescription ==> r.Err?)
            && (msg != [] && msg[0] == KindDataRow && !st.hasRowDescription ==> r.Err?)
            && (msg != [] && (msg[0] == KindErrorResponse || msg[0] == KindNoticeResponse)
                && parseNotice(msg[1..]).Ok? && Rank(parseNotice(msg[1..]).value) >= Rank(Error)
                ==> r == Err(RemoteError(msg[1..])))
  {
  }

  /** A message of a type the switch does not know is logged as a warning and changes nothing. */
  lemma StepSkipsUnknown(st: State, msg: seq<byte>, expected: seq<Oid>, catalog: Catalog, parseNotice: NoticeParser)
    requires msg != [] && !KnownKind(msg[0])
    ensures Step(st, msg, expected, catalog, parseNotice) == Ok((st, [UnknownWarning(msg[0], |msg|)]))
  {
  }

  /** The state of the loop when the queue is exhausted or a message raised an error. */
  datatype Drained = Drained(state: State, out: seq<Output>, processed: nat, failure: Option<Code>)

  /** The receive loop from message i on. */
  function DrainFrom(st: State, msgs: seq<seq<byte>>, i: nat, expected: seq<Oid>, catalog: Catalog,
                     parseNotice: NoticeParser): (d: Drained)
    decreases |msgs| - i, 1
  {
    if i >= |msgs| then Drained(st, [], i, None)
    else DrainAt(st, msgs, i, expected, catalog, parseNotice)
  }

  /** One turn of the receive loop at message i: the switch, then the rest of the loop unless it raised an error. */
  function DrainAt(st: State, msgs: seq<seq<byte>>, i: nat, expected: seq<Oid>, catalog: Catalog,
                   parseNotice: NoticeParser): (d: Drained)
    requires i < |msgs|
    decreases |msgs| - i, 0
  {
    match Step(st, msgs[i], expected, catalog, parseNotice)
    case Err(e) => Drained(st, [], i + 1, Some(e))
    case Ok(p) =>
      var d := DrainFrom(p.0, msgs, i + 1, expected, catalog, parseNotice);
      d.(out := p.1 + d.out)
  }

  /** A message the switch accepts puts what it yields in front of what the rest of the queue yields. */
  lemma DrainStep(st: State, msgs: seq<seq<byte>>, i: nat, expected: seq<Oid>, catalog: Catalog,
                  parseNotice: NoticeParser, st': State, out: seq<Output>)
    requires i < |msgs|
    requires Step(st, msgs[i], expected, catalog, parseNotice) == Ok((st', out))
    ensures DrainFrom(st, msgs, i, expected, catalog, parseNotice)
            == Prefixed(out, DrainFrom(st', msgs, i + 1, expected, catalog, parseNotice))
  {
  }

  /** Nothing in front changes nothing. */
  lemma PrefixedNothing(d: Drained)
    ensures Prefixed([], d) == d
  {
    assert [] + d.out == d.out;
  }

  /** A message that yields nothing only moves the loop to its new state. */
  lemma DrainSilent(st: State, msgs: seq<seq<byte>>, i: nat, expected: seq<Oid>, catalog: Catalog,
                    parseNotice: NoticeParser, st': State)
    requires i < |msgs|
    requires Step(st, msgs[i], expected, catalog, parseNotice) == Ok((st', []))
    ensures DrainFrom(st, msgs, i, expected, catalog, parseNotice) == DrainFrom(st', msgs, i + 1, expected, catalog, parseNotice)
  {
    DrainStep(st, msgs, i, expected, catalog, parseNotice, st', []);
    PrefixedNothing(DrainFrom(st', msgs, i + 1, expected, catalog, parseNotice));
  }

  /** Output taken in two parts is prefixed in one. */
  lemma PrefixedTwice(first: seq<Output>, second: seq<Output>, d: Drained)
    ensures Prefixed(first, Prefixed(second, d)) == Prefixed(first + second, d)
  {
    assert first + (second + d.out) == (first + second) + d.out;
  }

  /**
   * A run of messages that each leave the state alone and yield one output
   * yields those outputs, in order, in front of what the rest of the queue yields.
   */
  lemma {:induction false} DrainSteady(st: State, msgs: seq<seq<byte>>, i: nat, outs: seq<Output>,
                                       expected: seq<Oid>, catalog: Catalog, parseNotice: NoticeParser)
    requires i + |outs| <= |msgs|
    requires forall j :: i <= j < i + |outs| ==> Step(st, msgs[j], expected, catalog, parseNotice) == Ok((st, [outs[j - i]]))
    ensures DrainFrom(st, msgs, i, expected, catalog, parseNotice)
            == Prefixed(outs, DrainFrom(st, msgs, i + |outs|, expected, catalog, parseNotice))
    decreases |outs|
  {
    if outs == [] {
      assert outs + DrainFrom(st, msgs, i, expected, catalog, parseNotice).out == DrainFrom(st, msgs, i, expected, catalog, parseNotice).out;
    } else {
      DrainStep(st, msgs, i, expected, catalog, parseNotice, st, [outs[0]]);
      DrainSteady(st, msgs, i + 1, outs[1..], expected, catalog, parseNotice);
      PrefixedTwice([outs[0]], outs[1..], DrainFrom(st, msgs, i + |outs|, expected, catalog, parseNotice));
      assert [outs[0]] + outs[1..] == outs;
    }
  }

  /** The state after the first k of the given command tags have been appended. */
  function Tagged(st: State, tags: seq<seq<byte>>, k: nat): State
    requires k <= |tags|
  {
    st.(commandTags := st.commandTags + tags[..k])
  }

  /** Appending the next tag to the first k is appending the first k + 1. */
  lemma TaggedNext(st: State, tags: seq<seq<byte>>, k: nat)
    requires k < |tags|
    ensures Tagged(st, tags, k + 1) == Tagged(st, tags, k).(commandTags := Tagged(st, tags, k).commandTags + [tags[k]])
  {
    assert tags[..k + 1] == tags[..k] + [tags[k]];
    assert st.commandTags + tags[..k] + [tags[k]] == st.commandTags + (tags[..k] + [tags[k]]);
  }

  /** No tag appended leaves the state as it was; all of them append the whole list. */
  lemma TaggedEnds(st: State, tags: seq<seq<byte>>)
    ensures Tagged(st, tags, 0) == st
    ensures Tagged(st, tags, |tags|) == st.(commandTags := st.commandTags + tags)
  {
    assert tags[..0] == [] && tags[..|tags|] == tags;
    assert st.commandTags + [] == st.commandTags;
  }

  /**
   * A run of messages that each append one command tag and yield nothing:
   * from the k-th of them on, the loop appends the remaining tags, in order.
   */
  lemma {:induction false} DrainTagged(st: State, msgs: seq<seq<byte>>, lo: nat, tags: seq<seq<byte>>, k: nat,
                                       expected: seq<Oid>, catalog: Catalog, parseNotice: NoticeParser)
    requires k <= |tags| && lo + |tags| <= |msgs|
    requires forall j :: 0 <= j < |tags| ==>
               Step(Tagged(st, tags, j), msgs[lo + j], expected, catalog, parseNotice) == Ok((Tagged(st, tags, j + 1), []))
    ensures DrainFrom(Tagged(st, tags, k), msgs, lo + k, expected, catalog, parseNotice)
            == DrainFrom(Tagged(st, tags, |tags|), msgs, lo + |tags|, expected, catalog, parseNotice)
    decreases |tags| - k
  {
    if k < |tags| {
      DrainSilent(Tagged(st, tags, k), msgs, lo + k, expected, catalog, parseNotice, Tagged(st, tags, k + 1));
      DrainTagged(st, msgs, lo, tags, k + 1, expected, catalog, parseNotice);
    }
  }

  /** One text row per command tag, first tag first. */
  function TagRows(tags: seq<seq<byte>>): (out: seq<Output>)
    ensures |out| == |tags|
    ensures forall k :: 0 <= k < |tags| ==> out[k] == TagRow(tags[k])
  {
    if tags == [] then [] else [TagRow(tags[0])] + TagRows(tags[1..])
  }

  /**
   * Everything one result call yields: its outputs, the number of messages
   * it took from the queue, and whether it ended normally (Pass, after which
   * the segment is detached) or with an error.
   */
  datatype Fetched = Fetched(out: seq<Output>, processed: nat, outcome: Outcome)

  /** What happens once the queue is exhausted (lines 700-730). */
  function Finish(d: Drained, expected: seq<Oid>): Fetched
  {
    if d.failure.Some? then Fetched(d.out, d.processed, Fail(d.failure.value))
    else if !d.state.complete then Fetched(d.out, d.processed, Fail(ConnectionFailure))
    else if !d.state.hasRowDescription then
      if expected != [TextOid] then Fetched(d.out, d.processed, Fail(DatatypeMismatch(NoResultSet)))
      else Fetched(d.out + TagRows(d.state.commandTags), d.processed, Pass)
    else Fetched(d.out, d.processed, Pass)
  }

  /** The specification of one complete result call over the queue's messages. */
  function Fetch(msgs: seq<seq<byte>>, expected: seq<Oid>, catalog: Catalog, parseNotice: NoticeParser): Fetched
  {
    Finish(DrainFrom(Initial, msgs, 0, expected, catalog, parseNotice), expected)
  }

  /**
   * The loop takes messages in order and stops at the first one that raises
   * an error; without an error it takes the whole queue. Its state only grows.
   */
  lemma {:induction false} DrainCounts(st: State, msgs: seq<seq<byte>>, i: nat, expected: seq<Oid>, catalog: Catalog,
                                       parseNotice: NoticeParser)
    requires i <= |msgs|
    ensures var d := DrainFrom(st, msgs, i, expected, catalog, parseNotice);
            && i <= d.processed <= |msgs|
            && (d.failure.None? ==> d.processed == |msgs|)
            && (d.failure.Some? ==> d.processed > i)
            && Extends(st, d.state)
    decreases |msgs| - i
  {
    if i < |msgs| {
      StepExtends(st, msgs[i], expected, catalog, parseNotice);
      match Step(st, msgs[i], expected, catalog, parseNotice)
      case Err(_) =>
      case Ok(p) =>
        DrainCounts(p.0, msgs, i + 1, expected, catalog, parseNotice);
    }
  }

  /** No report the call yields is at ERROR or above: the worker's errors, FATAL included, end the call. */
  lemma {:induction false} DrainReportsBelowError(st: State, msgs: seq<seq<byte>>, i: nat, expected: seq<Oid>,
                                                  catalog: Catalog, parseNotice: NoticeParser)
    ensures var d := DrainFrom(st, msgs, i, expected, catalog, parseNotice);
            forall o :: o in d.out && o.Reported? ==> Rank(o.level) < Rank(Error)
    decreases |msgs| - i
  {
    if i < |msgs| {
      StepReportsBelowError(st, msgs[i], expected, catalog, parseNotice);
      match Step(st, msgs[i], expected, catalog, parseNotice)
      case Err(_) =>
      case Ok(p) =>
        DrainReportsBelowError(p.0, msgs, i + 1, expected, catalog, parseNotice);
    }
  }

  /** Without a ReadyForQuery message the loop never reaches a complete state. */
  lemma {:induction false} DrainNeedsReady(st: State, msgs: seq<seq<byte>>, i: nat, expected: seq<Oid>,
                                           catalog: Catalog, parseNotice: NoticeParser)
    requires !st.complete
    requires forall j :: i <= j < |msgs| ==> !IsReady(msgs[j])
    ensures !DrainFrom(st, msgs, i, expected, catalog, parseNotice).state.complete
    decreases |msgs| - i
  {
    if i < |msgs| {
      StepCompletesOnlyOnReady(st, msgs[i], expected, catalog, parseNotice);
      match Step(st, msgs[i], expected, catalog, parseNotice)
      case Err(_) =>
      case Ok(p) =>
        DrainNeedsReady(p.0, msgs, i + 1, expected, catalog, parseNotice);
    }
  }

  /**
   * A worker that goes away before ReadyForQuery makes the call fail, whatever
   * rows it sent before: with the connection-failure error when no message
   * raised one first.
   */
  lemma ResultNeedsReady(msgs: seq<seq<byte>>, expected: seq<Oid>, catalog: Catalog, parseNotice: NoticeParser)
    requires forall j :: 0 <= j < |msgs| ==> !IsReady(msgs[j])
    ensures Fetch(msgs, expected, catalog, parseNotice).outcome.Fail?
    ensures DrainFrom(Initial, msgs, 0, expected, catalog, parseNotice).failure.None?
            ==> Fetch(msgs, expected, catalog, parseNotice).outcome == Fail(ConnectionFailure)
  {
    DrainNeedsReady(Initial, msgs, 0, expected, catalog, parseNotice);
  }

  /** Every report of a whole call is below ERROR. */
  lemma ResultReportsBelowError(msgs: seq<seq<byte>>, expected: seq<Oid>, catalog: Catalog, parseNotice: NoticeParser)
    ensures forall o :: o in Fetch(msgs, expected, catalog, parseNotice).out && o.Reported? ==> Rank(o.level) < Rank(Error)
  {
    DrainReportsBelowError(Initial, msgs, 0, expected, catalog, parseNotice);
  }

  /** The switch of the receive loop, dispatching on the message type. */
  method HandleMessage(st: State, msg: seq<byte>, expected: seq<Oid>, catalog: Catalog, parseNotice: NoticeParser)
    returns (r: Result<(State, seq<Output>)>)
    ensures r == Step(st, msg, expected, catalog, parseNotice)
  {
    if msg == [] {
      return Err(ProtocolViolation(NoDataLeft));
    }
    var kind := msg[0];
    if kind == KindErrorResponse || kind == KindNoticeResponse {
      r := OnNotice(st, msg[1..], parseNotice);
    } else if kind == KindNotification {
      r := Ok((st, [Forwarded(kind, msg[1..])]));
    } else if kind == KindRowDescription {
      var st' := ReadRowDescription(st, msg[1..], expected, catalog);
      if st'.Err? {
        return Err(st'.code);
      }
      r := Ok((st'.value, []));
    } else if kind == KindDataRow {
      var row := FormResultTuple(st.hasRowDescription, msg[1..], |expected|);
      if row.Err? {
        return Err(row.code);
      }
      r := Ok((st, [DataRow(row.value)]));
    } else if kind == KindCommandComplete {
      r := OnCommandComplete(st, msg[1..]);
    } else if kind == KindCopyIn || kind == KindCopyOut || kind == KindCopyBoth {
      r := Err(FeatureNotSupported);
    } else if kind == KindReadyForQuery {
      r := Ok((st.(complete := true), []));
    } else {
      r := Ok((st, [UnknownWarning(kind, |msg|)]));
    }
  }

  /** The queue's messages taken in front of a later part of the loop. */
  function Prefixed(out: seq<Output>, d: Drained): Drained
  {
    d.(out := out + d.out)
  }

  /** The receive loop of pg_background_result, until the queue reports the worker detached. */
  method ReceiveLoop(msgs: seq<seq<byte>>, expected: seq<Oid>, catalog: Catalog, parseNotice: NoticeParser)
    returns (d: Drained)
    ensures d == DrainFrom(Initial, msgs, 0, expected, catalog, parseNotice)
  {
    var st := Initial;
    var out: seq<Output> := [];
    var i := 0;
    while i < |msgs|
      invariant 0 <= i <= |msgs|
      invariant DrainFrom(Initial, msgs, 0, expected, catalog, parseNotice)
             == Prefixed(out, DrainFrom(st, msgs, i, expected, catalog, parseNotice))
    {
      var step := HandleMessage(st, msgs[i], expected, catalog, parseNotice);
      if step.Err? {
        assert DrainFrom(st, msgs, i, expected, catalog, parseNotice) == Drained(st, [], i + 1, Some(step.code));
        return Drained(st, out, i + 1, Some(step.code));
      }
      ghost var rest := DrainFrom(step.value.0, msgs, i + 1, expected, catalog, parseNotice);
      assert DrainFrom(st, msgs, i, expected, catalog, parseNotice) == Prefixed(step.value.1, rest);
      assert out + (step.value.1 + rest.out) == (out + step.value.1) + rest.out;
      st, out := step.value.0, out + step.value.1;
      i := i + 1;
    }
    d := Drained(st, out, i, None);
  }

  /**
   * pg_background_result from its first call to SRF_RETURN_DONE: receive
   * until the queue is exhausted, then either fail, or return the command
   * tags as rows when no RowDescription came, front of the list first.
   */
  method DrainQueue(msgs: seq<seq<byte>>, expected: seq<Oid>, catalog: Catalog, parseNotice: NoticeParser)
    returns (f: Fetched)
    ensures f == Fetch(msgs, expected, catalog, parseNotice)
  {
    var d := ReceiveLoop(msgs, expected, catalog, parseNotice);
    if d.failure.Some? {
      return Fetched(d.out, d.processed, Fail(d.failure.value));
    }
    if !d.state.complete {
      return Fetched(d.out, d.processed, Fail(ConnectionFailure));
    }
    var out := d.out;
    if !d.state.hasRowDescription {
      if |expected| != 1 || expected[0] != TextOid {
        return Fetched(out, d.processed, Fail(DatatypeMismatch(NoResultSet)));
      }
      var tags := d.state.commandTags;
      while tags != []
        invariant out + TagRows(tags) == d.out + TagRows(d.state.commandTags)
        decreases |tags|
      {
        assert TagRows(tags) == [TagRow(tags[0])] + TagRows(tags[1..]);
        out := out + [TagRow(tags[0])];
        tags := tags[1..];
      }
    }
    f := Fetched(out, d.processed, Pass);
  }
}
