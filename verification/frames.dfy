/**
 * The messages a pg_background worker sends, as its protocol writers lay
 * them out (PostgreSQL frontend/backend protocol 3.0, "Message Formats"),
 * and the decoder proved against them: a DataRow, a RowDescription and a
 * CommandComplete are read back as what was written, and a well-formed
 * stream is returned whole.
 */
module Frames {
  import opened Base
  import opened Wire
  import opened Stream

  // ---------------------------------------------------------------------
  // DataRow
  // ---------------------------------------------------------------------

  /** A field whose length can be sent as an int32. */
  predicate FieldFits(f: Field)
  {
    f.Null? || |f.bytes| < 0x8000_0000
  }

  /** Every field of the row fits. */
  predicate FieldsFit(row: Row)
  {
    forall k :: 0 <= k < |row| ==> FieldFits(row[k])
  }

  /** A row whose column count fits an int16 and whose fields all fit. */
  predicate RowFits(row: Row)
  {
    |row| < 0x8000 && FieldsFit(row)
  }

  /** One column of a DataRow: length -1 for NULL, else the length and the bytes. */
  function EncodeField(f: Field): seq<byte>
    requires FieldFits(f)
  {
    Pow256Values();
    match f
    case Null => Encode(Uint32Of(-1), 4)
    case Value(b) => Encode(|b|, 4) + b
  }

  function EncodeFields(row: Row): seq<byte>
    requires FieldsFit(row)
  {
    if row == [] then [] else EncodeField(row[0]) + EncodeFields(row[1..])
  }

  /** A DataRow message: the type byte, the int16 column count, the columns. */
  function DataRowMessage(row: Row): seq<byte>
    requires RowFits(row)
  {
    Pow256Values();
    [KindDataRow] + (Encode(Uint16Of(|row|), 2) + EncodeFields(row))
  }

  lemma ParseFieldOfEncode(f: Field, rest: Cursor)
    requires FieldFits(f)
    ensures ParseField(EncodeField(f) + rest) == Ok((f, rest))
  {
    Pow256Values();
    match f
    case Null =>
      GetInt32OfEncode(-1, rest);
    case Value(b) =>
      assert EncodeField(f) + rest == Encode(Uint32Of(|b|), 4) + (b + rest);
      GetInt32OfEncode(|b|, b + rest);
      assert (b + rest)[..|b|] == b && (b + rest)[|b|..] == rest;
  }

  /** A column whose length is any negative int32, not only -1, is read as NULL. */
  lemma ParseFieldNegativeIsNull(len: int, rest: Cursor)
    requires IsInt32(len) && len < 0
    ensures ParseField(Encode(Uint32Of(len), 4) + rest) == Ok((Null, rest))
  {
    Pow256Values();
    GetInt32OfEncode(len, rest);
  }

  /** Reading k columns is reading one and then k - 1. */
  lemma ParseFieldsCons(c: Cursor, k: nat, f: Field, next: Cursor, rest: (Row, Cursor))
    requires k > 0
    requires ParseField(c) == Ok((f, next))
    requires ParseFields(next, k - 1) == Ok(rest)
    ensures ParseFields(c, k) == Ok(([f] + rest.0, rest.1))
  {
  }

  /** The encoding of a row followed by more bytes starts with the encoding of its first field. */
  lemma EncodeFieldsCons(row: Row, rest: seq<byte>)
    requires row != [] && FieldsFit(row)
    ensures EncodeFields(row) + rest == EncodeField(row[0]) + (EncodeFields(row[1..]) + rest)
  {
    AppendAssociative(EncodeField(row[0]), EncodeFields(row[1..]), rest);
  }

  lemma {:induction false} ParseFieldsOfEncode(row: Row, rest: Cursor)
    requires FieldsFit(row)
    ensures ParseFields(EncodeFields(row) + rest, |row|) == Ok((row, rest))
    decreases |row|
  {
    if row != [] {
      var tail := EncodeFields(row[1..]) + rest;
      EncodeFieldsCons(row, rest);
      ParseFieldOfEncode(row[0], tail);
      ParseFieldsOfEncode(row[1..], rest);
      ParseFieldsCons(EncodeField(row[0]) + tail, |row|, row[0], tail, (row[1..], rest));
      assert [row[0]] + row[1..] == row;
    } else {
      assert EncodeFields(row) + rest == rest;
    }
  }

  /** What follows the type byte of a message, a header and a payload, with extra bytes after it. */
  lemma BodyAfterKind(kind: byte, header: seq<byte>, payload: seq<byte>, extra: seq<byte>)
    ensures (([kind] + (header + payload)) + extra)[1..] == header + (payload + extra)
  {
    assert ([kind] + (header + payload)) + extra == [kind] + (header + (payload + extra));
  }

  /** The body of a DataRow message followed by extra bytes: the count, then the columns, then the extra bytes. */
  lemma DataRowBody(row: Row, extra: seq<byte>)
    requires RowFits(row)
    ensures Uint16Of(|row|) < Pow256(2)
    ensures (DataRowMessage(row) + extra)[1..] == Encode(Uint16Of(|row|), 2) + (EncodeFields(row) + extra)
  {
    Pow256Values();
    BodyAfterKind(KindDataRow, Encode(Uint16Of(|row|), 2), EncodeFields(row), extra);
  }

  /**
   * How form_result_tuple reads a DataRow followed by extra bytes, after a
   * RowDescription: a count other than the expected one is malformed, bytes
   * after the last column are a format error, and otherwise the row read is
   * the row that was sent.
   */
  lemma DataRowParse(row: Row, extra: seq<byte>, natts: nat)
    requires RowFits(row)
    ensures DataRowSpec(true, (DataRowMessage(row) + extra)[1..], natts)
            == if natts != |row| then Err(InternalError(MalformedDataRow))
               else if extra != [] then Err(ProtocolViolation(InvalidMessageFormat))
               else Ok(row)
  {
    DataRowBody(row, extra);
    GetInt16OfEncode(|row|, EncodeFields(row) + extra);
    if natts == |row| {
      ParseFieldsOfEncode(row, extra);
    }
  }

  /** A DataRow is read back as the row that was sent, after a RowDescription with as many columns. */
  lemma DataRowRoundTrip(row: Row)
    requires RowFits(row)
    ensures DataRowSpec(true, DataRowMessage(row)[1..], |row|) == Ok(row)
  {
    DataRowParse(row, [], |row|);
    assert DataRowMessage(row) + [] == DataRowMessage(row);
  }

  /** Bytes after the last column make the DataRow malformed. */
  lemma DataRowRejectsTrailing(row: Row, extra: seq<byte>)
    requires RowFits(row) && extra != []
    ensures DataRowSpec(true, (DataRowMessage(row) + extra)[1..], |row|) == Err(ProtocolViolation(InvalidMessageFormat))
  {
    DataRowParse(row, extra, |row|);
  }

  /** A DataRow whose column count differs from the expected one is malformed. */
  lemma DataRowRejectsCount(row: Row, natts: nat)
    requires RowFits(row) && natts != |row|
    ensures DataRowSpec(true, DataRowMessage(row)[1..], natts) == Err(InternalError(MalformedDataRow))
  {
    DataRowBody(row, []);
    assert DataRowMessage(row) + [] == DataRowMessage(row);
    GetInt16OfEncode(|row|, EncodeFields(row) + []);
  }

  // ---------------------------------------------------------------------
  // RowDescription
  // ---------------------------------------------------------------------

  /** One field description of a RowDescription. */
  datatype Column = Column(name: seq<byte>, table: Oid, attnum: nat, typ: Oid, typlen: nat, typmod: nat, format: nat)

  predicate ColumnFits(col: Column)
  {
    0 !in col.name && col.attnum < 0x1_0000 && col.typlen < 0x1_0000 && col.typmod < 0x1_0000_0000
    && col.format < 0x1_0000
  }

  predicate ColumnsFit(cols: seq<Column>)
  {
    forall k :: 0 <= k < |cols| ==> ColumnFits(cols[k])
  }

  /** Name, table oid, column number, type oid, type length, type modifier, format code. */
  function EncodeColumn(col: Column): seq<byte>
    requires ColumnFits(col)
  {
    Pow256Values();
    CString(col.name) + (Encode(col.table, 4) + (Encode(col.attnum, 2) + (Encode(col.typ, 4)
    + (Encode(col.typlen, 2) + (Encode(col.typmod, 4) + Encode(col.format, 2))))))
  }

  function EncodeColumns(cols: seq<Column>): seq<byte>
    requires ColumnsFit(cols)
  {
    if cols == [] then [] else EncodeColumn(cols[0]) + EncodeColumns(cols[1..])
  }

  /** A RowDescription message: the type byte, the int16 column count, the field descriptions. */
  function RowDescriptionMessage(cols: seq<Column>): seq<byte>
    requires |cols| < 0x8000 && ColumnsFit(cols)
  {
    Pow256Values();
    [KindRowDescription] + (Encode(Uint16Of(|cols|), 2) + EncodeColumns(cols))
  }

  /** A field description is read whole; only its type decides whether it is accepted. */
  lemma ParseColumnOfEncode(col: Column, rest: Cursor, catalog: Catalog, expected: Oid)
    requires ColumnFits(col)
    ensures ParseColumn(EncodeColumn(col) + rest, catalog, expected)
            == (if ColumnAccepted(catalog, col.typ, expected) then Ok(rest)
                else Err(CheckColumnType(catalog, col.typ, expected).code))
  {
    Pow256Values();
    var c6 := Encode(col.format, 2) + rest;
    var c5 := Encode(col.typmod, 4) + c6;
    var c4 := Encode(col.typlen, 2) + c5;
    var c3 := Encode(col.typ, 4) + c4;
    var c2 := Encode(col.attnum, 2) + c3;
    var c1 := Encode(col.table, 4) + c2;
    var x6 := Encode(col.typmod, 4) + Encode(col.format, 2);
    var x5 := Encode(col.typlen, 2) + x6;
    var x4 := Encode(col.typ, 4) + x5;
    var x3 := Encode(col.attnum, 2) + x4;
    var x2 := Encode(col.table, 4) + x3;
    AppendAssociative(Encode(col.typmod, 4), Encode(col.format, 2), rest);
    AppendAssociative(Encode(col.typlen, 2), x6, rest);
    AppendAssociative(Encode(col.typ, 4), x5, rest);
    AppendAssociative(Encode(col.attnum, 2), x4, rest);
    AppendAssociative(Encode(col.table, 4), x3, rest);
    AppendAssociative(CString(col.name), x2, rest);
    assert EncodeColumn(col) + rest == CString(col.name) + c1;
    GetStringOfCString(col.name, c1);
    GetUIntOfEncode(col.table, 4, c2);
    GetUIntOfEncode(col.attnum, 2, c3);
    GetOidOfEncode(col.typ, c4);
    GetUIntOfEncode(col.typlen, 2, c5);
    GetUIntOfEncode(col.typmod, 4, c6);
    GetUIntOfEncode(col.format, 2, rest);
  }

  /** Reading the descriptions of columns i.. is reading one and then the rest. */
  lemma ParseColumnsCons(c: Cursor, catalog: Catalog, expected: seq<Oid>, i: nat, next: Cursor)
    requires i < |expected|
    requires ParseColumn(c, catalog, expected[i]) == Ok(next)
    ensures ParseColumns(c, catalog, expected, i) == ParseColumns(next, catalog, expected, i + 1)
  {
  }

  /** Whether each of cols is accepted for the expected type at its position, from position i on. */
  predicate AllAccepted(cols: seq<Column>, catalog: Catalog, expected: seq<Oid>, i: nat)
    requires i + |cols| <= |expected|
  {
    cols == [] || (ColumnAccepted(catalog, cols[0].typ, expected[i]) && AllAccepted(cols[1..], catalog, expected, i + 1))
  }

  /** AllAccepted is the column-by-column comparison. */
  lemma {:induction false} AllAcceptedMeans(cols: seq<Column>, catalog: Catalog, expected: seq<Oid>, i: nat)
    requires i + |cols| <= |expected|
    ensures AllAccepted(cols, catalog, expected, i)
            <==> forall k :: 0 <= k < |cols| ==> ColumnAccepted(catalog, cols[k].typ, expected[i + k])
    decreases |cols|
  {
    if cols != [] {
      AllAcceptedMeans(cols[1..], catalog, expected, i + 1);
      assert forall k :: 1 <= k < |cols| ==> cols[1..][k - 1] == cols[k];
    }
  }

  /**
   * The descriptions of columns i.. are read to their end exactly when every
   * one of those columns is accepted for its expected type.
   */
  lemma {:induction false} ParseColumnsOfEncode(cols: seq<Column>, rest: Cursor, catalog: Catalog,
                                                expected: seq<Oid>, i: nat)
    requires ColumnsFit(cols) && i <= |expected| && |cols| == |expected| - i
    ensures var r := ParseColumns(EncodeColumns(cols) + rest, catalog, expected, i);
            && (r.Ok? <==> AllAccepted(cols, catalog, expected, i))
            && (r.Ok? ==> r.value == rest)
    decreases |cols|
  {
    var c := EncodeColumns(cols) + rest;
    if cols == [] {
      assert c == rest;
    } else {
      var tail := EncodeColumns(cols[1..]) + rest;
      AppendAssociative(EncodeColumn(cols[0]), EncodeColumns(cols[1..]), rest);
      ParseColumnOfEncode(cols[0], tail, catalog, expected[i]);
      if ColumnAccepted(catalog, cols[0].typ, expected[i]) {
        ParseColumnsCons(c, catalog, expected, i, tail);
        ParseColumnsOfEncode(cols[1..], rest, catalog, expected, i + 1);
      }
    }
  }

  /**
   * The first RowDescription of a call is accepted exactly when it describes
   * as many columns as the caller expects and each column's type is accepted
   * for the expected one; a different count is a row type mismatch.
   */
  lemma RowDescriptionAcceptance(st: State, cols: seq<Column>, expected: seq<Oid>, catalog: Catalog)
    requires !st.hasRowDescription
    requires |cols| < 0x8000 && ColumnsFit(cols)
    ensures var r := RowDescription(st, RowDescriptionMessage(cols)[1..], expected, catalog);
            && (r.Ok? <==> |cols| == |expected|
                           && forall k :: 0 <= k < |cols| ==> ColumnAccepted(catalog, cols[k].typ, expected[k]))
            && (|cols| != |expected| ==> r == Err(DatatypeMismatch(RowTypeMismatch)))
  {
    RowDescriptionCount(cols);
    if |cols| == |expected| {
      ColumnsOfEncode(cols, catalog, expected);
    }
  }

  /** The column count at the front of a RowDescription is read back, and the field descriptions follow it. */
  lemma RowDescriptionCount(cols: seq<Column>)
    requires |cols| < 0x8000 && ColumnsFit(cols)
    ensures GetInt16(RowDescriptionMessage(cols)[1..]) == Ok((|cols|, EncodeColumns(cols)))
  {
    Pow256Values();
    assert ([KindRowDescription] + (Encode(Uint16Of(|cols|), 2) + EncodeColumns(cols)))[1..]
           == Encode(Uint16Of(|cols|), 2) + EncodeColumns(cols);
    GetInt16OfEncode(|cols|, EncodeColumns(cols));
  }

  /** The field descriptions of as many columns as expected are read to the end exactly when each is accepted. */
  lemma ColumnsOfEncode(cols: seq<Column>, catalog: Catalog, expected: seq<Oid>)
    requires ColumnsFit(cols) && |cols| == |expected|
    ensures var r := ParseColumns(EncodeColumns(cols), catalog, expected, 0);
            && (r.Ok? <==> forall k :: 0 <= k < |cols| ==> ColumnAccepted(catalog, cols[k].typ, expected[k]))
            && (r.Ok? ==> r.value == [])
  {
    ParseColumnsOfEncode(cols, [], catalog, expected, 0);
    assert EncodeColumns(cols) + [] == EncodeColumns(cols);
    AllAcceptedMeans(cols, catalog, expected, 0);
  }

  /** The first RowDescription of accepted columns, as many as expected, is remembered and yields nothing. */
  lemma StepRowDescription(st: State, cols: seq<Column>, expected: seq<Oid>, catalog: Catalog, parseNotice: NoticeParser)
    requires !st.hasRowDescription
    requires |cols| < 0x8000 && ColumnsFit(cols) && |cols| == |expected|
    requires forall k :: 0 <= k < |cols| ==> ColumnAccepted(catalog, cols[k].typ, expected[k])
    ensures Step(st, RowDescriptionMessage(cols), expected, catalog, parseNotice) == Ok((st.(hasRowDescription := true), []))
  {
    RowDescriptionAcceptance(st, cols, expected, catalog);
  }

  // ---------------------------------------------------------------------
  // CommandComplete and ReadyForQuery
  // ---------------------------------------------------------------------

  /** A CommandComplete message carrying a command tag such as "UPDATE 3". */
  function CommandCompleteMessage(tag: seq<byte>): seq<byte>
  {
    [KindCommandComplete] + CString(tag)
  }

  /** A ReadyForQuery message with its transaction-status byte. */
  function ReadyMessage(status: byte): seq<byte>
  {
    [KindReadyForQuery, status]
  }

  function CommandCompleteMessages(tags: seq<seq<byte>>): (msgs: seq<seq<byte>>)
    ensures |msgs| == |tags|
    ensures forall k :: 0 <= k < |tags| ==> msgs[k] == CommandCompleteMessage(tags[k])
  {
    if tags == [] then [] else [CommandCompleteMessage(tags[0])] + CommandCompleteMessages(tags[1..])
  }

  /** A CommandComplete appends its tag to the list and yields nothing. */
  lemma StepCommandComplete(st: State, tag: seq<byte>, expected: seq<Oid>, catalog: Catalog, parseNotice: NoticeParser)
    requires 0 !in tag
    ensures Step(st, CommandCompleteMessage(tag), expected, catalog, parseNotice)
            == Ok((st.(commandTags := st.commandTags + [tag]), []))
  {
    GetStringOfCString(tag, []);
    assert CommandCompleteMessage(tag)[1..] == CString(tag) + [];
  }

  /** ReadyForQuery marks the query complete and yields nothing, whatever its status byte. */
  lemma StepReady(st: State, status: byte, expected: seq<Oid>, catalog: Catalog, parseNotice: NoticeParser)
    ensures Step(st, ReadyMessage(status), expected, catalog, parseNotice) == Ok((st.(complete := true), []))
  {
  }

  /** The loop appends each command tag to the list, in order, and yields nothing for them. */
  lemma DrainCommandTags(st: State, msgs: seq<seq<byte>>, i: nat, tags: seq<seq<byte>>,
                         expected: seq<Oid>, catalog: Catalog, parseNotice: NoticeParser)
    requires i + |tags| <= |msgs|
    requires forall k :: 0 <= k < |tags| ==> 0 !in tags[k]
    requires forall k :: 0 <= k < |tags| ==> msgs[i + k] == CommandCompleteMessage(tags[k])
    ensures DrainFrom(st, msgs, i, expected, catalog, parseNotice)
            == DrainFrom(st.(commandTags := st.commandTags + tags), msgs, i + |tags|, expected, catalog, parseNotice)
  {
    forall j | 0 <= j < |tags|
      ensures Step(Tagged(st, tags, j), msgs[i + j], expected, catalog, parseNotice) == Ok((Tagged(st, tags, j + 1), []))
    {
      assert msgs[i + j] == CommandCompleteMessage(tags[j]);
      StepCommandComplete(Tagged(st, tags, j), tags[j], expected, catalog, parseNotice);
      TaggedNext(st, tags, j);
    }
    DrainTagged(st, msgs, i, tags, 0, expected, catalog, parseNotice);
    TaggedEnds(st, tags);
  }

  /**
   * A statement that returns no rows yields its command tags as rows, in the
   * order the worker sent them, and ends normally exactly when the result is
   * consumed as a single text column; any other expected row type is a
   * datatype mismatch and yields nothing. With one tag "UPDATE 3" read as
   * text that is exactly one row.
   */
  lemma CommandTagsAsRows(tags: seq<seq<byte>>, status: byte, expected: seq<Oid>, catalog: Catalog,
                          parseNotice: NoticeParser)
    requires forall k :: 0 <= k < |tags| ==> 0 !in tags[k]
    ensures var msgs := CommandCompleteMessages(tags) + [ReadyMessage(status)];
            Fetch(msgs, expected, catalog, parseNotice)
            == if expected == [TextOid] then Fetched(TagRows(tags), |msgs|, Pass)
               else Fetched([], |msgs|, Fail(DatatypeMismatch(NoResultSet)))
  {
    var msgs := CommandCompleteMessages(tags) + [ReadyMessage(status)];
    var st := Initial.(commandTags := tags).(complete := true);
    assert Initial.(commandTags := Initial.commandTags + tags).(complete := true) == st by {
      assert Initial.commandTags + tags == tags;
    }
    DrainTagsThenReady(Initial, msgs, tags, status, expected, catalog, parseNotice);
    assert [] + TagRows(tags) == TagRows(tags);
  }

  /** The command tags and then ReadyForQuery: the tags are recorded in order, the query completes, nothing is yielded. */
  lemma DrainTagsThenReady(st: State, msgs: seq<seq<byte>>, tags: seq<seq<byte>>, status: byte,
                           expected: seq<Oid>, catalog: Catalog, parseNotice: NoticeParser)
    requires msgs == CommandCompleteMessages(tags) + [ReadyMessage(status)]
    requires forall k :: 0 <= k < |tags| ==> 0 !in tags[k]
    ensures DrainFrom(st, msgs, 0, expected, catalog, parseNotice)
            == Drained(st.(commandTags := st.commandTags + tags).(complete := true), [], |msgs|, None)
  {
    var n := |tags|;
    var st1 := st.(commandTags := st.commandTags + tags);
    assert |msgs| == n + 1 && msgs[n] == ReadyMessage(status);
    assert forall k :: 0 <= k < n ==> msgs[0 + k] == CommandCompleteMessage(tags[k]);
    DrainCommandTags(st, msgs, 0, tags, expected, catalog, parseNotice);
    StepReady(st1, status, expected, catalog, parseNotice);
    DrainSilent(st1, msgs, n, expected, catalog, parseNotice, st1.(complete := true));
  }

  /** The bytes of "UPDATE 3". */
  const Update3: seq<byte> := [85, 80, 68, 65, 84, 69, 32, 51]

  /** An UPDATE of three rows read as text gives the single row "UPDATE 3". */
  lemma UpdateThreeGivesOneRow(catalog: Catalog, parseNotice: NoticeParser)
    ensures Fetch([CommandCompleteMessage(Update3), ReadyMessage(73)], [TextOid], catalog, parseNotice)
            == Fetched([TagRow(Update3)], 2, Pass)
  {
    assert 0 !in Update3;
    CommandTagsAsRows([Update3], 73, [TextOid], catalog, parseNotice);
    assert CommandCompleteMessages([Update3]) + [ReadyMessage(73)] == [CommandCompleteMessage(Update3), ReadyMessage(73)];
    assert TagRows([Update3]) == [TagRow(Update3)];
  }

  // ---------------------------------------------------------------------
  // A whole result
  // ---------------------------------------------------------------------

  function DataRowMessages(rows: seq<Row>): (msgs: seq<seq<byte>>)
    requires forall k :: 0 <= k < |rows| ==> RowFits(rows[k])
    ensures |msgs| == |rows|
    ensures forall k :: 0 <= k < |rows| ==> msgs[k] == DataRowMessage(rows[k])
  {
    if rows == [] then [] else [DataRowMessage(rows[0])] + DataRowMessages(rows[1..])
  }

  function DataRows(rows: seq<Row>): (out: seq<Output>)
    ensures |out| == |rows|
    ensures forall k :: 0 <= k < |rows| ==> out[k] == DataRow(rows[k])
  {
    if rows == [] then [] else [DataRow(rows[0])] + DataRows(rows[1..])
  }

  /** After the RowDescription, a DataRow of the expected width yields its row and leaves the state alone. */
  lemma StepDataRow(st: State, row: Row, expected: seq<Oid>, catalog: Catalog, parseNotice: NoticeParser)
    requires st.hasRowDescription && RowFits(row) && |row| == |expected|
    ensures Step(st, DataRowMessage(row), expected, catalog, parseNotice) == Ok((st, [DataRow(row)]))
  {
    DataRowRoundTrip(row);
  }

  /** After the RowDescription, each DataRow yields its row, in order, and leaves the state alone. */
  lemma DrainDataRows(st: State, msgs: seq<seq<byte>>, i: nat, rows: seq<Row>,
                      expected: seq<Oid>, catalog: Catalog, parseNotice: NoticeParser)
    requires st.hasRowDescription
    requires i + |rows| <= |msgs|
    requires forall k :: 0 <= k < |rows| ==> RowFits(rows[k]) && |rows[k]| == |expected|
    requires forall k :: 0 <= k < |rows| ==> msgs[i + k] == DataRowMessages(rows)[k]
    ensures DrainFrom(st, msgs, i, expected, catalog, parseNotice)
            == Prefixed(DataRows(rows), DrainFrom(st, msgs, i + |rows|, expected, catalog, parseNotice))
  {
    var outs := DataRows(rows);
    forall j | i <= j < i + |rows|
      ensures Step(st, msgs[j], expected, catalog, parseNotice) == Ok((st, [outs[j - i]]))
    {
      assert msgs[i + (j - i)] == DataRowMessages(rows)[j - i];
      StepDataRow(st, rows[j - i], expected, catalog, parseNotice);
    }
    DrainSteady(st, msgs, i, outs, expected, catalog, parseNotice);
  }

  /** Where the messages of a result stand in the queue: the description, the rows, the tag, the ready message. */
  lemma ResultLayout<T>(description: T, rows: seq<T>, complete: T, ready: T)
    ensures var q := [description] + rows + [complete, ready];
            && |q| == |rows| + 3 && q[0] == description && q[|rows| + 1] == complete && q[|rows| + 2] == ready
            && forall k :: 0 <= k < |rows| ==> q[1 + k] == rows[k]
  {
  }

  /** A CommandComplete and a ReadyForQuery at the end of the queue record the tag, complete the query and yield nothing. */
  lemma DrainCompletes(st: State, msgs: seq<seq<byte>>, i: nat, tag: seq<byte>, status: byte,
                       expected: seq<Oid>, catalog: Catalog, parseNotice: NoticeParser)
    requires i + 2 == |msgs| && 0 !in tag
    requires msgs[i] == CommandCompleteMessage(tag) && msgs[i + 1] == ReadyMessage(status)
    ensures DrainFrom(st, msgs, i, expected, catalog, parseNotice)
            == Drained(st.(commandTags := st.commandTags + [tag]).(complete := true), [], i + 2, None)
  {
    var st' := st.(commandTags := st.commandTags + [tag]);
    assert DrainFrom(st, msgs, i, expected, catalog, parseNotice)
        == DrainFrom(st', msgs, i + 1, expected, catalog, parseNotice) by {
      StepCommandComplete(st, tag, expected, catalog, parseNotice);
      DrainSilent(st, msgs, i, expected, catalog, parseNotice, st');
    }
    assert DrainFrom(st', msgs, i + 1, expected, catalog, parseNotice)
        == DrainFrom(st'.(complete := true), msgs, i + 2, expected, catalog, parseNotice) by {
      StepReady(st', status, expected, catalog, parseNotice);
      DrainSilent(st', msgs, i + 1, expected, catalog, parseNotice, st'.(complete := true));
    }
  }

  /**
   * A well-formed result, a RowDescription of accepted columns, DataRows of
   * the expected width, a CommandComplete and ReadyForQuery, is returned
   * whole: every row in order, and the call ends normally.
   */
  lemma WellFormedResult(cols: seq<Column>, rows: seq<Row>, tag: seq<byte>, status: byte,
                         expected: seq<Oid>, catalog: Catalog, parseNotice: NoticeParser)
    requires |cols| < 0x8000 && ColumnsFit(cols) && |cols| == |expected|
    requires forall k :: 0 <= k < |cols| ==> ColumnAccepted(catalog, cols[k].typ, expected[k])
    requires forall k :: 0 <= k < |rows| ==> RowFits(rows[k]) && |rows[k]| == |expected|
    requires 0 !in tag
    ensures var msgs := [RowDescriptionMessage(cols)] + DataRowMessages(rows)
                        + [CommandCompleteMessage(tag), ReadyMessage(status)];
            Fetch(msgs, expected, catalog, parseNotice) == Fetched(DataRows(rows), |msgs|, Pass)
  {
    var messages := DataRowMessages(rows);
    var msgs := [RowDescriptionMessage(cols)] + messages + [CommandCompleteMessage(tag), ReadyMessage(status)];
    var n := |rows|;
    ResultLayout(RowDescriptionMessage(cols), messages, CommandCompleteMessage(tag), ReadyMessage(status));
    var st1 := Initial.(hasRowDescription := true);
    var st3 := st1.(commandTags := st1.commandTags + [tag]).(complete := true);
    assert DrainFrom(Initial, msgs, 0, expected, catalog, parseNotice)
        == DrainFrom(st1, msgs, 1, expected, catalog, parseNotice) by {
      StepRowDescription(Initial, cols, expected, catalog, parseNotice);
      DrainSilent(Initial, msgs, 0, expected, catalog, parseNotice, st1);
    }
    assert DrainFrom(st1, msgs, 1, expected, catalog, parseNotice)
        == Prefixed(DataRows(rows), DrainFrom(st1, msgs, 1 + n, expected, catalog, parseNotice)) by {
      DrainDataRows(st1, msgs, 1, rows, expected, catalog, parseNotice);
    }
    assert DrainFrom(st1, msgs, 1 + n, expected, catalog, parseNotice) == Drained(st3, [], 3 + n, None) by {
      DrainCompletes(st1, msgs, 1 + n, tag, status, expected, catalog, parseNotice);
    }
    assert DataRows(rows) + [] == DataRows(rows);
  }
}
