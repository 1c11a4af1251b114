// The parser inverts the encoding of every well-formed reply, whatever else the reply carries.
module OsqueryRoundTrip {
  import opened Collections
  import opened ThriftBinary
  import opened ThriftValues
  import opened OsqueryReply

  /// Status struct

  function StatusHeader(f: StatusField): FieldHeader {
    match f
    case Code(_) => FieldHeader(I32, 1)
    case Text(_) => FieldHeader(String, 2)
    case OtherStatus(w) => FieldHeader(TypeOf(w.value), w.id)
  }

  lemma StatusFieldAt(b: Bytes, pos: nat, f: StatusField, st: QueryStatus)
    requires StatusFieldOk(f) && At(b, pos, EncodeStatusField(f))
    ensures StatusHeader(f).ty != Stop && ReadFieldBegin(b, pos) == Value(StatusHeader(f), pos + 3)
    ensures ReadStatusField(b, pos + 3, StatusHeader(f), st)
         == (if StatusFieldReadable(f) then Value(StatusField1(f, st), pos + |EncodeStatusField(f)|) else Fatal)
  {
    hide At, FieldBegin, ReadFieldBegin, Int32Bytes, ReadInt32, StringBytes, ReadString, Encode, Skip;
    match f
    case Code(n) =>
      var p := AtSplit(b, pos, FieldBegin(I32, 1), Int32Bytes(n));
      FieldBeginAt(b, pos, I32, 1);
      Int32At(b, p, n);
    case Text(m) =>
      var p := AtSplit(b, pos, FieldBegin(String, 2), StringBytes(m));
      FieldBeginAt(b, pos, String, 2);
      StringAt(b, p, m);
    case OtherStatus(w) =>
      SkipEncodedField(b, pos, w, MAX_SKIP_DEPTH);
  }

  lemma {:induction false} StatusAt(b: Bytes, pos: nat, fs: seq<StatusField>, st: QueryStatus)
    requires StatusOk(fs) && At(b, pos, EncodeStatus(fs))
    ensures ReadStatus(b, pos, st)
         == (if StatusReadable(fs) then Value(StatusOf(fs, st), pos + |EncodeStatus(fs)|) else Fatal)
    decreases |fs|
  {
    hide ReadFieldBegin, ReadStatusField, EncodeStatusField, StatusFieldReadable, StatusField1;
    if fs == [] {
      StopAt(b, pos);
    } else {
      var p := AtSplit(b, pos, EncodeStatusField(fs[0]), EncodeStatus(fs[1..]));
      StatusFieldAt(b, pos, fs[0], st);
      StatusAt(b, p, fs[1..], StatusField1(fs[0], st));
    }
  }

  /// Row list

  lemma {:induction false} PairsAt(b: Bytes, pos: nat, ps: Pairs, row: Row)
    requires PairsOk(ps) && At(b, pos, EncodePairs(ps))
    ensures ReadPairs(b, pos, |ps|, row) == Value(RowOf(ps, row), pos + |EncodePairs(ps)|)
    decreases |ps|
  {
    hide ReadString, StringBytes;
    if ps != [] {
      var (k, v) := ps[0];
      var p := AtSplit(b, pos, StringBytes(k), StringBytes(v) + EncodePairs(ps[1..]));
      var q := AtSplit(b, p, StringBytes(v), EncodePairs(ps[1..]));
      StringAt(b, pos, k);
      StringAt(b, p, v);
      PairsAt(b, q, ps[1..], row[k := v]);
    }
  }

  lemma RowAt(b: Bytes, pos: nat, ps: Pairs)
    requires |ps| < MAX_LENGTH && PairsOk(ps) && At(b, pos, EncodeRow(ps))
    ensures ReadRow(b, pos) == Value(RowOf(ps, map[]), pos + |EncodeRow(ps)|)
  {
    var p := AtSplit(b, pos, MapBegin(String, String, |ps|), EncodePairs(ps));
    MapBeginAt(b, pos, String, String, |ps|);
    PairsAt(b, p, ps, map[]);
  }

  lemma {:induction false} RowsAt(b: Bytes, pos: nat, rows: seq<Pairs>, sofar: seq<Row>)
    requires RowsOk(rows) && At(b, pos, EncodeRows(rows))
    ensures ReadRows(b, pos, |rows|, sofar) == Value(sofar + RowsOf(rows), pos + |EncodeRows(rows)|)
    decreases |rows|
  {
    hide ReadRow, EncodeRow;
    if rows == [] {
      assert sofar + [] == sofar;
    } else {
      var p := AtSplit(b, pos, EncodeRow(rows[0]), EncodeRows(rows[1..]));
      RowAt(b, pos, rows[0]);
      var row := RowOf(rows[0], map[]);
      RowsAt(b, p, rows[1..], sofar + [row]);
      assert sofar + [row] + RowsOf(rows[1..]) == sofar + RowsOf(rows);
    }
  }

  /// Result struct

  function ResultHeader(f: ResultField): FieldHeader {
    match f
    case Status(_) => FieldHeader(Struct, 1)
    case Rows(_) => FieldHeader(List, 2)
    case OtherResult(w) => FieldHeader(TypeOf(w.value), w.id)
  }

  lemma RowListAt(b: Bytes, pos: nat, rows: seq<Pairs>, resp: QueryResponse)
    requires |rows| < MAX_LENGTH && RowsOk(rows) && At(b, pos, EncodeResultField(Rows(rows)))
    ensures ReadFieldBegin(b, pos) == Value(FieldHeader(List, 2), pos + 3)
    ensures ReadResultField(b, pos + 3, FieldHeader(List, 2), resp)
         == Value(resp.(rows := resp.rows + RowsOf(rows)), pos + |EncodeResultField(Rows(rows))|)
  {
    hide ReadFieldBegin, ReadListBegin, FieldBegin, ListBegin, ReadRows, EncodeRows, RowsOf;
    var p := AtSplit(b, pos, FieldBegin(List, 2), ListBegin(Map, |rows|) + EncodeRows(rows));
    FieldBeginAt(b, pos, List, 2);
    var q := AtSplit(b, p, ListBegin(Map, |rows|), EncodeRows(rows));
    ListBeginAt(b, p, Map, |rows|);
    RowsAt(b, q, rows, resp.rows);
  }

  lemma ResultFieldAt(b: Bytes, pos: nat, f: ResultField, resp: QueryResponse)
    requires ResultFieldOk(f) && At(b, pos, EncodeResultField(f))
    ensures ResultHeader(f).ty != Stop && ReadFieldBegin(b, pos) == Value(ResultHeader(f), pos + 3)
    ensures ReadResultField(b, pos + 3, ResultHeader(f), resp)
         == (if ResultFieldReadable(f) then Value(ResultField1(f, resp), pos + |EncodeResultField(f)|) else Fatal)
  {
    hide At, FieldBegin, ReadFieldBegin, EncodeStatus, ReadStatus, ReadRows, ReadListBegin, Encode, Skip;
    match f
    case Status(fs) =>
      var p := AtSplit(b, pos, FieldBegin(Struct, 1), EncodeStatus(fs));
      FieldBeginAt(b, pos, Struct, 1);
      StatusAt(b, p, fs, resp.status);
    case Rows(rows) =>
      RowListAt(b, pos, rows, resp);
    case OtherResult(w) =>
      SkipEncodedField(b, pos, w, MAX_SKIP_DEPTH);
  }

  lemma {:induction false} ResultAt(b: Bytes, pos: nat, fs: seq<ResultField>, resp: QueryResponse)
    requires ResultOk(fs) && At(b, pos, EncodeResult(fs))
    ensures ReadResult(b, pos, resp)
         == (if ResultReadable(fs) then Value(ResultOf(fs, resp), pos + |EncodeResult(fs)|) else Fatal)
    decreases |fs|
  {
    hide ReadFieldBegin, ReadResultField, EncodeResultField, ResultFieldReadable, ResultField1;
    if fs == [] {
      StopAt(b, pos);
    } else {
      var p := AtSplit(b, pos, EncodeResultField(fs[0]), EncodeResult(fs[1..]));
      ResultFieldAt(b, pos, fs[0], resp);
      ResultAt(b, p, fs[1..], ResultField1(fs[0], resp));
    }
  }

  /// Reply struct and message

  function ReplyHeader(f: ReplyField): FieldHeader {
    match f
    case Success(_) => FieldHeader(Struct, 0)
    case OtherReply(w) => FieldHeader(TypeOf(w.value), w.id)
  }

  lemma ReplyFieldAt(b: Bytes, pos: nat, f: ReplyField, resp: QueryResponse)
    requires ReplyFieldOk(f) && At(b, pos, EncodeReplyField(f))
    ensures ReplyHeader(f).ty != Stop && ReadFieldBegin(b, pos) == Value(ReplyHeader(f), pos + 3)
    ensures ReadReplyField(b, pos + 3, ReplyHeader(f), resp)
         == (if ReplyFieldReadable(f) then Value(ReplyField1(f, resp), pos + |EncodeReplyField(f)|) else Fatal)
  {
    hide At, FieldBegin, ReadFieldBegin, EncodeResult, ReadResult, Encode, Skip;
    match f
    case Success(fs) =>
      var p := AtSplit(b, pos, FieldBegin(Struct, 0), EncodeResult(fs));
      FieldBeginAt(b, pos, Struct, 0);
      ResultAt(b, p, fs, resp);
    case OtherReply(w) =>
      StructIsRecord(w.value);
      SkipEncodedField(b, pos, w, MAX_SKIP_DEPTH);
  }

  lemma {:induction false} ReplyAt(b: Bytes, pos: nat, fs: seq<ReplyField>, resp: QueryResponse)
    requires ReplyOk(fs) && At(b, pos, EncodeReply(fs))
    ensures ReadReply(b, pos, resp)
         == (if ReplyReadable(fs) then Value(ReplyOf(fs, resp), pos + |EncodeReply(fs)|) else Fatal)
    decreases |fs|
  {
    hide ReadFieldBegin, ReadReplyField, EncodeReplyField, ReplyFieldReadable, ReplyField1;
    if fs == [] {
      StopAt(b, pos);
    } else {
      var p := AtSplit(b, pos, EncodeReplyField(fs[0]), EncodeReply(fs[1..]));
      ReplyFieldAt(b, pos, fs[0], resp);
      ReplyAt(b, p, fs[1..], ReplyField1(fs[0], resp));
    }
  }

  lemma MessageBeginAt(b: Bytes, pos: nat, h: MessageHeader)
    requires |h.name| < MAX_LENGTH && At(b, pos, EncodeMessageBegin(h))
    ensures ReadMessageBegin(b, pos) == Value(h, pos + |EncodeMessageBegin(h)|)
  {
    var p := AtSplit(b, pos, VersionWord(h.kind), StringBytes(h.name) + Int32Bytes(h.sequence));
    var q := AtSplit(b, p, StringBytes(h.name), Int32Bytes(h.sequence));
    AtIsSlice(b, pos, VersionWord(h.kind));
    StringAt(b, p, h.name);
    Int32At(b, q, h.sequence);
    assert KindOfCode(KindCode(h.kind)) == Some(h.kind);
  }

  /// Exceptions

  function ErrorHeader(f: ErrorField): FieldHeader {
    match f
    case ErrorText(_) => FieldHeader(String, 1)
    case ErrorKind(_) => FieldHeader(I32, 2)
    case OtherError(w) => FieldHeader(TypeOf(w.value), w.id)
  }

  lemma ErrorFieldAt(b: Bytes, pos: nat, f: ErrorField)
    requires ErrorFieldOk(f) && At(b, pos, EncodeErrorField(f))
    ensures ErrorHeader(f).ty != Stop && ReadFieldBegin(b, pos) == Value(ErrorHeader(f), pos + 3)
    ensures ReadExceptionField(b, pos + 3, ErrorHeader(f))
         == (if ErrorFieldReadable(f) then Value((), pos + |EncodeErrorField(f)|) else Fatal)
  {
    hide At, FieldBegin, ReadFieldBegin, Int32Bytes, ReadInt32, StringBytes, ReadString, Encode, Skip;
    match f
    case ErrorText(m) =>
      var p := AtSplit(b, pos, FieldBegin(String, 1), StringBytes(m));
      FieldBeginAt(b, pos, String, 1);
      StringAt(b, p, m);
    case ErrorKind(n) =>
      var p := AtSplit(b, pos, FieldBegin(I32, 2), Int32Bytes(n));
      FieldBeginAt(b, pos, I32, 2);
      Int32At(b, p, n);
    case OtherError(w) =>
      SkipEncodedField(b, pos, w, MAX_SKIP_DEPTH);
  }

  lemma {:induction false} ErrorAt(b: Bytes, pos: nat, fs: seq<ErrorField>)
    requires ErrorOk(fs) && At(b, pos, EncodeError(fs))
    ensures ReadException(b, pos) == (if ErrorReadable(fs) then Value((), pos + |EncodeError(fs)|) else Fatal)
    decreases |fs|
  {
    hide ReadFieldBegin, ReadExceptionField, EncodeErrorField, ErrorFieldReadable;
    if fs == [] {
      StopAt(b, pos);
    } else {
      var p := AtSplit(b, pos, EncodeErrorField(fs[0]), EncodeError(fs[1..]));
      ErrorFieldAt(b, pos, fs[0]);
      ErrorAt(b, p, fs[1..]);
    }
  }

  /// Whole messages

  // The header and the body, wherever the message starts a buffer.
  lemma MessageAt(m: Message, b: Bytes)
    requires MessageOk(m) && At(b, 0, EncodeMessage(m))
    ensures var p := |EncodeMessageBegin(m.header)|;
            && ReadMessageBegin(b, 0) == Value(m.header, p)
            && match m
               case ReplyMessage(_, fs) =>
                 ReadReply(b, p, NO_RESPONSE)
                 == (if ReplyReadable(fs) then Value(ReplyOf(fs, NO_RESPONSE), |EncodeMessage(m)|) else Fatal)
               case ErrorMessage(_, fs) =>
                 ReadException(b, p) == if ErrorReadable(fs) then Value((), |EncodeMessage(m)|) else Fatal
  {
    hide At, ReadMessageBegin, ReadReply, ReadException, EncodeMessageBegin, EncodeReply, EncodeError;
    var p := AtSplit(b, 0, EncodeMessageBegin(m.header), EncodeBody(m));
    MessageBeginAt(b, 0, m.header);
    match m
    case ReplyMessage(_, fs) => ReplyAt(b, p, fs, NO_RESPONSE);
    case ErrorMessage(_, fs) => ErrorAt(b, p, fs);
  }

  /** A well-formed reply parses to its meaning, consuming exactly its bytes, if and only if each of its unknown
      fields can be skipped. Otherwise, and for every exception, the parse fails for good: it never waits for more. */
  lemma ParseEncoded(m: Message, tail: Bytes)
    requires MessageOk(m)
    ensures Parse(EncodeMessage(m) + tail) == Outcome(m, |EncodeMessage(m)|)
  {
    var b := EncodeMessage(m) + tail;
    AtIsSlice(b, 0, EncodeMessage(m));
    MessageAt(m, b);
    hide At, ReadMessageBegin, ReadReply, ReadException, EncodeMessage, EncodeMessageBegin;
  }

  /** Every strict prefix of a readable reply or exception is Eof: never a value, never a fatal error. */
  lemma EncodedPrefixIsEof(m: Message, b: Bytes)
    requires MessageOk(m) && Readable(m) && b < EncodeMessage(m)
    ensures Parse(b).Eof?
  {
    var whole := EncodeMessage(m);
    assert whole[0..0 + |whole|] == whole;
    AtIsSlice(whole, 0, whole);
    MessageAt(m, whole);
    hide Parse, At, ReadMessageBegin, ReadReply, ReadException, EncodeMessage, EncodeMessageBegin;
    StrictPrefixIsEof(b, whole);
  }

  // An unreadable field is fatal as soon as it has arrived: the stop byte at the end is not needed.
  function ReplyFields(fs: seq<ReplyField>): Bytes
    requires ReplyOk(fs)
  {
    if fs == [] then [] else EncodeReplyField(fs[0]) + ReplyFields(fs[1..])
  }

  function ErrorFields(fs: seq<ErrorField>): Bytes
    requires ErrorOk(fs)
  {
    if fs == [] then [] else EncodeErrorField(fs[0]) + ErrorFields(fs[1..])
  }

  lemma {:induction false} StopIsLast(m: Message)
    requires MessageOk(m)
    ensures EncodeBody(m)
         == (match m case ReplyMessage(_, fs) => ReplyFields(fs) case ErrorMessage(_, fs) => ErrorFields(fs))
            + [TypeCode(Stop)]
    decreases match m case ReplyMessage(_, fs) => |fs| case ErrorMessage(_, fs) => |fs|
  {
    hide EncodeReplyField, EncodeErrorField;
    match m
    case ReplyMessage(h, fs) => if fs != [] { StopIsLast(ReplyMessage(h, fs[1..])); }
    case ErrorMessage(h, fs) => if fs != [] { StopIsLast(ErrorMessage(h, fs[1..])); }
  }

  lemma {:induction false} UnreadableReplyFields(b: Bytes, pos: nat, fs: seq<ReplyField>, resp: QueryResponse)
    requires ReplyOk(fs) && !ReplyReadable(fs) && At(b, pos, ReplyFields(fs))
    ensures ReadReply(b, pos, resp) == Fatal
    decreases |fs|
  {
    hide At, ReadFieldBegin, ReadReplyField, EncodeReplyField, ReplyFieldReadable, ReplyField1;
    var p := AtSplit(b, pos, EncodeReplyField(fs[0]), ReplyFields(fs[1..]));
    ReplyFieldAt(b, pos, fs[0], resp);
    if ReplyFieldReadable(fs[0]) {
      UnreadableReplyFields(b, p, fs[1..], ReplyField1(fs[0], resp));
    }
  }

  lemma {:induction false} UnreadableErrorFields(b: Bytes, pos: nat, fs: seq<ErrorField>)
    requires ErrorOk(fs) && !ErrorReadable(fs) && At(b, pos, ErrorFields(fs))
    ensures ReadException(b, pos) == Fatal
    decreases |fs|
  {
    hide At, ReadFieldBegin, ReadExceptionField, EncodeErrorField, ErrorFieldReadable;
    var p := AtSplit(b, pos, EncodeErrorField(fs[0]), ErrorFields(fs[1..]));
    ErrorFieldAt(b, pos, fs[0]);
    if ErrorFieldReadable(fs[0]) {
      UnreadableErrorFields(b, p, fs[1..]);
    }
  }

  lemma UnreadablePrefix(m: Message) returns (b: Bytes)
    requires MessageOk(m) && !Readable(m)
    ensures b < EncodeMessage(m) && Parse(b) == Fatal
  {
    StopIsLast(m);
    hide At, ReadMessageBegin, ReadReply, ReadException, EncodeMessageBegin, EncodeReply, EncodeError;
    var begin := EncodeMessageBegin(m.header);
    var fields := match m case ReplyMessage(_, fs) => ReplyFields(fs) case ErrorMessage(_, fs) => ErrorFields(fs);
    b := begin + fields;
    assert EncodeMessage(m) == b + [TypeCode(Stop)];
    AtIsSlice(b, 0, begin + fields);
    var p := AtSplit(b, 0, begin, fields);
    MessageBeginAt(b, 0, m.header);
    match m
    case ReplyMessage(_, fs) => UnreadableReplyFields(b, p, fs, NO_RESPONSE);
    case ErrorMessage(_, fs) => UnreadableErrorFields(b, p, fs);
  }

  /** A reader waits at every cut of a reply or exception if and only if each of its unknown fields can be skipped. */
  lemma EveryCutWaitsIff(m: Message)
    requires MessageOk(m)
    ensures (forall b | b < EncodeMessage(m) :: Parse(b).Eof?) <==> Readable(m)
  {
    hide Parse, Readable, EncodeMessage;
    if Readable(m) {
      forall b | b < EncodeMessage(m) ensures Parse(b).Eof? {
        EncodedPrefixIsEof(m, b);
      }
    } else {
      var b := UnreadablePrefix(m);
    }
  }

  /// Decoding inverts encoding; unknown fields change nothing

  // What osquery sends: one status and one row list inside field 0.
  function Canonical(h: MessageHeader, st: QueryStatus, rows: seq<Pairs>): Message {
    ReplyMessage(h, [Success([Status([Code(st.code), Text(st.message)]), Rows(rows)])])
  }

  /** Each row may list its columns in any order. */
  lemma DecodeInvertsEncode(h: MessageHeader, st: QueryStatus, rows: seq<Pairs>, tables: seq<Row>, tail: Bytes)
    requires h.kind != Exception && |h.name| < MAX_LENGTH && |st.message| < MAX_LENGTH
    requires |rows| < MAX_LENGTH && RowsOk(rows)
    requires |tables| == |rows| && forall i | 0 <= i < |rows| :: RowOf(rows[i], map[]) == tables[i]
    ensures MessageOk(Canonical(h, st, rows))
    ensures Parse(EncodeMessage(Canonical(h, st, rows)) + tail)
         == Value(QueryResponse(st, tables), |EncodeMessage(Canonical(h, st, rows))|)
  {
    var m := Canonical(h, st, rows);
    var status := [Code(st.code), Text(st.message)];
    var fields := [Status(status), Rows(rows)];
    RowsOfIs(rows, tables);
    assert status[1..] == [Text(st.message)] && fields[1..] == [Rows(rows)];
    assert StatusOf([Text(st.message)], QueryStatus(st.code, [])) == st;
    assert StatusOf(status, NO_RESPONSE.status) == st;
    assert [] + tables == tables;
    assert ResultOf([Rows(rows)], QueryResponse(st, [])) == QueryResponse(st, tables);
    assert ResultOf(fields, NO_RESPONSE) == QueryResponse(st, tables);
    assert StatusOk(status) && StatusReadable(status);
    assert ResultOk(fields) && ResultReadable(fields);
    assert m.fields == [Success(fields)] && m.fields[1..] == [];
    assert ReplyOk(m.fields) && ReplyReadable(m.fields);
    assert ReplyOf(m.fields, NO_RESPONSE) == QueryResponse(st, tables);
    ParseEncoded(m, tail);
  }

  lemma {:induction false} RowsOfIs(rows: seq<Pairs>, tables: seq<Row>)
    requires |tables| == |rows| && forall i | 0 <= i < |rows| :: RowOf(rows[i], map[]) == tables[i]
    ensures RowsOf(rows) == tables
  {
    if rows != [] {
      RowsOfIs(rows[1..], tables[1..]);
      assert tables == [tables[0]] + tables[1..];
    }
  }

  // Unknown fields dropped at all three struct levels.
  function StripStatus(fs: seq<StatusField>): seq<StatusField> {
    if fs == [] then []
    else (if fs[0].OtherStatus? then [] else [fs[0]]) + StripStatus(fs[1..])
  }

  function StripResult(fs: seq<ResultField>): seq<ResultField> {
    if fs == [] then []
    else (match fs[0]
          case Status(st) => [Status(StripStatus(st))]
          case Rows(_) => [fs[0]]
          case OtherResult(_) => []) + StripResult(fs[1..])
  }

  function StripReply(fs: seq<ReplyField>): seq<ReplyField> {
    if fs == [] then []
    else (match fs[0]
          case Success(r) => [Success(StripResult(r))]
          case OtherReply(_) => []) + StripReply(fs[1..])
  }

  function StripError(fs: seq<ErrorField>): seq<ErrorField> {
    if fs == [] then [] else (if fs[0].OtherError? then [] else [fs[0]]) + StripError(fs[1..])
  }

  function Strip(m: Message): Message {
    match m
    case ReplyMessage(h, fs) => ReplyMessage(h, StripReply(fs))
    case ErrorMessage(h, fs) => ErrorMessage(h, StripError(fs))
  }

  lemma {:induction false} StripStatusSame(fs: seq<StatusField>, st: QueryStatus)
    requires StatusOk(fs)
    ensures StatusOk(StripStatus(fs)) && StatusReadable(StripStatus(fs))
    ensures StatusOf(StripStatus(fs), st) == StatusOf(fs, st)
  {
    if fs != [] {
      StripStatusSame(fs[1..], StatusField1(fs[0], st));
      if fs[0].OtherStatus? {
        assert StripStatus(fs) == StripStatus(fs[1..]);
      } else {
        assert StripStatus(fs)[1..] == StripStatus(fs[1..]);
      }
    }
  }

  lemma {:induction false} StripResultSame(fs: seq<ResultField>, resp: QueryResponse)
    requires ResultOk(fs)
    ensures ResultOk(StripResult(fs)) && ResultReadable(StripResult(fs))
    ensures ResultOf(StripResult(fs), resp) == ResultOf(fs, resp)
  {
    if fs != [] {
      StripResultSame(fs[1..], ResultField1(fs[0], resp));
      if fs[0].Status? {
        StripStatusSame(fs[0].status, resp.status);
      }
      if fs[0].OtherResult? {
        assert StripResult(fs) == StripResult(fs[1..]);
      } else {
        assert StripResult(fs)[1..] == StripResult(fs[1..]);
      }
    }
  }

  lemma {:induction false} StripReplySame(fs: seq<ReplyField>, resp: QueryResponse)
    requires ReplyOk(fs)
    ensures ReplyOk(StripReply(fs)) && ReplyReadable(StripReply(fs))
    ensures ReplyOf(StripReply(fs), resp) == ReplyOf(fs, resp)
  {
    if fs != [] {
      StripReplySame(fs[1..], ReplyField1(fs[0], resp));
      if fs[0].Success? {
        StripResultSame(fs[0].fields, resp);
        assert StripReply(fs)[1..] == StripReply(fs[1..]);
      } else {
        assert StripReply(fs) == StripReply(fs[1..]);
      }
    }
  }

  lemma {:induction false} StripErrorSame(fs: seq<ErrorField>)
    requires ErrorOk(fs)
    ensures ErrorOk(StripError(fs)) && ErrorReadable(StripError(fs))
  {
    if fs != [] {
      StripErrorSame(fs[1..]);
      if fs[0].OtherError? {
        assert StripError(fs) == StripError(fs[1..]);
      } else {
        assert StripError(fs)[1..] == StripError(fs[1..]);
      }
    }
  }

  lemma StripKeepsMeaning(m: Message)
    requires MessageOk(m)
    ensures MessageOk(Strip(m)) && Readable(Strip(m))
    ensures m.ReplyMessage? ==> Strip(m).ReplyMessage? && Meaning(Strip(m)) == Meaning(m)
    ensures m.ErrorMessage? ==> Strip(m).ErrorMessage?
  {
    match m
    case ReplyMessage(_, fs) => StripReplySame(fs, NO_RESPONSE);
    case ErrorMessage(_, fs) => StripErrorSame(fs);
  }

  /** Inserting skippable unknown fields anywhere, at any of the three levels, does not change the response, and in
      an exception not the failure; a single unskippable one makes a reply unreadable. */
  lemma UnknownFieldsAreIgnored(m: Message, tail: Bytes)
    requires MessageOk(m)
    ensures MessageOk(Strip(m)) && Readable(Strip(m))
    ensures Parse(EncodeMessage(m) + tail) == Outcome(m, |EncodeMessage(m)|)
    ensures Parse(EncodeMessage(Strip(m)) + tail)
         == if m.ReplyMessage? then Value(Meaning(m), |EncodeMessage(Strip(m))|) else Fatal
  {
    StripKeepsMeaning(m);
    hide MessageOk, Strip, Readable, Parse, Meaning, EncodeMessage;
    ParseEncoded(Strip(m), tail);
    ParseEncoded(m, tail);
  }

  // A Thrift `binary` value is well formed with any bytes, but it is skipped by reading it as text.
  const NOT_TEXT := OtherReply(WireField(7, Binary([0xFF])))

  lemma BinaryFieldCanBreakReply(h: MessageHeader, tail: Bytes)
    requires h.kind != Exception && |h.name| < MAX_LENGTH
    ensures MessageOk(ReplyMessage(h, [NOT_TEXT])) && Parse(EncodeMessage(ReplyMessage(h, [NOT_TEXT])) + tail) == Fatal
  {
    assert CharWidth([0xFF]) == 0;
    assert [NOT_TEXT][1..] == [] && !ReplyFieldReadable([NOT_TEXT][0]);
    assert ReplyOk([NOT_TEXT]);
    ParseEncoded(ReplyMessage(h, [NOT_TEXT]), tail);
  }
}
