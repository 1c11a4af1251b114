// Parsing the reply to osquery's `query` call, and every well-formed reply the parser may meet.
module OsqueryReply {
  import opened ThriftBinary
  import opened ThriftValues

  type Row = map<Utf8, Utf8>
  datatype QueryStatus = QueryStatus(code: Int32, message: Utf8)
  datatype QueryResponse = QueryResponse(status: QueryStatus, rows: seq<Row>)

  const NO_RESPONSE := QueryResponse(QueryStatus(-1, []), [])

  /// The parser, loop by loop

  function ReadStatus(b: Bytes, pos: nat, st: QueryStatus): (r: Parsed<QueryStatus>)
    ensures r.Value? ==> pos < r.next <= |b|
    decreases |b| - pos
  {
    var (f, p) :- ReadFieldBegin(b, pos);
    if f.ty == Stop then Value(st, p)
    else
      var (st', q) :- ReadStatusField(b, p, f, st);
      ReadStatus(b, q, st')
  }

  // The declared type of fields 1 and 2 is never looked at.
  function ReadStatusField(b: Bytes, pos: nat, f: FieldHeader, st: QueryStatus): (r: Parsed<QueryStatus>)
    ensures r.Value? ==> pos < r.next <= |b|
  {
    if f.id == 1 then
      var (code, p) :- ReadInt32(b, pos);
      Value(st.(code := code), p)
    else if f.id == 2 then
      var (message, p) :- ReadString(b, pos);
      Value(st.(message := message), p)
    else
      var (_, p) :- Skip(b, pos, f.ty, MAX_SKIP_DEPTH);
      Value(st, p)
  }

  function ReadPairs(b: Bytes, pos: nat, n: int, row: Row): (r: Parsed<Row>)
    requires pos <= |b|
    ensures r.Value? ==> pos <= r.next <= |b|
    decreases n
  {
    if n <= 0 then Value(row, pos)
    else
      var (k, p) :- ReadString(b, pos);
      var (v, q) :- ReadString(b, p);
      ReadPairs(b, q, n - 1, row[k := v])
  }

  function ReadRow(b: Bytes, pos: nat): (r: Parsed<Row>)
    ensures r.Value? ==> pos < r.next <= |b|
  {
    var (h, p) :- ReadMapBegin(b, pos);
    ReadPairs(b, p, h.size, map[])
  }

  function ReadRows(b: Bytes, pos: nat, n: int, rows: seq<Row>): (r: Parsed<seq<Row>>)
    requires pos <= |b|
    ensures r.Value? ==> pos <= r.next <= |b|
    decreases n
  {
    if n <= 0 then Value(rows, pos)
    else
      var (row, p) :- ReadRow(b, pos);
      ReadRows(b, p, n - 1, rows + [row])
  }

  function ReadResultField(b: Bytes, pos: nat, f: FieldHeader, resp: QueryResponse): (r: Parsed<QueryResponse>)
    ensures r.Value? ==> pos < r.next <= |b|
  {
    if f.id == 1 then
      var (st, p) :- ReadStatus(b, pos, resp.status);
      Value(resp.(status := st), p)
    else if f.id == 2 then
      var (h, p) :- ReadListBegin(b, pos);
      var (rows, q) :- ReadRows(b, p, h.size, resp.rows);
      Value(resp.(rows := rows), q)
    else
      var (_, p) :- Skip(b, pos, f.ty, MAX_SKIP_DEPTH);
      Value(resp, p)
  }

  function ReadResult(b: Bytes, pos: nat, resp: QueryResponse): (r: Parsed<QueryResponse>)
    ensures r.Value? ==> pos < r.next <= |b|
    decreases |b| - pos
  {
    var (f, p) :- ReadFieldBegin(b, pos);
    if f.ty == Stop then Value(resp, p)
    else
      var (resp', q) :- ReadResultField(b, p, f, resp);
      ReadResult(b, q, resp')
  }

  // The success value of a Thrift call is field 0 of the reply struct.
  function ReadReplyField(b: Bytes, pos: nat, f: FieldHeader, resp: QueryResponse): (r: Parsed<QueryResponse>)
    ensures r.Value? ==> pos < r.next <= |b|
  {
    if f.id == 0 && f.ty == Struct then ReadResult(b, pos, resp)
    else
      var (_, p) :- Skip(b, pos, f.ty, MAX_SKIP_DEPTH);
      Value(resp, p)
  }

  function ReadReply(b: Bytes, pos: nat, resp: QueryResponse): (r: Parsed<QueryResponse>)
    ensures r.Value? ==> pos < r.next <= |b|
    decreases |b| - pos
  {
    var (f, p) :- ReadFieldBegin(b, pos);
    if f.ty == Stop then Value(resp, p)
    else
      var (resp', q) :- ReadReplyField(b, p, f, resp);
      ReadReply(b, q, resp')
  }

  // The body of an exception message: field 1 is its text, field 2 its kind. The client keeps neither.
  function ReadExceptionField(b: Bytes, pos: nat, f: FieldHeader): (r: Parsed<()>)
    ensures r.Value? ==> pos < r.next <= |b|
  {
    if f.id == 1 then
      var (_, p) :- ReadString(b, pos);
      Value((), p)
    else if f.id == 2 then
      var (_, p) :- ReadInt32(b, pos);
      Value((), p)
    else
      Skip(b, pos, f.ty, MAX_SKIP_DEPTH)
  }

  function ReadException(b: Bytes, pos: nat): (r: Parsed<()>)
    ensures r.Value? ==> pos < r.next <= |b|
    decreases |b| - pos
  {
    var (f, p) :- ReadFieldBegin(b, pos);
    if f.ty == Stop then Value((), p)
    else
      var (_, q) :- ReadExceptionField(b, p, f);
      ReadException(b, q)
  }

  function Parse(b: Bytes): (r: Parsed<QueryResponse>)
    ensures r.Value? ==> r.next <= |b|
  {
    var (h, p) :- ReadMessageBegin(b, 0);
    if h.kind == Exception then
      var (_, _) :- ReadException(b, p);
      Fatal
    else
      ReadReply(b, p, NO_RESPONSE)
  }

  /// Stability: bytes that arrive later change no outcome other than Eof

  lemma {:induction false} ReadStatusIsStable(b: Bytes, c: Bytes, pos: nat, st: QueryStatus)
    requires b <= c
    ensures Stable(ReadStatus(b, pos, st), ReadStatus(c, pos, st))
    decreases |b| - pos
  {
    FieldBeginIsStable(b, c, pos);
    var f := ReadFieldBegin(b, pos);
    if f.Value? && f.value.ty != Stop {
      ReadStatusFieldIsStable(b, c, f.next, f.value, st);
      var s := ReadStatusField(b, f.next, f.value, st);
      if s.Value? {
        ReadStatusIsStable(b, c, s.next, s.value);
      }
    }
  }

  lemma ReadStatusFieldIsStable(b: Bytes, c: Bytes, pos: nat, f: FieldHeader, st: QueryStatus)
    requires b <= c
    ensures Stable(ReadStatusField(b, pos, f, st), ReadStatusField(c, pos, f, st))
  {
    ReadsAreStable(b, c, pos);
    StringIsStable(b, c, pos);
    SkipIsStable(b, c, pos, f.ty, MAX_SKIP_DEPTH);
  }

  lemma {:induction false} ReadPairsIsStable(b: Bytes, c: Bytes, pos: nat, n: int, row: Row)
    requires b <= c && pos <= |b|
    ensures Stable(ReadPairs(b, pos, n, row), ReadPairs(c, pos, n, row))
    decreases n
  {
    if n > 0 {
      StringIsStable(b, c, pos);
      var k := ReadString(b, pos);
      if k.Value? {
        StringIsStable(b, c, k.next);
        var v := ReadString(b, k.next);
        if v.Value? {
          ReadPairsIsStable(b, c, v.next, n - 1, row[k.value := v.value]);
        }
      }
    }
  }

  lemma ReadRowIsStable(b: Bytes, c: Bytes, pos: nat)
    requires b <= c
    ensures Stable(ReadRow(b, pos), ReadRow(c, pos))
  {
    MapBeginIsStable(b, c, pos);
    var h := ReadMapBegin(b, pos);
    if h.Value? {
      ReadPairsIsStable(b, c, h.next, h.value.size, map[]);
    }
  }

  lemma {:induction false} ReadRowsIsStable(b: Bytes, c: Bytes, pos: nat, n: int, rows: seq<Row>)
    requires b <= c && pos <= |b|
    ensures Stable(ReadRows(b, pos, n, rows), ReadRows(c, pos, n, rows))
    decreases n
  {
    if n > 0 {
      ReadRowIsStable(b, c, pos);
      var row := ReadRow(b, pos);
      if row.Value? {
        ReadRowsIsStable(b, c, row.next, n - 1, rows + [row.value]);
      }
    }
  }

  lemma ReadResultFieldIsStable(b: Bytes, c: Bytes, pos: nat, f: FieldHeader, resp: QueryResponse)
    requires b <= c
    ensures Stable(ReadResultField(b, pos, f, resp), ReadResultField(c, pos, f, resp))
  {
    if f.id == 1 {
      ReadStatusIsStable(b, c, pos, resp.status);
    } else if f.id == 2 {
      ListBeginIsStable(b, c, pos);
      var h := ReadListBegin(b, pos);
      if h.Value? {
        ReadRowsIsStable(b, c, h.next, h.value.size, resp.rows);
      }
    } else {
      SkipIsStable(b, c, pos, f.ty, MAX_SKIP_DEPTH);
    }
  }

  lemma {:induction false} ReadResultIsStable(b: Bytes, c: Bytes, pos: nat, resp: QueryResponse)
    requires b <= c
    ensures Stable(ReadResult(b, pos, resp), ReadResult(c, pos, resp))
    decreases |b| - pos
  {
    FieldBeginIsStable(b, c, pos);
    var f := ReadFieldBegin(b, pos);
    if f.Value? && f.value.ty != Stop {
      ReadResultFieldIsStable(b, c, f.next, f.value, resp);
      var s := ReadResultField(b, f.next, f.value, resp);
      if s.Value? {
        ReadResultIsStable(b, c, s.next, s.value);
      }
    }
  }

  lemma {:induction false} ReadReplyIsStable(b: Bytes, c: Bytes, pos: nat, resp: QueryResponse)
    requires b <= c
    ensures Stable(ReadReply(b, pos, resp), ReadReply(c, pos, resp))
    decreases |b| - pos
  {
    FieldBeginIsStable(b, c, pos);
    var f := ReadFieldBegin(b, pos);
    if f.Value? && f.value.ty != Stop {
      ReadResultIsStable(b, c, f.next, resp);
      SkipIsStable(b, c, f.next, f.value.ty, MAX_SKIP_DEPTH);
      var s := ReadReplyField(b, f.next, f.value, resp);
      if s.Value? {
        ReadReplyIsStable(b, c, s.next, s.value);
      }
    }
  }

  lemma ReadExceptionFieldIsStable(b: Bytes, c: Bytes, pos: nat, f: FieldHeader)
    requires b <= c
    ensures Stable(ReadExceptionField(b, pos, f), ReadExceptionField(c, pos, f))
  {
    ReadsAreStable(b, c, pos);
    StringIsStable(b, c, pos);
    SkipIsStable(b, c, pos, f.ty, MAX_SKIP_DEPTH);
  }

  lemma {:induction false} ReadExceptionIsStable(b: Bytes, c: Bytes, pos: nat)
    requires b <= c
    ensures Stable(ReadException(b, pos), ReadException(c, pos))
    decreases |b| - pos
  {
    FieldBeginIsStable(b, c, pos);
    var f := ReadFieldBegin(b, pos);
    if f.Value? && f.value.ty != Stop {
      ReadExceptionFieldIsStable(b, c, f.next, f.value);
      var s := ReadExceptionField(b, f.next, f.value);
      if s.Value? {
        ReadExceptionIsStable(b, c, s.next);
      }
    }
  }

  /** Bytes appended to any buffer, well formed or not, change neither a value nor a fatal error. */
  lemma ParseIsStable(b: Bytes, c: Bytes)
    requires b <= c
    ensures Stable(Parse(b), Parse(c))
  {
    MessageBeginIsStable(b, c, 0);
    var h := ReadMessageBegin(b, 0);
    if h.Value? {
      ReadReplyIsStable(b, c, h.next, NO_RESPONSE);
      ReadExceptionIsStable(b, c, h.next);
    }
  }

  // The whole buffer is one reply, or one exception, up to its last byte.
  predicate ReadWhole(c: Bytes) {
    var h := ReadMessageBegin(c, 0);
    h.Value? &&
    if h.value.kind == Exception
    then ReadException(c, h.next) == Value((), |c|)
    else ReadReply(c, h.next, NO_RESPONSE).Value? && ReadReply(c, h.next, NO_RESPONSE).next == |c|
  }

  /** A buffer that is read up to its last byte has only Eof prefixes. */
  lemma StrictPrefixIsEof(b: Bytes, c: Bytes)
    requires b < c && ReadWhole(c)
    ensures Parse(b).Eof?
  {
    hide ReadMessageBegin, ReadReply, ReadException;
    MessageBeginIsStable(b, c, 0);
    var h := ReadMessageBegin(b, 0);
    if h.Value? {
      ReadReplyIsStable(b, c, h.next, NO_RESPONSE);
      ReadExceptionIsStable(b, c, h.next);
    }
  }

  /// Well-formed messages: the fields the parser knows, mixed in any order with fields it must skip

  datatype StatusField =
    | Code(code: Int32)
    | Text(message: Utf8)
    | OtherStatus(field: WireField)

  type Pairs = seq<(Utf8, Utf8)>

  datatype ResultField =
    | Status(status: seq<StatusField>)
    | Rows(rows: seq<Pairs>)
    | OtherResult(field: WireField)

  datatype ReplyField =
    | Success(fields: seq<ResultField>)
    | OtherReply(field: WireField)

  datatype ErrorField =
    | ErrorText(message: Utf8)
    | ErrorKind(kind: Int32)
    | OtherError(field: WireField)

  // What a server sends back: a reply, or an application exception.
  datatype Message =
    | ReplyMessage(header: MessageHeader, fields: seq<ReplyField>)
    | ErrorMessage(header: MessageHeader, errors: seq<ErrorField>)

  predicate StatusFieldOk(f: StatusField) {
    match f
    case Code(_) => true
    case Text(m) => |m| < MAX_LENGTH
    case OtherStatus(w) => FieldWellFormed(w) && w.id != 1 && w.id != 2
  }

  predicate StatusOk(fs: seq<StatusField>) {
    fs == [] || (StatusFieldOk(fs[0]) && StatusOk(fs[1..]))
  }

  predicate PairsOk(ps: Pairs) {
    ps == [] || (|ps[0].0| < MAX_LENGTH && |ps[0].1| < MAX_LENGTH && PairsOk(ps[1..]))
  }

  predicate RowsOk(rows: seq<Pairs>) {
    rows == [] || (|rows[0]| < MAX_LENGTH && PairsOk(rows[0]) && RowsOk(rows[1..]))
  }

  predicate ResultFieldOk(f: ResultField) {
    match f
    case Status(fs) => StatusOk(fs)
    case Rows(rows) => |rows| < MAX_LENGTH && RowsOk(rows)
    case OtherResult(w) => FieldWellFormed(w) && w.id != 1 && w.id != 2
  }

  predicate ResultOk(fs: seq<ResultField>) {
    fs == [] || (ResultFieldOk(fs[0]) && ResultOk(fs[1..]))
  }

  predicate ReplyFieldOk(f: ReplyField) {
    match f
    case Success(fs) => ResultOk(fs)
    case OtherReply(w) => FieldWellFormed(w) && !(w.id == 0 && w.value.Record?)
  }

  predicate ReplyOk(fs: seq<ReplyField>) {
    fs == [] || (ReplyFieldOk(fs[0]) && ReplyOk(fs[1..]))
  }

  predicate ErrorFieldOk(f: ErrorField) {
    match f
    case ErrorText(m) => |m| < MAX_LENGTH
    case ErrorKind(_) => true
    case OtherError(w) => FieldWellFormed(w) && w.id != 1 && w.id != 2
  }

  predicate ErrorOk(fs: seq<ErrorField>) {
    fs == [] || (ErrorFieldOk(fs[0]) && ErrorOk(fs[1..]))
  }

  predicate MessageOk(m: Message) {
    && |m.header.name| < MAX_LENGTH
    && (m.header.kind == Exception <==> m.ErrorMessage?)
    && match m case ReplyMessage(_, fs) => ReplyOk(fs) case ErrorMessage(_, fs) => ErrorOk(fs)
  }

  /// Their encoding

  function EncodeStatusField(f: StatusField): Bytes
    requires StatusFieldOk(f)
  {
    match f
    case Code(n) => FieldBegin(I32, 1) + Int32Bytes(n)
    case Text(m) => FieldBegin(String, 2) + StringBytes(m)
    case OtherStatus(w) => EncodeField(w)
  }

  function EncodeStatus(fs: seq<StatusField>): Bytes
    requires StatusOk(fs)
  {
    if fs == [] then [TypeCode(Stop)] else EncodeStatusField(fs[0]) + EncodeStatus(fs[1..])
  }

  function EncodePairs(ps: Pairs): Bytes
    requires PairsOk(ps)
  {
    if ps == [] then [] else StringBytes(ps[0].0) + (StringBytes(ps[0].1) + EncodePairs(ps[1..]))
  }

  function EncodeRow(ps: Pairs): Bytes
    requires |ps| < MAX_LENGTH && PairsOk(ps)
  {
    MapBegin(String, String, |ps|) + EncodePairs(ps)
  }

  function EncodeRows(rows: seq<Pairs>): Bytes
    requires RowsOk(rows)
  {
    if rows == [] then [] else EncodeRow(rows[0]) + EncodeRows(rows[1..])
  }

  function EncodeResultField(f: ResultField): Bytes
    requires ResultFieldOk(f)
  {
    match f
    case Status(fs) => FieldBegin(Struct, 1) + EncodeStatus(fs)
    case Rows(rows) => FieldBegin(List, 2) + (ListBegin(Map, |rows|) + EncodeRows(rows))
    case OtherResult(w) => EncodeField(w)
  }

  function EncodeResult(fs: seq<ResultField>): Bytes
    requires ResultOk(fs)
  {
    if fs == [] then [TypeCode(Stop)] else EncodeResultField(fs[0]) + EncodeResult(fs[1..])
  }

  function EncodeReplyField(f: ReplyField): Bytes
    requires ReplyFieldOk(f)
  {
    match f
    case Success(fs) => FieldBegin(Struct, 0) + EncodeResult(fs)
    case OtherReply(w) => EncodeField(w)
  }

  function EncodeReply(fs: seq<ReplyField>): Bytes
    requires ReplyOk(fs)
  {
    if fs == [] then [TypeCode(Stop)] else EncodeReplyField(fs[0]) + EncodeReply(fs[1..])
  }

  function VersionWord(k: MessageKind): Bytes {
    [0x80, 0x01, 0x00, KindCode(k)]
  }

  function EncodeMessageBegin(h: MessageHeader): Bytes
    requires |h.name| < MAX_LENGTH
  {
    VersionWord(h.kind) + (StringBytes(h.name) + Int32Bytes(h.sequence))
  }

  function EncodeErrorField(f: ErrorField): Bytes
    requires ErrorFieldOk(f)
  {
    match f
    case ErrorText(m) => FieldBegin(String, 1) + StringBytes(m)
    case ErrorKind(n) => FieldBegin(I32, 2) + Int32Bytes(n)
    case OtherError(w) => EncodeField(w)
  }

  function EncodeError(fs: seq<ErrorField>): Bytes
    requires ErrorOk(fs)
  {
    if fs == [] then [TypeCode(Stop)] else EncodeErrorField(fs[0]) + EncodeError(fs[1..])
  }

  function EncodeBody(m: Message): (body: Bytes)
    requires MessageOk(m)
  {
    match m case ReplyMessage(_, fs) => EncodeReply(fs) case ErrorMessage(_, fs) => EncodeError(fs)
  }

  function EncodeMessage(m: Message): Bytes
    requires MessageOk(m)
  {
    EncodeMessageBegin(m.header) + EncodeBody(m)
  }

  /// Their meaning: later status fields win, rows accumulate, unknown fields say nothing

  function RowOf(ps: Pairs, row: Row): Row {
    if ps == [] then row else RowOf(ps[1..], row[ps[0].0 := ps[0].1])
  }

  function RowsOf(rows: seq<Pairs>): (r: seq<Row>)
    ensures |r| == |rows|
  {
    if rows == [] then [] else [RowOf(rows[0], map[])] + RowsOf(rows[1..])
  }

  function StatusField1(f: StatusField, st: QueryStatus): QueryStatus {
    match f
    case Code(n) => st.(code := n)
    case Text(m) => st.(message := m)
    case OtherStatus(_) => st
  }

  function StatusOf(fs: seq<StatusField>, st: QueryStatus): QueryStatus {
    if fs == [] then st else StatusOf(fs[1..], StatusField1(fs[0], st))
  }

  function ResultField1(f: ResultField, resp: QueryResponse): QueryResponse {
    match f
    case Status(fs) => resp.(status := StatusOf(fs, resp.status))
    case Rows(rows) => resp.(rows := resp.rows + RowsOf(rows))
    case OtherResult(_) => resp
  }

  function ResultOf(fs: seq<ResultField>, resp: QueryResponse): QueryResponse {
    if fs == [] then resp else ResultOf(fs[1..], ResultField1(fs[0], resp))
  }

  function ReplyField1(f: ReplyField, resp: QueryResponse): QueryResponse {
    match f
    case Success(r) => ResultOf(r, resp)
    case OtherReply(_) => resp
  }

  function ReplyOf(fs: seq<ReplyField>, resp: QueryResponse): QueryResponse {
    if fs == [] then resp
    else ReplyOf(fs[1..], ReplyField1(fs[0], resp))
  }

  function Meaning(m: Message): QueryResponse
    requires m.ReplyMessage?
  {
    ReplyOf(m.fields, NO_RESPONSE)
  }

  /// Which messages the parser can get through: those whose unknown fields it can skip

  predicate StatusReadable(fs: seq<StatusField>) {
    fs == [] || (StatusFieldReadable(fs[0]) && StatusReadable(fs[1..]))
  }

  predicate StatusFieldReadable(f: StatusField) {
    f.OtherStatus? ==> FieldSkippable(f.field, MAX_SKIP_DEPTH)
  }

  predicate ResultFieldReadable(f: ResultField) {
    match f
    case Status(fs) => StatusReadable(fs)
    case Rows(_) => true
    case OtherResult(w) => FieldSkippable(w, MAX_SKIP_DEPTH)
  }

  predicate ResultReadable(fs: seq<ResultField>) {
    fs == [] || (ResultFieldReadable(fs[0]) && ResultReadable(fs[1..]))
  }

  predicate ReplyFieldReadable(f: ReplyField) {
    match f
    case Success(fs) => ResultReadable(fs)
    case OtherReply(w) => FieldSkippable(w, MAX_SKIP_DEPTH)
  }

  predicate ErrorFieldReadable(f: ErrorField) {
    f.OtherError? ==> FieldSkippable(f.field, MAX_SKIP_DEPTH)
  }

  predicate ErrorReadable(fs: seq<ErrorField>) {
    fs == [] || (ErrorFieldReadable(fs[0]) && ErrorReadable(fs[1..]))
  }

  predicate Readable(m: Message) {
    match m case ReplyMessage(_, fs) => ReplyReadable(fs) case ErrorMessage(_, fs) => ErrorReadable(fs)
  }

  predicate ReplyReadable(fs: seq<ReplyField>) {
    fs == [] || (ReplyFieldReadable(fs[0]) && ReplyReadable(fs[1..]))
  }

  // What the whole message parses to. An exception is read to its end and then reported as an error.
  function Outcome(m: Message, next: nat): Parsed<QueryResponse> {
    if m.ReplyMessage? && Readable(m) then Value(Meaning(m), next) else Fatal
  }
}
