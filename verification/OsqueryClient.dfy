// The osquery client: the nested parse loops over a protocol cursor, and the read-and-retry loop.
module OsqueryClient {
  import opened ThriftBinary
  import opened ThriftValues
  import opened OsqueryReply
  import opened OsqueryRoundTrip

  // The input protocol: a buffer and a cursor that every successful read moves.
  class BinaryInput {
    const buf: Bytes
    var pos: nat

    constructor (buf: Bytes)
      ensures this.buf == buf && pos == 0 && Valid()
    {
      this.buf := buf;
      pos := 0;
    }

    ghost predicate Valid()
      reads this
    {
      pos <= |buf|
    }

    method Advance<T>(read: Parsed<T>) returns (r: Parsed<T>)
      requires read.Value? ==> read.next <= |buf|
      modifies this
      ensures r == read && pos == if r.Value? then r.next else old(pos)
    {
      if read.Value? {
        pos := read.next;
      }
      r := read;
    }

    method MessageBegin() returns (r: Parsed<MessageHeader>)
      requires Valid()
      modifies this
      ensures r == ReadMessageBegin(buf, old(pos)) && Valid() && pos == if r.Value? then r.next else old(pos)
    {
      r := Advance(ReadMessageBegin(buf, pos));
    }

    method FieldBegin() returns (r: Parsed<FieldHeader>)
      requires Valid()
      modifies this
      ensures r == ReadFieldBegin(buf, old(pos)) && Valid() && pos == if r.Value? then r.next else old(pos)
    {
      r := Advance(ReadFieldBegin(buf, pos));
    }

    method ListBegin() returns (r: Parsed<ListHeader>)
      requires Valid()
      modifies this
      ensures r == ReadListBegin(buf, old(pos)) && Valid() && pos == if r.Value? then r.next else old(pos)
    {
      r := Advance(ReadListBegin(buf, pos));
    }

    method MapBegin() returns (r: Parsed<MapHeader>)
      requires Valid()
      modifies this
      ensures r == ReadMapBegin(buf, old(pos)) && Valid() && pos == if r.Value? then r.next else old(pos)
    {
      r := Advance(ReadMapBegin(buf, pos));
    }

    method I32() returns (r: Parsed<Int32>)
      requires Valid()
      modifies this
      ensures r == ReadInt32(buf, old(pos)) && Valid() && pos == if r.Value? then r.next else old(pos)
    {
      r := Advance(ReadInt32(buf, pos));
    }

    method Text() returns (r: Parsed<Utf8>)
      requires Valid()
      modifies this
      ensures r == ReadString(buf, old(pos)) && Valid() && pos == if r.Value? then r.next else old(pos)
    {
      r := Advance(ReadString(buf, pos));
    }

    method SkipValue(t: TType) returns (r: Parsed<()>)
      requires Valid()
      modifies this
      ensures r == Skip(buf, old(pos), t, MAX_SKIP_DEPTH) && Valid() && pos == if r.Value? then r.next else old(pos)
    {
      r := Advance(Skip(buf, pos, t, MAX_SKIP_DEPTH));
    }
  }

  method ParseStatus(prot: BinaryInput, start: QueryStatus) returns (r: Parsed<QueryStatus>)
    requires prot.Valid()
    modifies prot
    ensures prot.Valid() && r == ReadStatus(prot.buf, old(prot.pos), start)
    ensures r.Value? ==> prot.pos == r.next
  {
    hide ReadFieldBegin, ReadInt32, ReadString, Skip;
    var status := start;
    while true
      invariant prot.Valid()
      invariant ReadStatus(prot.buf, prot.pos, status) == ReadStatus(prot.buf, old(prot.pos), start)
      decreases |prot.buf| - prot.pos
    {
      var read :- prot.FieldBegin();
      var field := read.0;
      if field.ty == Stop {
        return Value(status, prot.pos);
      }
      if field.id == 1 {
        var code :- prot.I32();
        status := status.(code := code.0);
      } else if field.id == 2 {
        var message :- prot.Text();
        status := status.(message := message.0);
      } else {
        var _ :- prot.SkipValue(field.ty);
      }
    }
  }

  method ParseRow(prot: BinaryInput) returns (r: Parsed<Row>)
    requires prot.Valid()
    modifies prot
    ensures prot.Valid() && r == ReadRow(prot.buf, old(prot.pos))
    ensures r.Value? ==> prot.pos == r.next
  {
    hide ReadMapBegin, ReadString;
    var header :- prot.MapBegin();
    var h := header.0;
    var row: Row := map[];
    var i := 0;
    while i < h.size
      invariant prot.Valid()
      invariant i <= h.size || (i == 0 && h.size < 0)
      invariant ReadPairs(prot.buf, prot.pos, h.size - i, row) == ReadRow(prot.buf, old(prot.pos))
    {
      var k :- prot.Text();
      var v :- prot.Text();
      row := row[k.0 := v.0];
      i := i + 1;
    }
    return Value(row, prot.pos);
  }

  method ParseRows(prot: BinaryInput, start: seq<Row>) returns (r: Parsed<seq<Row>>)
    requires prot.Valid()
    modifies prot
    ensures prot.Valid()
    ensures r.Value? ==> prot.pos == r.next
    ensures var h := ReadListBegin(prot.buf, old(prot.pos));
            r == match h
                 case Value(h, p) => ReadRows(prot.buf, p, h.size, start)
                 case Eof => Eof
                 case Fatal => Fatal
  {
    hide ReadListBegin, ReadRow;
    var header :- prot.ListBegin();
    var h, p := header.0, header.1;
    var rows := start;
    var i := 0;
    while i < h.size
      invariant prot.Valid()
      invariant i <= h.size || (i == 0 && h.size < 0)
      invariant ReadRows(prot.buf, prot.pos, h.size - i, rows) == ReadRows(prot.buf, p, h.size, start)
    {
      var row :- ParseRow(prot);
      rows := rows + [row.0];
      i := i + 1;
    }
    return Value(rows, prot.pos);
  }

  method ParseResult(prot: BinaryInput, start: QueryResponse) returns (r: Parsed<QueryResponse>)
    requires prot.Valid()
    modifies prot
    ensures prot.Valid() && r == ReadResult(prot.buf, old(prot.pos), start)
    ensures r.Value? ==> prot.pos == r.next
  {
    hide ReadFieldBegin, ReadListBegin, ReadStatus, ReadRows, Skip;
    var resp := start;
    while true
      invariant prot.Valid()
      invariant ReadResult(prot.buf, prot.pos, resp) == ReadResult(prot.buf, old(prot.pos), start)
      decreases |prot.buf| - prot.pos
    {
      var read :- prot.FieldBegin();
      var field := read.0;
      if field.ty == Stop {
        return Value(resp, prot.pos);
      }
      match field.id
      case 1 =>
        var status :- ParseStatus(prot, resp.status);
        resp := resp.(status := status.0);
      case 2 =>
        var rows :- ParseRows(prot, resp.rows);
        resp := resp.(rows := rows.0);
      case _ =>
        var _ :- prot.SkipValue(field.ty);
    }
  }

  method ParseException(prot: BinaryInput) returns (r: Parsed<()>)
    requires prot.Valid()
    modifies prot
    ensures prot.Valid() && r == ReadException(prot.buf, old(prot.pos))
  {
    hide ReadFieldBegin, ReadInt32, ReadString, Skip;
    while true
      invariant prot.Valid()
      invariant ReadException(prot.buf, prot.pos) == ReadException(prot.buf, old(prot.pos))
      decreases |prot.buf| - prot.pos
    {
      var read :- prot.FieldBegin();
      var field := read.0;
      if field.ty == Stop {
        return Value((), prot.pos);
      }
      if field.id == 1 {
        var _ :- prot.Text();
      } else if field.id == 2 {
        var _ :- prot.I32();
      } else {
        var _ :- prot.SkipValue(field.ty);
      }
    }
  }

  /** The whole parse of one buffer, as the nested loops perform it. */
  method ParseQueryResponse(buf: Bytes) returns (r: Parsed<QueryResponse>)
    ensures r == Parse(buf)
  {
    hide ReadMessageBegin, ReadFieldBegin, ReadResult, ReadException, Skip;
    var prot := new BinaryInput(buf);
    var begin :- prot.MessageBegin();
    var header, start := begin.0, begin.1;
    if header.kind == Exception {
      var _ :- ParseException(prot);
      return Fatal;
    }
    var resp := NO_RESPONSE;
    while true
      invariant prot.Valid() && prot.buf == buf
      invariant ReadReply(buf, prot.pos, resp) == ReadReply(buf, start, NO_RESPONSE)
      decreases |buf| - prot.pos
    {
      var read :- prot.FieldBegin();
      var field := read.0;
      if field.ty == Stop {
        return Value(resp, prot.pos);
      }
      if field.id == 0 && field.ty == Struct {
        var result :- ParseResult(prot, resp);
        resp := result.0;
      } else {
        var _ :- prot.SkipValue(field.ty);
      }
    }
  }

  /// The read loop

  // How the stream ends once every chunk was read: a read of no bytes, or an I/O error.
  datatype Ending = Closed | Broken

  datatype QueryOutcome = Response(response: QueryResponse) | ParseFailed | ConnectionClosed | ReadFailed

  function Conclude(p: Parsed<QueryResponse>, ending: Ending): QueryOutcome {
    match p
    case Value(resp, _) => Response(resp)
    case Fatal => ParseFailed
    case Eof => if ending == Closed then ConnectionClosed else ReadFailed
  }

  function Flatten(chunks: seq<Bytes>): Bytes {
    if chunks == [] then [] else Flatten(chunks[..|chunks| - 1]) + chunks[|chunks| - 1]
  }

  lemma {:induction false} FlattenPrefix(chunks: seq<Bytes>, i: nat)
    requires i <= |chunks|
    ensures Flatten(chunks[..i]) <= Flatten(chunks)
    decreases |chunks|
  {
    if i == |chunks| {
      assert chunks[..i] == chunks;
    } else {
      var front := chunks[..|chunks| - 1];
      FlattenPrefix(front, i);
      assert front[..i] == chunks[..i];
    }
  }

  lemma NothingReadYet()
    ensures Parse([]).Eof?
  {
  }

  /** Reads until the bytes so far parse. The outcome depends on the bytes of the stream only, never on
      how the socket cut them, and no chunk is read beyond the first that settles it. */
  method Query(chunks: seq<Bytes>, ending: Ending) returns (r: QueryOutcome, used: nat)
    requires forall c | c in chunks :: c != []
    ensures r == Conclude(Parse(Flatten(chunks)), ending)
    ensures used <= |chunks|
    ensures r.Response? || r.ParseFailed? ==> used > 0 && !Parse(Flatten(chunks[..used])).Eof?
    ensures forall i | 0 <= i < used :: Parse(Flatten(chunks[..i])).Eof?
  {
    hide Parse;
    NothingReadYet();
    var buf: Bytes := [];
    used := 0;
    while used < |chunks|
      invariant used <= |chunks| && buf == Flatten(chunks[..used]) && Parse(buf).Eof?
      invariant forall i | 0 <= i <= used :: Parse(Flatten(chunks[..i])).Eof?
    {
      buf := buf + chunks[used];
      assert chunks[..used + 1][..used] == chunks[..used];
      used := used + 1;
      var parsed := ParseQueryResponse(buf);
      if parsed.Value? {
        FlattenPrefix(chunks, used);
        ParseIsStable(buf, Flatten(chunks));
        return Response(parsed.value), used;
      } else if parsed.Fatal? {
        FlattenPrefix(chunks, used);
        ParseIsStable(buf, Flatten(chunks));
        return ParseFailed, used;
      }
    }
    assert chunks[..used] == chunks;
    r := if ending == Closed then ConnectionClosed else ReadFailed;
  }

  /** Every well-formed reply or exception, cut into chunks in any way and followed by anything: the reply is
      returned exactly, the exception is a failure. */
  lemma AnyChunkingGivesTheReply(m: Message, chunks: seq<Bytes>, tail: Bytes, ending: Ending)
    requires MessageOk(m) && Flatten(chunks) == EncodeMessage(m) + tail
    ensures Conclude(Parse(Flatten(chunks)), ending)
         == if m.ReplyMessage? && Readable(m) then Response(Meaning(m)) else ParseFailed
  {
    ParseEncoded(m, tail);
  }

  /** A message that stops short is reported as a lost connection wherever it is cut, and whatever the chunks, if
      and only if each of its unknown fields can be skipped. */
  lemma TruncatedReplyIsReported(m: Message, ending: Ending)
    requires MessageOk(m)
    ensures (forall chunks | Flatten(chunks) < EncodeMessage(m) ::
               Conclude(Parse(Flatten(chunks)), ending) == if ending == Closed then ConnectionClosed else ReadFailed)
            <==> Readable(m)
  {
    hide Parse, Readable, EncodeMessage;
    if Readable(m) {
      forall chunks | Flatten(chunks) < EncodeMessage(m) ensures Parse(Flatten(chunks)).Eof? {
        EncodedPrefixIsEof(m, Flatten(chunks));
      }
    } else {
      var b := UnreadablePrefix(m);
      var chunks := [b];
      assert chunks[..0] == [] && Flatten(chunks) == b;
    }
  }

  /// The request

  // "query"
  const QUERY: Bytes := [0x71, 0x75, 0x65, 0x72, 0x79]

  function RequestBytes(sql: Utf8): Bytes
    requires |sql| < MAX_LENGTH
  {
    VersionWord(Call) + (StringBytes(QUERY) + Int32Bytes(1))
    + (FieldBegin(String, 1) + (StringBytes(sql) + [TypeCode(Stop)]))
  }

  lemma QueryIsUtf8()
    ensures ValidUtf8(QUERY)
  {
    assert QUERY[1..] == [0x75, 0x65, 0x72, 0x79] && QUERY[1..][1..] == [0x65, 0x72, 0x79];
    assert [0x65, 0x72, 0x79][1..] == [0x72, 0x79] && [0x72, 0x79][1..] == [0x79];
    assert ValidUtf8([0x72, 0x79]) && ValidUtf8([0x65, 0x72, 0x79]);
  }

  /** A strict reader finds a call of `query` with sequence number 1, whose one argument is the statement. */
  lemma RequestCarriesTheStatement(sql: Utf8)
    requires |sql| < MAX_LENGTH
    ensures var b := RequestBytes(sql);
            var p := 4 + |StringBytes(QUERY)| + 4;
            && ValidUtf8(QUERY)
            && ReadMessageBegin(b, 0) == Value(MessageHeader(Call, QUERY, 1), p)
            && ReadFieldBegin(b, p) == Value(FieldHeader(String, 1), p + 3)
            && ReadString(b, p + 3) == Value(sql, |b| - 1)
            && ReadFieldBegin(b, |b| - 1) == Value(FieldHeader(Stop, 0), |b|)
  {
    hide ReadMessageBegin, ReadFieldBegin, ReadString, ReadType, At, FieldBegin, ValidUtf8, StringBytes, TypeCode;
    QueryIsUtf8();
    var b := RequestBytes(sql);
    var h := MessageHeader(Call, QUERY, 1);
    AtIsSlice(b, 0, b);
    var p := AtSplit(b, 0, EncodeMessageBegin(h), FieldBegin(String, 1) + (StringBytes(sql) + [TypeCode(Stop)]));
    MessageBeginAt(b, 0, h);
    var q := AtSplit(b, p, FieldBegin(String, 1), StringBytes(sql) + [TypeCode(Stop)]);
    FieldBeginAt(b, p, String, 1);
    var s := AtSplit(b, q, StringBytes(sql), [TypeCode(Stop)]);
    StringAt(b, q, sql);
    StopAt(b, s);
  }
}
