// Flattening an event's JSON payload to the text the rules scan.
module ScanBuffer {
  import opened Collections
  import opened DiffScheduler

  datatype Json =
    | Null
    | Bool(b: bool)
    | Number(n: int)
    | String(s: string)
    | Array(items: seq<Json>)
    | Object(fields: map<string, Json>)

  // The JSON library's rendering of a whole payload.
  type Serializer = Json -> string

  function ScannedKeys(): seq<string> {
    ["cmdline", "cmd", "command_line", "path", "target_path", "parent_path", "cwd", "name",
     "remote_address", "local_address", "user", "description", "args", "syscall", "action"]
  }

  /// The scannable strings, in order

  function StringAt(fields: map<string, Json>, key: string): seq<string> {
    if key in fields && fields[key].String? then [fields[key].s] else []
  }

  function ItemsAt(fields: map<string, Json>, key: string): seq<Json> {
    if key in fields && fields[key].Array? then fields[key].items else []
  }

  function KeyStrings(fields: map<string, Json>, keys: seq<string>): seq<string> {
    if keys == [] then [] else StringAt(fields, keys[0]) + KeyStrings(fields, keys[1..])
  }

  function ColumnValue(column: Json): seq<string> {
    if column.Object? then StringAt(column.fields, "value") else []
  }

  function ColumnStrings(columns: seq<Json>): seq<string> {
    if columns == [] then [] else ColumnValue(columns[0]) + ColumnStrings(columns[1..])
  }

  function RowStrings(row: Json): seq<string> {
    if row.Object?
    then KeyStrings(row.fields, ScannedKeys()) + ColumnStrings(ItemsAt(row.fields, "columns"))
    else []
  }

  function RowsStrings(rows: seq<Json>): seq<string> {
    if rows == [] then [] else RowStrings(rows[0]) + RowsStrings(rows[1..])
  }

  function Scannable(payload: Json): seq<string> {
    if payload.Object?
    then KeyStrings(payload.fields, ScannedKeys()) + RowsStrings(ItemsAt(payload.fields, "rows"))
    else []
  }

  function Terminated(ss: seq<string>): string {
    if ss == [] then "" else ss[0] + "\n" + Terminated(ss[1..])
  }

  lemma {:induction false} TerminatedConcat(a: seq<string>, b: seq<string>)
    ensures Terminated(a + b) == Terminated(a) + Terminated(b)
  {
    if a == [] {
      assert a + b == b;
    } else {
      TerminatedConcat(a[1..], b);
      assert (a + b)[1..] == a[1..] + b;
    }
  }

  lemma TerminatedSnoc(ss: seq<string>, s: string)
    ensures Terminated(ss + [s]) == Terminated(ss) + s + "\n"
  {
    TerminatedConcat(ss, [s]);
    assert [s][1..] == [];
  }

  lemma TakeKey(fields: map<string, Json>, keys: seq<string>, i: nat)
    requires i < |keys|
    ensures KeyStrings(fields, keys[i..]) == StringAt(fields, keys[i]) + KeyStrings(fields, keys[i + 1..])
  {
    assert keys[i..][1..] == keys[i + 1..];
  }

  lemma TakeColumn(columns: seq<Json>, i: nat)
    requires i < |columns|
    ensures ColumnStrings(columns[i..]) == ColumnValue(columns[i]) + ColumnStrings(columns[i + 1..])
  {
    assert columns[i..][1..] == columns[i + 1..];
  }

  lemma TakeRow(rows: seq<Json>, i: nat)
    requires i < |rows|
    ensures RowsStrings(rows[i..]) == RowStrings(rows[i]) + RowsStrings(rows[i + 1..])
  {
    assert rows[i..][1..] == rows[i + 1..];
  }

  lemma NothingLeft(fields: map<string, Json>)
    ensures KeyStrings(fields, []) == [] && ColumnStrings([]) == [] && RowsStrings([]) == [] && Terminated([]) == ""
  {
  }

  /// The flattener

  method ScanObject(fields: map<string, Json>, buffer: string) returns (out: string)
    ensures out == buffer + Terminated(KeyStrings(fields, ScannedKeys()))
  {
    hide ScannedKeys, Terminated, KeyStrings;
    out := buffer;
    var keys := ScannedKeys();
    ghost var done: seq<string> := [];
    NothingLeft(fields);
    assert keys[0..] == keys && keys[|keys|..] == [];
    for i := 0 to |keys|
      invariant out == buffer + Terminated(done)
      invariant done + KeyStrings(fields, keys[i..]) == KeyStrings(fields, keys)
    {
      var key := keys[i];
      TakeKey(fields, keys, i);
      if key in fields && fields[key].String? {
        TerminatedSnoc(done, fields[key].s);
        done := done + [fields[key].s];
        out := out + fields[key].s + "\n";
      }
    }
    assert done == KeyStrings(fields, keys);
  }

  method ScanColumns(columns: seq<Json>, buffer: string) returns (out: string)
    ensures out == buffer + Terminated(ColumnStrings(columns))
  {
    hide Terminated, ColumnStrings;
    out := buffer;
    ghost var done: seq<string> := [];
    NothingLeft(map[]);
    assert columns[0..] == columns && columns[|columns|..] == [];
    for i := 0 to |columns|
      invariant out == buffer + Terminated(done)
      invariant done + ColumnStrings(columns[i..]) == ColumnStrings(columns)
    {
      var column := columns[i];
      TakeColumn(columns, i);
      if column.Object? {
        if "value" in column.fields && column.fields["value"].String? {
          TerminatedSnoc(done, column.fields["value"].s);
          done := done + [column.fields["value"].s];
          out := out + column.fields["value"].s + "\n";
        }
      }
    }
    assert done == ColumnStrings(columns);
  }

  /** The text is every scannable string and a newline, in order; without any, the serialized payload. */
  method ExtractScannableBuffer(payload: Json, serialize: Serializer) returns (buffer: string)
    ensures buffer == if Scannable(payload) == [] then serialize(payload) else Terminated(Scannable(payload))
  {
    hide KeyStrings, ColumnStrings, RowsStrings, ScannedKeys, Terminated;
    buffer := "";
    ghost var done: seq<string> := [];
    NothingLeft(map[]);
    if payload.Object? {
      buffer := ScanObject(payload.fields, buffer);
      done := KeyStrings(payload.fields, ScannedKeys());
      var rows := ItemsAt(payload.fields, "rows");
      assert rows[0..] == rows && rows[|rows|..] == [];
      for i := 0 to |rows|
        invariant buffer == Terminated(done)
        invariant done + RowsStrings(rows[i..]) == Scannable(payload)
      {
        var row := rows[i];
        TakeRow(rows, i);
        if row.Object? {
          buffer := ScanObject(row.fields, buffer);
          ghost var keyed := KeyStrings(row.fields, ScannedKeys());
          TerminatedConcat(done, keyed);
          buffer := ScanColumns(ItemsAt(row.fields, "columns"), buffer);
          TerminatedConcat(done + keyed, ColumnStrings(ItemsAt(row.fields, "columns")));
          done := done + keyed + ColumnStrings(ItemsAt(row.fields, "columns"));
        }
      }
    }
    assert done == Scannable(payload);
    TextIsEmptyIff(done);
    if buffer == "" {
      buffer := serialize(payload);
    }
  }

  lemma TextIsEmptyIff(ss: seq<string>)
    ensures Terminated(ss) == "" <==> ss == []
  {
  }

  /// Splitting the text again

  function Split(text: string): (ss: seq<string>)
    ensures forall s | s in ss :: '\n' !in s
    decreases |text|
  {
    if text == "" then []
    else
      var i := IndexOf(text, '\n');
      [text[..i]] + if i == |text| then [] else Split(text[i + 1..])
  }

  /** Splitting on newlines gives the strings back if and only if none holds a newline. */
  lemma {:induction false} SplitRecoversIff(ss: seq<string>)
    ensures Split(Terminated(ss)) == ss <==> forall s | s in ss :: '\n' !in s
  {
    if forall s | s in ss :: '\n' !in s {
      SplitRecovers(ss);
    }
  }

  lemma {:induction false} SplitRecovers(ss: seq<string>)
    requires forall s | s in ss :: '\n' !in s
    ensures Split(Terminated(ss)) == ss
  {
    if ss != [] {
      var rest := Terminated(ss[1..]);
      assert ss[0] in ss;
      IndexOfFirst(ss[0], '\n', rest);
      assert Terminated(ss)[..|ss[0]|] == ss[0] && Terminated(ss)[|ss[0]| + 1..] == rest;
      SplitRecovers(ss[1..]);
    }
  }

  /// Osquery results

  function ActionName(a: ResultAction): string {
    match a case Snapshot => "SNAPSHOT" case Added => "ADDED" case Removed => "REMOVED"
  }

  function ColumnJson(c: Column): Json {
    Object(map["name" := String(c.name), "value" := String(c.value)])
  }

  function RowJson(columns: seq<Column>): Json {
    Object(map["columns" := Array(seq(|columns|, i requires 0 <= i < |columns| => ColumnJson(columns[i])))])
  }

  function RowsJson(rows: seq<seq<Column>>): (items: seq<Json>)
    ensures |items| == |rows|
  {
    seq(|rows|, i requires 0 <= i < |rows| => RowJson(rows[i]))
  }

  // How a result is serialized into the payload of an event.
  function PayloadOf(r: Result, agent: string, time: int): Json {
    Object(map["query_name" := String(r.query), "agent_uuid" := String(agent), "timestamp_ns" := Number(time),
               "rows" := Array(RowsJson(r.rows)),
               "action" := String(ActionName(r.action))])
  }

  function Values(columns: seq<Column>): (v: seq<string>)
    ensures |v| == |columns|
  {
    seq(|columns|, i requires 0 <= i < |columns| => columns[i].value)
  }

  function AllValues(rows: seq<seq<Column>>): seq<string> {
    if rows == [] then [] else Values(rows[0]) + AllValues(rows[1..])
  }

  lemma {:induction false} KeyStringsOf(fields: map<string, Json>, keys: seq<string>)
    requires forall k | k in keys && k in fields :: !fields[k].String?
    ensures KeyStrings(fields, keys) == []
  {
    if keys != [] {
      assert keys[0] in keys;
      KeyStringsOf(fields, keys[1..]);
    }
  }

  lemma {:induction false} ColumnStringsOf(columns: seq<Column>)
    ensures ColumnStrings(RowJson(columns).fields["columns"].items) == Values(columns)
  {
    if columns != [] {
      var items := RowJson(columns).fields["columns"].items;
      assert items[0] == ColumnJson(columns[0]);
      assert items[1..] == RowJson(columns[1..]).fields["columns"].items;
      ColumnStringsOf(columns[1..]);
      assert Values(columns) == [columns[0].value] + Values(columns[1..]);
    }
  }

  lemma RowStringsOf(columns: seq<Column>)
    ensures RowStrings(RowJson(columns)) == Values(columns)
  {
    KeyStringsOf(RowJson(columns).fields, ScannedKeys());
    ColumnStringsOf(columns);
  }

  lemma {:induction false} RowsStringsOf(rows: seq<seq<Column>>)
    ensures RowsStrings(RowsJson(rows)) == AllValues(rows)
  {
    hide RowStrings, RowJson;
    if rows != [] {
      assert RowsJson(rows)[1..] == RowsJson(rows[1..]);
      RowStringsOf(rows[0]);
      RowsStringsOf(rows[1..]);
    }
  }

  lemma OnlyActionAtTop(r: Result, agent: string, time: int)
    ensures KeyStrings(PayloadOf(r, agent, time).fields, ScannedKeys()) == [ActionName(r.action)]
  {
    var fields, keys := PayloadOf(r, agent, time).fields, ScannedKeys();
    var others := keys[..14];
    assert keys == others + ["action"];
    assert forall k | k in others && k in fields :: !fields[k].String?;
    hide KeyStrings, ScannedKeys;
    KeyStringsConcat(fields, others, ["action"]);
    KeyStringsOf(fields, others);
    TakeKey(fields, ["action"], 0);
    NothingLeft(fields);
  }

  /** What is scanned of an osquery result: the name of its action, then every column value of every row. */
  lemma ResultIsScanned(r: Result, agent: string, time: int)
    ensures Scannable(PayloadOf(r, agent, time)) == [ActionName(r.action)] + AllValues(r.rows)
  {
    OnlyActionAtTop(r, agent, time);
    RowsStringsOf(r.rows);
    hide KeyStrings, RowsStrings, ScannedKeys, AllValues;
  }

  lemma {:induction false} KeyStringsConcat(fields: map<string, Json>, a: seq<string>, b: seq<string>)
    ensures KeyStrings(fields, a + b) == KeyStrings(fields, a) + KeyStrings(fields, b)
  {
    if a == [] {
      assert a + b == b;
    } else {
      assert (a + b)[1..] == a[1..] + b;
      KeyStringsConcat(fields, a[1..], b);
    }
  }

  lemma {:induction false} RowIsContiguous(rows: seq<seq<Column>>, i: nat)
    returns (before: seq<string>, after: seq<string>)
    requires i < |rows|
    ensures AllValues(rows) == before + Values(rows[i]) + after
  {
    if i == 0 {
      before, after := [], AllValues(rows[1..]);
    } else {
      before, after := RowIsContiguous(rows[1..], i - 1);
      before := Values(rows[0]) + before;
    }
  }

  lemma {:induction false} EntryIsColumn(columns: seq<Column>, name: string) returns (i: nat)
    requires name in RowOf(columns)
    ensures i < |columns| && columns[i] == Column(name, RowOf(columns)[name])
    decreases |columns|
  {
    var last := |columns| - 1;
    if columns[last].name == name {
      i := last;
    } else {
      i := EntryIsColumn(columns[..last], name);
    }
  }

  /** Rules see whole values: every column value of every row of a built result stands in the text, unbroken and
      closed by a newline. */
  lemma EveryValueIsContiguous(rows: seq<Row>, r: Result, agent: string, time: int, i: nat, name: string)
      returns (before: string, after: string)
    requires RowsOf(r.rows) == rows && i < |rows| && name in rows[i]
    ensures Terminated(Scannable(PayloadOf(r, agent, time))) == before + rows[i][name] + "\n" + after
  {
    ResultIsScanned(r, agent, time);
    hide Scannable, PayloadOf;
    var b, a := RowIsContiguous(r.rows, i);
    assert rows[i] == RowOf(r.rows[i]);
    var j := EntryIsColumn(r.rows[i], name);
    var values := Values(r.rows[i]);
    var pre, post := [ActionName(r.action)] + b + values[..j], values[j + 1..] + a;
    assert [ActionName(r.action)] + AllValues(r.rows) == pre + [rows[i][name]] + post;
    before, after := Terminated(pre), Terminated(post);
    TerminatedConcat(pre + [rows[i][name]], post);
    TerminatedSnoc(pre, rows[i][name]);
  }
}
