// Reading the saved node id back from the [agent] table of the edited configuration.
module ConfigReadBack {
  import opened ConfigEditor
  import opened Collections

  /// The reader: table headers and bare keys of a TOML file with one value a line

  predicate IsHeader(l: string) {
    StartsWith(Trim(l), "[")
  }

  // A header may be followed by a comment.
  predicate OpensAgent(l: string) {
    IsHeader(l) && Trim(l[..IndexOf(l, '#')]) == "[agent]"
  }

  function TableAfter(inAgent: bool, l: string): bool {
    if IsHeader(l) then OpensAgent(l) else inAgent
  }

  predicate SetsNodeId(l: string) {
    !IsHeader(l) && IndexOf(l, '=') < |l| && Trim(l[..IndexOf(l, '=')]) == "node_id"
  }

  function ValueOf(l: string): string
    requires SetsNodeId(l)
  {
    Trim(l[IndexOf(l, '=') + 1..])
  }

  // Whether the reader is in the [agent] table after these lines.
  function TableAt(ls: seq<string>, inAgent: bool): bool {
    if ls == [] then inAgent else TableAt(ls[1..], TableAfter(inAgent, ls[0]))
  }

  function OwnId(l: string, inAgent: bool): seq<string> {
    if inAgent && SetsNodeId(l) then [ValueOf(l)] else []
  }

  // The values given to node_id in the [agent] table, in order. A reader accepts exactly one.
  function NodeIds(ls: seq<string>, inAgent: bool): seq<string> {
    if ls == [] then [] else OwnId(ls[0], inAgent) + NodeIds(ls[1..], TableAfter(inAgent, ls[0]))
  }

  lemma {:induction false} TableAtConcat(a: seq<string>, b: seq<string>, inAgent: bool)
    ensures TableAt(a + b, inAgent) == TableAt(b, TableAt(a, inAgent))
  {
    if a == [] {
      assert a + b == b;
    } else {
      assert (a + b)[1..] == a[1..] + b;
      TableAtConcat(a[1..], b, TableAfter(inAgent, a[0]));
    }
  }

  lemma {:induction false} NodeIdsConcat(a: seq<string>, b: seq<string>, inAgent: bool)
    ensures NodeIds(a + b, inAgent) == NodeIds(a, inAgent) + NodeIds(b, TableAt(a, inAgent))
  {
    hide OwnId, TableAfter;
    if a == [] {
      assert a + b == b;
    } else {
      assert (a + b)[1..] == a[1..] + b;
      NodeIdsConcat(a[1..], b, TableAfter(inAgent, a[0]));
    }
  }

  lemma SavedLineIsRead(id: string)
    ensures !IsHeader(NodeIdLine(id)) && SetsNodeId(NodeIdLine(id)) && ValueOf(NodeIdLine(id)) == Quoted(id)
  {
    TrimOfNodeIdLine(id);
    var key, value := "node_id ", " " + Quoted(id);
    assert NodeIdLine(id) == key + "=" + value;
    IndexOfFirst(key, '=', value);
    assert NodeIdLine(id)[..|key|] == key && NodeIdLine(id)[|key| + 1..] == value;
    assert TrimEnd(key) == "node_id" by { assert key[..7] == "node_id"; }
    assert TrimStart(value) == Quoted(id) by { assert value[1..] == Quoted(id); }
  }

  /// When a save is read back

  // The saved line falls into the [agent] table, and no other line there sets the node id.
  predicate SavePointFits(ls: seq<string>) {
    && !Locate(ls, 0, false).NoAgent?
    && TableAt(Before(ls), false)
    && NodeIds(Before(ls), false) == []
    && NodeIds(After(ls), true) == []
  }

  lemma ReadEdited(ls: seq<string>, id: string)
    requires !Locate(ls, 0, false).NoAgent?
    ensures var inAgent := TableAt(Before(ls), false);
            NodeIds(Edited(ls, id), false)
            == NodeIds(Before(ls), false) + (if inAgent then [Quoted(id)] else []) + NodeIds(After(ls), inAgent)
  {
    hide TableAt, NodeIds, Locate, Before, After, SetsNodeId, IsHeader, ValueOf, NodeIdLine, Quoted;
    var inAgent, saved := TableAt(Before(ls), false), [NodeIdLine(id)];
    NodeIdsConcat(Before(ls) + saved, After(ls), false);
    NodeIdsConcat(Before(ls), saved, false);
    TableAtConcat(Before(ls), saved, false);
    SavedLineAlone(id, inAgent);
  }

  lemma SavedLineAlone(id: string, inAgent: bool)
    ensures TableAt([NodeIdLine(id)], inAgent) == inAgent
    ensures NodeIds([NodeIdLine(id)], inAgent) == if inAgent then [Quoted(id)] else []
  {
    SavedLineIsRead(id);
    hide SetsNodeId, IsHeader, ValueOf, NodeIdLine, Quoted;
    var saved := [NodeIdLine(id)];
    assert saved[1..] == [];
    assert TableAt(saved, inAgent) == TableAt([], TableAfter(inAgent, saved[0])) == inAgent;
    assert NodeIds(saved, inAgent)
        == (if inAgent then [Quoted(id)] else []) + NodeIds([], TableAfter(inAgent, saved[0]));
  }

  /** Whatever id is saved is the one id read back, if and only if the save point fits. */
  lemma ReadBackIff(ls: seq<string>)
    ensures (forall id :: NodeIds(Edited(ls, id), false) == [Quoted(id)]) <==> SavePointFits(ls)
  {
    if Locate(ls, 0, false).NoAgent? {
      assert Quoted("a")[1] != Quoted("b")[1];
      assert Edited(ls, "a") == Edited(ls, "b");
    } else {
      forall id ensures NodeIds(Edited(ls, id), false) == [Quoted(id)] <== SavePointFits(ls) {
        ReadEdited(ls, id);
      }
      ReadEdited(ls, "a");
      ReadEdited(ls, "b");
      assert Quoted("a")[1] != Quoted("b")[1];
      if NodeIds(Edited(ls, "a"), false) == [Quoted("a")] && NodeIds(Edited(ls, "b"), false) == [Quoted("b")] {
        FitsWhenRead(ls);
      }
    }
  }

  lemma FitsWhenRead(ls: seq<string>)
    requires !Locate(ls, 0, false).NoAgent?
    requires NodeIds(Edited(ls, "a"), false) == [Quoted("a")]
    requires NodeIds(Edited(ls, "b"), false) == [Quoted("b")]
    ensures SavePointFits(ls)
  {
    ReadEdited(ls, "a");
    ReadEdited(ls, "b");
    assert Quoted("a")[1] != Quoted("b")[1];
    hide NodeIds, TableAt, Quoted, Edited, Before, After, Locate;
    var p, s := NodeIds(Before(ls), false), NodeIds(After(ls), TableAt(Before(ls), false));
    if TableAt(Before(ls), false) {
      assert |p| + 1 + |s| == 1;
    }
  }

  /// The configurations people write

  // The [agent] header carries no comment; inside the table, the next header and the node_id key start their lines, and
  // no other key there starts with "node_id"; and, as TOML demands, the table is opened once and sets the key at
  // most once. Other tables may hold any lines.
  ghost predicate Plain(ls: seq<string>) {
    && LinesOk(ls)
    && (exists l | l in ls :: OpensAgent(l))
    && (forall i, j | 0 <= i < j < |ls| :: !OpensAgent(ls[i]) || !OpensAgent(ls[j]))
    && |NodeIds(ls, false)| <= 1
  }

  ghost predicate LinesOk(ls: seq<string>) {
    forall i | 0 <= i < |ls| :: LineOk(ls[i], TableAt(ls[..i], false))
  }

  predicate LineOk(l: string, inAgent: bool) {
    && (OpensAgent(l) ==> Trim(l) == "[agent]")
    && (inAgent ==> (IsHeader(l) ==> StartsWith(l, "[")) && (SetsNodeId(l) <==> StartsWith(l, "node_id")))
  }

  lemma {:induction false} TrimStartKeeps(s: string, c: char)
    requires c in s && !IsWhite(c)
    ensures c in TrimStart(s)
  {
    if IsWhite(s[0]) {
      TrimStartKeeps(s[1..], c);
    }
  }

  lemma {:induction false} TrimEndKeeps(s: string, c: char)
    requires c in s && !IsWhite(c)
    ensures c in TrimEnd(s)
  {
    if IsWhite(s[|s| - 1]) {
      assert s == s[..|s| - 1] + [s[|s| - 1]];
      TrimEndKeeps(s[..|s| - 1], c);
    }
  }

  // What the editor takes for the [agent] line opens the table.
  lemma AgentLineOpens(l: string)
    requires Trim(l) == "[agent]"
    ensures OpensAgent(l)
  {
    if '#' in l {
      TrimStartKeeps(l, '#');
      TrimEndKeeps(TrimStart(l), '#');
    }
    assert l[..|l|] == l;
  }

  lemma {:induction false} NotOpened(ls: seq<string>)
    requires forall l | l in ls :: !OpensAgent(l)
    ensures !TableAt(ls, false) && NodeIds(ls, false) == []
  {
    if ls != [] {
      assert ls[0] in ls;
      NotOpened(ls[1..]);
    }
  }

  predicate AtPoint(ls: seq<string>, p: Point, at: nat) {
    match p case NoAgent => false case Append => at == |ls| case Replace(i) => at == i case Insert(i) => at == i
  }

  // The editor's flag follows the reader's table, up to the save point.
  lemma {:induction false} ScanFollowsTable(ls: seq<string>, i: nat, inAgent: bool, at: nat)
    requires i <= |ls| && LinesOk(ls)
    requires TableAt(ls[..i], false) == inAgent && NodeIds(ls[..i], false) == []
    requires AtPoint(ls, Locate(ls, i, inAgent), at)
    ensures i <= at <= |ls| && TableAt(ls[..at], false) && NodeIds(ls[..at], false) == []
    decreases |ls| - i
  {
    if i < |ls| && at != i {
      var l := ls[i];
      assert LineOk(l, inAgent);
      FollowsOneLine(ls, i, inAgent);
      ScanFollowsTable(ls, i + 1, inAgent || Trim(l) == "[agent]", at);
    } else {
      assert inAgent;
    }
  }

  lemma FollowsOneLine(ls: seq<string>, i: nat, inAgent: bool)
    requires i < |ls| && LineOk(ls[i], inAgent)
    requires TableAt(ls[..i], false) == inAgent && NodeIds(ls[..i], false) == []
    requires inAgent && Trim(ls[i]) != "[agent]" ==> !StartsWith(ls[i], "node_id") && !StartsWith(ls[i], "[")
    ensures TableAt(ls[..i + 1], false) == (inAgent || Trim(ls[i]) == "[agent]") && NodeIds(ls[..i + 1], false) == []
  {
    var l := ls[i];
    if Trim(l) == "[agent]" {
      AgentLineOpens(l);
    }
    assert ls[..i + 1] == ls[..i] + [l];
    TableAtConcat(ls[..i], [l], false);
    NodeIdsConcat(ls[..i], [l], false);
    assert !(inAgent && SetsNodeId(l));
    hide SetsNodeId, OpensAgent, StartsWith, Trim;
    assert [l][1..] == [];
    assert TableAt([l], inAgent) == TableAt([], TableAfter(inAgent, l));
    assert NodeIds([l], inAgent) == [] + NodeIds([], TableAfter(inAgent, l));
  }

  lemma {:induction false} TableIsOpened(ls: seq<string>) returns (k: nat)
    requires TableAt(ls, false)
    ensures k < |ls| && OpensAgent(ls[k])
  {
    if OpensAgent(ls[0]) {
      k := 0;
    } else {
      k := TableIsOpened(ls[1..]);
      k := k + 1;
    }
  }

  lemma InsertLeavesTable(ls: seq<string>, at: nat)
    requires Plain(ls) && at < |ls| && TableAt(ls[..at], false)
    requires IsHeader(ls[at])
    ensures NodeIds(ls[at..], true) == []
  {
    hide LineOk, OpensAgent, IsHeader, ValueOf;
    var k := TableIsOpened(ls[..at]);
    assert ls[k] == ls[..at][k];
    forall l | l in ls[at..] ensures !OpensAgent(l) {
      var j :| 0 <= j < |ls| - at && ls[at..][j] == l;
      assert l == ls[at + j];
    }
    assert ls[at..][0] == ls[at];
    assert !SetsNodeId(ls[at]) && !OpensAgent(ls[at]);
    NotOpened(ls[at..][1..]);
  }

  lemma PlainIsLocated(ls: seq<string>)
    requires Plain(ls)
    ensures !Locate(ls, 0, false).NoAgent?
  {
    hide IsHeader, OpensAgent, Trim, Locate, TableAt, NodeIds;
    var l :| l in ls && OpensAgent(l);
    var k :| 0 <= k < |ls| && ls[k] == l;
    assert LineOk(l, TableAt(ls[..k], false));
    AgentIsLocated(ls, 0, false);
  }

  lemma PlainFits(ls: seq<string>)
    requires Plain(ls)
    ensures SavePointFits(ls)
  {
    hide IsHeader, OpensAgent, Trim, StartsWith, LineOk, LinesOk;
    PlainIsLocated(ls);
    LocatedLine(ls, 0, false);
    var at := |Before(ls)|;
    assert LinesOk(ls) && ls[..0] == [] && TableAt([], false) == false && NodeIds([], false) == [];
    assert NodeIds([], true) == [];
    hide TableAt, NodeIds;
    ScanFollowsTable(ls, 0, false, at);
    match Locate(ls, 0, false)
    case Append =>
      assert ls[..at] == ls;
    case Insert(_) =>
      BracketIsHeader(ls[at]);
      InsertLeavesTable(ls, at);
    case Replace(_) =>
      ReplaceTakesTheKey(ls, at);
  }

  lemma ReplaceTakesTheKey(ls: seq<string>, at: nat)
    requires Plain(ls) && at < |ls| && TableAt(ls[..at], false)
    requires StartsWith(ls[at], "node_id")
    ensures NodeIds(ls[at + 1..], true) == []
  {
    assert LineOk(ls[at], true);
    assert SetsNodeId(ls[at]) && !IsHeader(ls[at]);
    hide SetsNodeId, IsHeader, OpensAgent, LineOk, StartsWith;
    OneKeyOnly(ls, at);
  }

  lemma OneKeyOnly(ls: seq<string>, at: nat)
    requires at < |ls| && TableAt(ls[..at], false) && SetsNodeId(ls[at]) && !IsHeader(ls[at])
    requires |NodeIds(ls, false)| <= 1
    ensures NodeIds(ls[at + 1..], true) == []
  {
    hide SetsNodeId, IsHeader, OpensAgent, ValueOf;
    NodeIdsConcat(ls[..at], ls[at..], false);
    assert ls == ls[..at] + ls[at..];
    var rest := ls[at..];
    assert rest[0] == ls[at] && rest[1..] == ls[at + 1..];
    assert NodeIds(rest, true) == [ValueOf(rest[0])] + NodeIds(rest[1..], true);
  }

  lemma BracketIsHeader(l: string)
    requires StartsWith(l, "[")
    ensures IsHeader(l)
  {
    assert l[..1][0] == '[';
    TrimEndKeepsFirst(l);
  }

  lemma {:induction false} TrimEndKeepsFirst(s: string)
    requires s != "" && !IsWhite(s[0])
    ensures TrimEnd(s) != "" && TrimEnd(s)[0] == s[0]
  {
    if IsWhite(s[|s| - 1]) {
      TrimEndKeepsFirst(s[..|s| - 1]);
    }
  }

  /** In a plain configuration any saved id reads back from the [agent] table. */
  lemma PlainConfigIsReadBack(ls: seq<string>, id: string)
    requires Plain(ls)
    ensures NodeIds(Edited(ls, id), false) == [Quoted(id)]
  {
    PlainFits(ls);
    ReadBackIff(ls);
  }

  /** Where the save point does not fit: the editor does not see an indented header such as " [log]", so the id
      lands in the next table and is not read back. */
  lemma IndentedHeaderTakesTheId(agent: string, header: string, id: string)
    requires Trim(agent) == "[agent]"
    requires IsHeader(header) && !OpensAgent(header) && !StartsWith(header, "[")
    ensures NodeIds(Edited([agent, header], id), false) == []
  {
    AgentLineOpens(agent);
    if Trim(header) == "[agent]" {
      AgentLineOpens(header);
    }
    if StartsWith(header, "node_id") {
      assert header[..7][0] == 'n';
      TrimEndKeepsFirst(header);
    }
    hide Trim, IsHeader, OpensAgent, StartsWith, IndexOf;
    var ls := [agent, header];
    assert Locate(ls, 2, true) == Append;
    assert Locate(ls, 1, true) == Append;
    ReadEdited(ls, id);
    assert ls[1..] == [header] && [header][1..] == [];
    assert TableAt([header], true) == TableAt([], false) && NodeIds([header], true) == [] + NodeIds([], false);
    assert NodeIds(ls, false) == [] + NodeIds([header], true);
  }
}
