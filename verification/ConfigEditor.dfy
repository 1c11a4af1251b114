// Saving the enrolled node id by editing one line of the agent's TOML configuration in place.
module ConfigEditor {
  import opened Collections

  /// Text

  predicate IsWhite(c: char) {
    var n := c as int;
    || 9 <= n <= 13 || n == 0x20 || n == 0x85 || n == 0xA0 || n == 0x1680
    || 0x2000 <= n <= 0x200A || n == 0x2028 || n == 0x2029 || n == 0x202F || n == 0x205F || n == 0x3000
  }

  function TrimStart(s: string): string {
    if s != "" && IsWhite(s[0]) then TrimStart(s[1..]) else s
  }

  function TrimEnd(s: string): string {
    if s != "" && IsWhite(s[|s| - 1]) then TrimEnd(s[..|s| - 1]) else s
  }

  function Trim(s: string): string {
    TrimEnd(TrimStart(s))
  }

  function StripCr(s: string): string {
    if s != "" && s[|s| - 1] == '\r' then s[..|s| - 1] else s
  }

  // The lines of a text: ends of line are "\n" or "\r\n", and a last one closes a line without opening another.
  function Lines(text: string): (ls: seq<string>)
    ensures forall l | l in ls :: '\n' !in l
    decreases |text|
  {
    if text == "" then []
    else
      var i := IndexOf(text, '\n');
      if i == |text| then assert text == text[..i]; [text] else [StripCr(text[..i])] + Lines(text[i + 1..])
  }

  function Join(ls: seq<string>): string {
    if ls == [] then "" else if |ls| == 1 then ls[0] else ls[0] + "\n" + Join(ls[1..])
  }

  // Writing the lines and reading them again keeps them: no blank line at the end, no '\r' before a "\n".
  predicate Survives(ls: seq<string>) {
    ls == [] || (ls[|ls| - 1] != "" && forall i | 0 <= i < |ls| - 1 :: StripCr(ls[i]) == ls[i])
  }

  lemma LinesOfCons(x: string, rest: string)
    requires '\n' !in x
    ensures Lines(x + "\n" + rest) == [StripCr(x)] + Lines(rest)
  {
    var text := x + "\n" + rest;
    IndexOfFirst(x, '\n', rest);
    assert text[..|x|] == x && text[|x| + 1..] == rest;
  }

  lemma SurvivesCons(x: string, rest: seq<string>)
    requires rest != []
    ensures Survives([x] + rest) <==> StripCr(x) == x && Survives(rest)
  {
    hide StripCr;
    var ls := [x] + rest;
    assert forall i | 0 <= i < |rest| :: rest[i] == ls[i + 1];
    assert ls[0] == x && ls[|ls| - 1] == rest[|rest| - 1];
    if StripCr(x) == x && Survives(rest) {
      forall i | 0 <= i < |ls| - 1 ensures StripCr(ls[i]) == ls[i] {
        if i > 0 { assert ls[i] == rest[i - 1]; }
      }
    }
  }

  // What reading the written lines gives: all but the last lose a '\r' at the end, and a blank last line is gone.
  function Reread(ls: seq<string>): seq<string> {
    if ls == [] || ls == [""] then []
    else if |ls| == 1 then ls
    else [StripCr(ls[0])] + Reread(ls[1..])
  }

  lemma JoinCons(x: string, rest: seq<string>)
    requires rest != []
    ensures Join([x] + rest) == x + "\n" + Join(rest)
  {
    assert ([x] + rest)[1..] == rest;
  }

  lemma RereadCons(x: string, rest: seq<string>)
    requires rest != []
    ensures Reread([x] + rest) == [StripCr(x)] + Reread(rest)
  {
    assert ([x] + rest)[1..] == rest;
  }

  lemma {:induction false} LinesOfJoin(ls: seq<string>)
    requires forall l | l in ls :: '\n' !in l
    ensures Lines(Join(ls)) == Reread(ls)
    ensures Lines(Join(ls)) == ls <==> Survives(ls)
  {
    if |ls| == 1 {
      assert '\n' !in ls[0];
      assert ls == [ls[0]];
    } else if |ls| > 1 {
      hide Lines, Survives, StripCr, Join, Reread;
      var x, rest := ls[0], ls[1..];
      LinesOfJoin(rest);
      assert x in ls && ls == [x] + rest;
      LinesOfCons(x, Join(rest));
      JoinCons(x, rest);
      RereadCons(x, rest);
      SurvivesCons(x, rest);
      assert ([StripCr(x)] + Reread(rest))[1..] == Reread(rest);
    }
  }

  lemma RereadIsLost(ls: seq<string>)
    ensures Reread(ls) == [] <==> ls == [] || ls == [""]
  {
  }

  // Writing what was read again gives the same text, except that lost characters make it shorter.
  lemma {:induction false} JoinOfReread(ls: seq<string>)
    ensures |Join(Reread(ls))| <= |Join(ls)|
    ensures Join(Reread(ls)) == Join(ls) <==> Survives(ls) || ls == [""]
  {
    if |ls| > 1 {
      hide Survives;
      var x, rest := ls[0], ls[1..];
      assert ls == [x] + rest;
      JoinOfReread(rest);
      SurvivesCons(x, rest);
      RereadIsLost(rest);
      JoinCons(x, rest);
      if rest != [""] {
        JoinCons(StripCr(x), Reread(rest));
        hide Join, Reread;
        var shorter := StripCr(x) + "\n" + Join(Reread(rest));
        if shorter == x + "\n" + Join(rest) {
          assert |StripCr(x)| == |x|;
          assert shorter[|x| + 1..] == Join(Reread(rest));
        }
      }
    }
  }

  /** What does not survive: a blank last line is gone when the file is read again. */
  lemma {:induction false} BlankLastLineIsLost(ls: seq<string>)
    requires ls != [] && forall l | l in ls :: '\n' !in l && StripCr(l) == l
    ensures Lines(Join(ls + [""])) == ls
  {
    hide StripCr;
    var x, rest := ls[0], ls[1..];
    assert x in ls;
    assert (ls + [""])[1..] == rest + [""];
    LinesOfCons(x, Join(rest + [""]));
    if rest == [] {
      assert Join([""]) == "" && ls == [x];
    } else {
      BlankLastLineIsLost(rest);
    }
  }

  /// The editor

  predicate StartsWith(s: string, prefix: string) {
    |prefix| <= |s| && s[..|prefix|] == prefix
  }

  function Quoted(id: string): string {
    "\"" + id + "\""
  }

  function NodeIdLine(id: string): string {
    "node_id = " + Quoted(id)
  }

  // What the scan finds: the line to replace, the line to insert before, or the end to append at.
  datatype Point = NoAgent | Replace(at: nat) | Insert(at: nat) | Append

  function Locate(ls: seq<string>, i: nat, inAgent: bool): (p: Point)
    requires i <= |ls|
    ensures p.Replace? || p.Insert? ==> i <= p.at < |ls|
    decreases |ls| - i
  {
    if i == |ls| then if inAgent then Append else NoAgent
    else if Trim(ls[i]) == "[agent]" then Locate(ls, i + 1, true)
    else if inAgent && StartsWith(ls[i], "node_id") then Replace(i)
    else if inAgent && StartsWith(ls[i], "[") then Insert(i)
    else Locate(ls, i + 1, inAgent)
  }

  // The lines before and after the saved line.
  function Before(ls: seq<string>): seq<string> {
    match Locate(ls, 0, false)
    case Replace(i) => ls[..i]
    case Insert(i) => ls[..i]
    case _ => ls
  }

  function After(ls: seq<string>): seq<string> {
    match Locate(ls, 0, false)
    case Replace(i) => ls[i + 1..]
    case Insert(i) => ls[i..]
    case _ => []
  }

  function Edited(ls: seq<string>, id: string): seq<string> {
    if Locate(ls, 0, false).NoAgent? then ls else Before(ls) + [NodeIdLine(id)] + After(ls)
  }

  method SaveNodeId(content: string, id: string) returns (written: string)
    ensures written == Join(Edited(Lines(content), id))
  {
    var lines := Lines(content);
    ghost var original := lines;
    var inAgent, inserted := false, false;
    for i := 0 to |lines|
      invariant !inserted && lines == original
      invariant Locate(original, 0, false) == Locate(original, i, inAgent)
    {
      if Trim(lines[i]) == "[agent]" {
        inAgent := true;
        continue;
      }
      if inAgent && StartsWith(lines[i], "node_id") {
        lines := lines[..i] + [NodeIdLine(id)] + lines[i + 1..];
        inserted := true;
        break;
      }
      if inAgent && StartsWith(lines[i], "[") {
        lines := lines[..i] + [NodeIdLine(id)] + lines[i..];
        inserted := true;
        break;
      }
    }
    if inAgent && !inserted {
      lines := lines + [NodeIdLine(id)];
    }
    assert lines == Edited(original, id);
    written := Join(lines);
  }

  /// Saving again

  lemma TrimOfNodeIdLine(id: string)
    ensures Trim(NodeIdLine(id)) == NodeIdLine(id)
    ensures StartsWith(NodeIdLine(id), "node_id") && NodeIdLine(id) != "[agent]"
  {
    var l := NodeIdLine(id);
    assert l[0] == 'n' && l[|l| - 1] == '"';
  }

  // The same line, or the same but for a '\r' at its end: the scan does not see the difference.
  predicate Alike(l': string, l: string) {
    l' == l || l' == StripCr(l)
  }

  lemma {:induction false} TrimOfStripCr(l: string)
    ensures Trim(StripCr(l)) == Trim(l)
    decreases |l|
  {
    if StripCr(l) != l {
      if IsWhite(l[0]) && |l| > 1 {
        TrimOfStripCr(l[1..]);
        assert StripCr(l)[1..] == StripCr(l[1..]);
      } else {
        assert |l| == 1 ==> l[1..] == "";
      }
    }
  }

  lemma AlikeScans(l': string, l: string)
    requires Alike(l', l)
    ensures Trim(l') == Trim(l)
    ensures StartsWith(l', "node_id") == StartsWith(l, "node_id") && StartsWith(l', "[") == StartsWith(l, "[")
  {
    TrimOfStripCr(l);
    hide Trim;
    if l' != l {
      assert StartsWith(l, "node_id") ==> l[..7][6] == 'd';
      assert |l| > 7 ==> l[..7] == l'[..7];
      assert StartsWith(l, "[") ==> l[..1][0] == '[';
      assert |l| > 1 ==> l[..1] == l'[..1];
    }
  }

  // The scan of the edited lines replays the scan of the original up to the saved line, and stops there.
  lemma {:induction false} LocateSaved(ls: seq<string>, ls': seq<string>, i: nat, inAgent: bool, at: nat, id: string)
    requires i <= at <= |ls| && at < |ls'| && ls'[at] == NodeIdLine(id)
    requires forall k | 0 <= k < at :: Alike(ls'[k], ls[k])
    requires match Locate(ls, i, inAgent) case NoAgent => false case Append => at == |ls| case p => at == p.at
    ensures Locate(ls', i, inAgent) == Replace(at)
    decreases at - i
  {
    hide Alike, NodeIdLine;
    if i < at {
      AlikeScans(ls'[i], ls[i]);
      LocateSaved(ls, ls', i + 1, inAgent || Trim(ls[i]) == "[agent]", at, id);
    } else {
      TrimOfNodeIdLine(id);
      StopsInAgent(ls, i, inAgent);
    }
  }

  lemma StopsInAgent(ls: seq<string>, i: nat, inAgent: bool)
    requires i <= |ls|
    requires match Locate(ls, i, inAgent) case NoAgent => false case Append => i == |ls| case p => i == p.at
    ensures inAgent
  {
  }

  /** The last save wins, on the lines, and saving the same id again changes nothing. */
  lemma LastSaveWins(ls: seq<string>, a: string, b: string)
    ensures Edited(Edited(ls, a), b) == Edited(ls, b)
  {
    if !Locate(ls, 0, false).NoAgent? {
      var at := |Before(ls)|;
      var ls' := Edited(ls, a);
      assert ls'[..at] == ls[..at] == Before(ls) && ls'[at] == NodeIdLine(a) && ls'[at + 1..] == After(ls);
      assert forall k | 0 <= k < at :: ls'[k] == ls'[..at][k] == ls[k];
      LocateSaved(ls, ls', 0, false, at, a);
    }
  }

  /** A save changes one line or adds one, and without an [agent] line nothing. */
  lemma AtMostOneLine(ls: seq<string>, id: string)
    ensures (forall l | l in ls :: Trim(l) != "[agent]") ==> Edited(ls, id) == ls
    ensures |ls| <= |Edited(ls, id)| <= |ls| + 1
    ensures var at := |Before(ls)|; var skip := |Edited(ls, id)| - |ls|;
            && Edited(ls, id)[..at] == ls[..at]
            && (at < |ls| ==> Edited(ls, id)[at + 1..] == ls[at + 1 - skip..])
    ensures |Edited(ls, id)| == |ls| ==>
              Edited(ls, id) == ls || (StartsWith(ls[|Before(ls)|], "node_id"))
  {
    if forall l | l in ls :: Trim(l) != "[agent]" {
      NoAgentLine(ls, 0);
    }
    LocatedLine(ls, 0, false);
  }

  lemma {:induction false} NoAgentLine(ls: seq<string>, i: nat)
    requires i <= |ls| && forall l | l in ls :: Trim(l) != "[agent]"
    ensures Locate(ls, i, false) == NoAgent
    decreases |ls| - i
  {
    if i < |ls| {
      assert ls[i] in ls;
      NoAgentLine(ls, i + 1);
    }
  }

  lemma {:induction false} LocatedLine(ls: seq<string>, i: nat, inAgent: bool)
    requires i <= |ls|
    ensures match Locate(ls, i, inAgent)
            case Replace(at) => StartsWith(ls[at], "node_id")
            case Insert(at) => StartsWith(ls[at], "[") && Trim(ls[at]) != "[agent]"
            case _ => true
    decreases |ls| - i
  {
    if i < |ls| {
      LocatedLine(ls, i + 1, inAgent || Trim(ls[i]) == "[agent]");
    }
  }

  /// Saving to a file

  // What the lines of a file must be like for a save to survive: no '\r' at the end of a line that is not the last, and
  // no blank line at the end behind the saved one.
  predicate KeepsSave(ls: seq<string>) {
    if Locate(ls, 0, false).NoAgent? then Survives(ls)
    else (forall l | l in Before(ls) :: StripCr(l) == l) && Survives(After(ls))
  }

  function StripAll(ls: seq<string>): (r: seq<string>)
    ensures |r| == |ls| && forall i | 0 <= i < |ls| :: r[i] == StripCr(ls[i])
  {
    seq(|ls|, i requires 0 <= i < |ls| => StripCr(ls[i]))
  }

  lemma {:induction false} SurvivesAround(before: seq<string>, x: string, after: seq<string>)
    requires x != "" && StripCr(x) == x
    ensures Survives(before + [x] + after) <==> (forall l | l in before :: StripCr(l) == l) && Survives(after)
    decreases |before|
  {
    if before == [] {
      assert before + [x] + after == [x] + after;
      if after != [] {
        SurvivesCons(x, after);
      }
    } else {
      hide Survives, StripCr;
      SurvivesAround(before[1..], x, after);
      SurvivesCons(before[0], before[1..] + [x] + after);
      assert before + [x] + after == [before[0]] + (before[1..] + [x] + after);
      assert before == [before[0]] + before[1..];
    }
  }

  lemma RereadKept(x: string, after: seq<string>)
    requires x != "" && StripCr(x) == x
    ensures Reread([x] + after) == [x] + Reread(after)
  {
    if after != [] {
      RereadCons(x, after);
    } else {
      assert [x] + after == [x];
    }
  }

  lemma {:induction false} RereadAround(before: seq<string>, x: string, after: seq<string>)
    requires x != "" && StripCr(x) == x
    ensures Reread(before + [x] + after) == StripAll(before) + [x] + Reread(after)
    decreases |before|
  {
    hide Reread, StripCr;
    if before == [] {
      assert before + [x] + after == [x] + after && StripAll(before) + [x] == [x];
      RereadKept(x, after);
    } else {
      RereadAround(before[1..], x, after);
      RereadCons(before[0], before[1..] + [x] + after);
      assert before + [x] + after == [before[0]] + (before[1..] + [x] + after);
      assert StripAll(before) == [StripCr(before[0])] + StripAll(before[1..]);
    }
  }

  lemma NodeIdLineIsKept(id: string)
    ensures NodeIdLine(id) != "" && StripCr(NodeIdLine(id)) == NodeIdLine(id)
  {
    assert NodeIdLine(id)[|NodeIdLine(id)| - 1] == '"';
  }

  lemma EditedSurvivesIff(ls: seq<string>, id: string)
    ensures Survives(Edited(ls, id)) <==> KeepsSave(ls)
  {
    hide Survives, Locate, Before, After, NodeIdLine;
    NodeIdLineIsKept(id);
    SurvivesAround(Before(ls), NodeIdLine(id), After(ls));
  }

  lemma {:induction false} RereadMember(ls: seq<string>, l: string) returns (k: nat)
    requires l in Reread(ls)
    ensures k < |ls| && Alike(l, ls[k])
  {
    if |ls| == 1 || l == StripCr(ls[0]) {
      k := 0;
    } else {
      k := RereadMember(ls[1..], l);
      k := k + 1;
    }
  }

  lemma {:induction false} AgentIsLocated(ls: seq<string>, i: nat, inAgent: bool)
    requires i <= |ls|
    requires inAgent || exists k :: i <= k < |ls| && Trim(ls[k]) == "[agent]"
    ensures !Locate(ls, i, inAgent).NoAgent?
    decreases |ls| - i
  {
    if i < |ls| {
      AgentIsLocated(ls, i + 1, inAgent || Trim(ls[i]) == "[agent]");
    }
  }

  lemma LocateReread(ls: seq<string>, a: string)
    requires !Locate(ls, 0, false).NoAgent?
    ensures var ls', at := StripAll(Before(ls)) + [NodeIdLine(a)] + Reread(After(ls)), |Before(ls)|;
            && Locate(ls', 0, false) == Replace(at)
            && Before(ls') == StripAll(Before(ls)) && After(ls') == Reread(After(ls))
  {
    hide Reread, NodeIdLine, StripCr, Alike;
    var ls', at := StripAll(Before(ls)) + [NodeIdLine(a)] + Reread(After(ls)), |Before(ls)|;
    forall k | 0 <= k < at ensures Alike(ls'[k], ls[k]) {
      assert Before(ls) == ls[..at] && ls'[k] == StripCr(Before(ls)[k]);
      StripIsAlike(ls[k]);
    }
    LocateSaved(ls, ls', 0, false, at, a);
    hide Locate, StripAll;
    assert ls'[..at] == StripAll(Before(ls)) && ls'[at + 1..] == Reread(After(ls));
  }

  lemma StripIsAlike(l: string)
    ensures Alike(StripCr(l), l)
  {
  }

  // Editing what a first save left in the file.
  lemma EditReread(ls: seq<string>, a: string, b: string)
    ensures Edited(Reread(Edited(ls, a)), b) == Reread(Edited(ls, b))
  {
    hide Locate, Reread, NodeIdLine, StripAll, Before, After;
    if Locate(ls, 0, false).NoAgent? {
      NoAgentReread(ls);
    } else {
      NodeIdLineIsKept(a);
      NodeIdLineIsKept(b);
      RereadAround(Before(ls), NodeIdLine(a), After(ls));
      RereadAround(Before(ls), NodeIdLine(b), After(ls));
      LocateReread(ls, a);
    }
  }

  lemma NoAgentReread(ls: seq<string>)
    requires Locate(ls, 0, false).NoAgent?
    ensures Locate(Reread(ls), 0, false).NoAgent?
  {
    hide Locate, Reread, Alike, Trim;
    forall l | l in Reread(ls) ensures Trim(l) != "[agent]" {
      var k := RereadMember(ls, l);
      AlikeScans(l, ls[k]);
      if Trim(ls[k]) == "[agent]" {
        AgentIsLocated(ls, 0, false);
      }
    }
    NoAgentLine(Reread(ls), 0);
  }

  /** On files: what is written reads back as the edited lines if and only if the lines of the file keep a save. Then,
      and else only for a file of one blank line, the last save wins on the whole text. */
  lemma SaveSurvives(content: string, a: string, b: string)
    requires '\n' !in a
    ensures var ls := Lines(content);
            var written := Join(Edited(ls, a));
            && (Lines(written) == Edited(ls, a) <==> KeepsSave(ls))
            && (Join(Edited(Lines(written), b)) == Join(Edited(ls, b)) <==> KeepsSave(ls) || ls == [""])
  {
    assert '\n' !in NodeIdLine(a);
    var ls := Lines(content);
    LinesOfJoin(Edited(ls, a));
    EditReread(ls, a, b);
    EditedSurvivesIff(ls, a);
    EditedSurvivesIff(ls, b);
    JoinOfReread(Edited(ls, b));
    BlankEdit(ls, b);
    hide Lines, Edited, KeepsSave, Survives, Reread, Join;
  }

  lemma BlankEdit(ls: seq<string>, id: string)
    ensures Edited(ls, id) == [""] <==> ls == [""]
  {
    NodeIdLineIsKept(id);
    if ls == [""] {
      assert Locate(ls, 1, false) == NoAgent;
    } else if !Locate(ls, 0, false).NoAgent? {
      assert Edited(ls, id)[|Before(ls)|] == NodeIdLine(id);
    }
  }
}
