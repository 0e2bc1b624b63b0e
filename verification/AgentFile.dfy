/**
 * Agent files: YAML-style frontmatter followed by the prompt, and the parser
 * that takes the file apart again for a push.
 */
module AgentFile {
  import opened Collections
  import opened Text

  datatype Agent = Agent(name: string, description: string, tools: seq<string>, model: string, prompt: string)

  const FENCE := "---\n"
  const CLOSING := "\n---\n"

  /** The frontmatter lines, in order. */
  function HeaderLines(a: Agent): seq<string> {
    ["name: " + a.name, "description: " + a.description]
    + (if a.tools == [] then [] else ["tools: " + JoinWith(a.tools, ", ")])
    + (if a.model == "" then [] else ["model: " + a.model])
  }

  function Render(a: Agent): string {
    FENCE + JoinWith(HeaderLines(a), "\n") + CLOSING + TrimRightNewlines(a.prompt) + "\n"
  }

  /** What a written file says, line by line; no tools and no model leave no line. */
  lemma RenderSpelled(a: Agent)
    ensures var header := ("name: " + a.name) + "\n" + ("description: " + a.description)
        + (if a.tools == [] then "" else "\n" + ("tools: " + JoinWith(a.tools, ", ")))
        + (if a.model == "" then "" else "\n" + ("model: " + a.model));
      Render(a) == "---\n" + header + "\n---\n" + TrimRightNewlines(a.prompt) + "\n"
  {
    hide TrimRightNewlines;
    var first := ["name: " + a.name, "description: " + a.description];
    var second := if a.tools == [] then [] else ["tools: " + JoinWith(a.tools, ", ")];
    var third := if a.model == "" then [] else ["model: " + a.model];
    JoinOptional(first, second);
    JoinOptional(first + second, third);
    TwoLines(first[0], first[1]);
    hide JoinWith;
    assert first == [first[0], first[1]];
  }

  lemma TwoLines(a: string, b: string)
    ensures JoinWith([a, b], "\n") == a + "\n" + b
  {
    assert [a, b][1..] == [b];
  }

  lemma JoinOptional(lines: seq<string>, more: seq<string>)
    requires lines != [] && |more| <= 1
    ensures JoinWith(lines + more, "\n") == JoinWith(lines, "\n") + if more == [] then "" else "\n" + more[0]
  {
    if more == [] {
      assert lines + more == lines;
    } else {
      JoinLast(lines + more, "\n");
      hide JoinWith;
      assert (lines + more)[..|lines|] == lines;
    }
  }

  // ------------------------------------------------------------------ parsing

  /** Inner frontmatter text and the body after the closing fence. */
  function FrontmatterBlock(content: string): Option<(string, string)> {
    var norm := NormalizeNewlines(content);
    if !(FENCE <= norm) then None
    else
      var rest := norm[|FENCE|..];
      var end := IndexOf(rest, CLOSING);
      if end.Some? then Some((rest[..end.value], rest[end.value + |CLOSING|..]))
      else if |rest| >= 4 && rest[|rest| - 4..] == "\n---" then Some((rest[..|rest| - 4], ""))
      else None
  }

  /** The parts around the first occurrence of a character. */
  function Cut(s: string, c: char): Option<(string, string)> {
    if s == "" then None
    else if s[0] == c then Some(("", s[1..]))
    else
      var r := Cut(s[1..], c);
      if r == None then None else Some(([s[0]] + r.value.0, r.value.1))
  }

  /** Trimmed, non-empty entries of a comma-separated list. */
  function ToolNames(parts: seq<string>): seq<string> {
    if parts == [] then []
    else (if TrimSpace(parts[0]) == "" then [] else [TrimSpace(parts[0])]) + ToolNames(parts[1..])
  }

  datatype Fields = Fields(name: string, description: string, model: string, tools: seq<string>)

  /** One line's effect: a later key overrides, tools accumulate. */
  function ReadLine(fields: Fields, line: string): Fields {
    match Cut(line, ':')
    case None => fields
    case Some((rawKey, rawValue)) =>
      var key, value := TrimSpace(rawKey), TrimSpace(rawValue);
      if key == "name" then fields.(name := value)
      else if key == "description" then fields.(description := value)
      else if key == "model" then fields.(model := value)
      else if key == "tools" then fields.(tools := fields.tools + ToolNames(SplitOn(value, ',')))
      else fields
  }

  function ReadLines(fields: Fields, lines: seq<string>): Fields
    decreases lines
  {
    if lines == [] then fields else ReadLines(ReadLine(fields, lines[0]), lines[1..])
  }

  /** Without a complete frontmatter the whole text is the prompt. */
  function Parse(content: string): Agent {
    match FrontmatterBlock(content)
    case None => Agent("", "", [], "", content)
    case Some((inner, body)) =>
      var fields := ReadLines(Fields("", "", "", []), SplitOn(inner, '\n'));
      Agent(fields.name, fields.description, fields.tools, fields.model, body)
  }

  // --------------------------------------------------------------- round trip

  /** A single trimmed line. */
  predicate Flat(s: string) { '\n' !in s && TrimSpace(s) == s }

  predicate ToolName(s: string) { Flat(s) && s != "" && ',' !in s }

  ghost predicate WellFormed(a: Agent) {
    && Flat(a.name) && Flat(a.description) && Flat(a.model)
    && forall t :: t in a.tools ==> ToolName(t)
  }

  lemma {:induction false} SplitJoin(parts: seq<string>, c: char)
    requires parts != [] && forall p :: p in parts ==> c !in p
    ensures SplitOn(JoinWith(parts, [c]), c) == parts
  {
    if |parts| == 1 {
      SplitPlain(parts[0], c);
    } else {
      SplitFirst(parts[0], JoinWith(parts[1..], [c]), c);
      SplitJoin(parts[1..], c);
    }
  }

  lemma {:induction false} CutAt(a: string, b: string, c: char)
    requires c !in a
    ensures Cut(a + [c] + b, c) == Some((a, b))
  {
    var s := a + [c] + b;
    if a == "" {
      assert s == [c] + b;
    } else {
      assert s[1..] == a[1..] + [c] + b;
      CutAt(a[1..], b, c);
      assert a == [a[0]] + a[1..];
    }
  }

  lemma TrimLed(s: string)
    ensures TrimSpace(" " + s) == TrimSpace(s)
  {
    assert (" " + s)[1..] == s;
  }

  // A written line reads back as its key and its value.
  lemma FieldLine(key: string, value: string)
    requires ':' !in key && TrimSpace(key) == key && TrimSpace(value) == value
    ensures Cut(key + ": " + value, ':').Some?
    ensures var (k, v) := Cut(key + ": " + value, ':').value; TrimSpace(k) == key && TrimSpace(v) == value
  {
    assert key + ": " + value == key + [':'] + (" " + value);
    CutAt(key, " " + value, ':');
    TrimLed(value);
  }

  lemma {:induction false} ToolsRead(tools: seq<string>)
    requires tools != [] && forall t :: t in tools ==> ToolName(t)
    ensures ToolNames(SplitOn(JoinWith(tools, ", "), ',')) == tools
    ensures ToolNames(SplitOn(" " + JoinWith(tools, ", "), ',')) == tools
  {
    hide TrimSpace;
    var first := tools[0];
    assert first in tools;
    TrimLed(first);
    if |tools| == 1 {
      OneTool(first, first);
      OneTool(" " + first, first);
    } else {
      var rest := " " + JoinWith(tools[1..], ", ");
      assert JoinWith(tools, ", ") == first + [','] + rest;
      assert " " + JoinWith(tools, ", ") == (" " + first) + [','] + rest;
      assert forall t :: t in tools[1..] ==> t in tools;
      ToolsRead(tools[1..]);
      NextTool(first, first, rest);
      NextTool(" " + first, first, rest);
      assert tools == [first] + tools[1..];
    }
  }

  lemma OneTool(text: string, tool: string)
    requires ',' !in text && TrimSpace(text) == tool != ""
    ensures ToolNames(SplitOn(text, ',')) == [tool]
  {
    hide TrimSpace;
    SplitPlain(text, ',');
    assert [text][1..] == [];
  }

  lemma NextTool(text: string, tool: string, rest: string)
    requires ',' !in text && TrimSpace(text) == tool != ""
    ensures ToolNames(SplitOn(text + [','] + rest, ',')) == [tool] + ToolNames(SplitOn(rest, ','))
  {
    hide TrimSpace;
    SplitFirst(text, rest, ',');
    assert ([text] + SplitOn(rest, ','))[1..] == SplitOn(rest, ',');
  }

  lemma {:induction false} JoinedTools(tools: seq<string>)
    requires tools != [] && forall t :: t in tools ==> ToolName(t)
    ensures var s := JoinWith(tools, ", "); '\n' !in s && s != "" && !Space(s[0]) && !Space(s[|s| - 1])
  {
    assert tools[0] in tools;
    FlatEnds(tools[0]);
    if |tools| > 1 {
      JoinedTools(tools[1..]);
      var rest := JoinWith(tools[1..], ", ");
      assert JoinWith(tools, ", ") == (tools[0] + ", ") + rest;
    }
  }

  lemma FlatEnds(s: string)
    requires TrimSpace(s) == s && s != ""
    ensures !Space(s[0]) && !Space(s[|s| - 1])
  {
    TrimLeftSpaceShape(s);
    TrimRightSpaceShape(TrimLeftSpace(s));
  }

  lemma KeyLine(key: string, fields: Fields, value: string)
    requires key in {"name", "description", "model", "tools"} && TrimSpace(value) == value
    ensures ReadLine(fields, key + ": " + value) ==
      if key == "name" then fields.(name := value)
      else if key == "description" then fields.(description := value)
      else if key == "model" then fields.(model := value)
      else fields.(tools := fields.tools + ToolNames(SplitOn(value, ',')))
  {
    hide TrimSpace, Cut, SplitOn, ToolNames;
    KeysTrimmed();
    FieldLine(key, value);
  }

  lemma KeysTrimmed()
    ensures forall key :: key in {"name", "description", "model", "tools"} ==> ':' !in key && TrimSpace(key) == key
  {
    TrimSpaceIdentity("name");
    TrimSpaceIdentity("description");
    TrimSpaceIdentity("model");
    TrimSpaceIdentity("tools");
  }

  lemma NameLines(fields: Fields, name: string, description: string)
    requires TrimSpace(name) == name && TrimSpace(description) == description
    ensures ReadLine(fields, "name: " + name) == fields.(name := name)
    ensures ReadLine(fields, "description: " + description) == fields.(description := description)
  {
    KeyLine("name", fields, name);
    KeyLine("description", fields, description);
    assert "name" + ": " + name == "name: " + name;
    assert "description" + ": " + description == "description: " + description;
  }

  lemma ModelLine(fields: Fields, model: string)
    requires TrimSpace(model) == model
    ensures ReadLine(fields, "model: " + model) == fields.(model := model)
  {
    KeyLine("model", fields, model);
    assert "model" + ": " + model == "model: " + model;
  }

  lemma ToolsLine(fields: Fields, tools: seq<string>)
    requires tools != [] && forall t :: t in tools ==> ToolName(t)
    ensures ReadLine(fields, "tools: " + JoinWith(tools, ", ")) == fields.(tools := fields.tools + tools)
  {
    var joined := JoinWith(tools, ", ");
    JoinedTools(tools);
    TrimSpaceIdentity(joined);
    KeyLine("tools", fields, joined);
    assert "tools" + ": " + joined == "tools: " + joined;
    ToolsRead(tools);
  }

  lemma {:induction false} ReadAppend(fields: Fields, a: seq<string>, b: seq<string>)
    ensures ReadLines(fields, a + b) == ReadLines(ReadLines(fields, a), b)
    decreases a
  {
    if a == [] {
      assert a + b == b;
    } else {
      assert (a + b)[1..] == a[1..] + b;
      ReadAppend(ReadLine(fields, a[0]), a[1..], b);
    }
  }

  lemma ReadOne(fields: Fields, line: string)
    ensures ReadLines(fields, [line]) == ReadLine(fields, line) && ReadLines(fields, []) == fields
  {
    assert [line][1..] == [];
  }

  lemma {:induction false} ReadHeader(a: Agent)
    requires WellFormed(a)
    ensures ReadLines(Fields("", "", "", []), HeaderLines(a)) == Fields(a.name, a.description, a.model, a.tools)
  {
    var start := Fields("", "", "", []);
    var name, description := "name: " + a.name, "description: " + a.description;
    var tools := if a.tools == [] then [] else ["tools: " + JoinWith(a.tools, ", ")];
    var model := if a.model == "" then [] else ["model: " + a.model];
    assert HeaderLines(a) == ([name] + [description]) + tools + model;
    ReadAppend(start, [name] + [description] + tools, model);
    ReadAppend(start, [name] + [description], tools);
    ReadAppend(start, [name], [description]);
    ReadOne(start, name);
    NameLines(start, a.name, "");
    var named := start.(name := a.name);
    ReadOne(named, description);
    NameLines(named, "", a.description);
    var described := named.(description := a.description);
    ReadTools(described, a.tools, tools);
    ReadModel(described.(tools := a.tools), a.model, model);
  }

  lemma ReadTools(fields: Fields, names: seq<string>, lines: seq<string>)
    requires fields.tools == [] && forall t :: t in names ==> ToolName(t)
    requires lines == if names == [] then [] else ["tools: " + JoinWith(names, ", ")]
    ensures ReadLines(fields, lines) == fields.(tools := names)
  {
    if names != [] {
      ReadOne(fields, lines[0]);
      ToolsLine(fields, names);
      assert [] + names == names;
    }
  }

  lemma ReadModel(fields: Fields, model: string, lines: seq<string>)
    requires fields.model == "" && TrimSpace(model) == model
    requires lines == if model == "" then [] else ["model: " + model]
    ensures ReadLines(fields, lines) == fields.(model := model)
  {
    if model != "" {
      ReadOne(fields, lines[0]);
      ModelLine(fields, model);
    }
  }

  lemma HeaderLinesFlat(a: Agent)
    requires WellFormed(a)
    ensures forall line :: line in HeaderLines(a) ==>
      '\n' !in line && line != "" && line[0] != '-' && line[|line| - 1] != '\r'
  {
    hide JoinWith, Flat, TrimSpace, ToolName;
    FlatLine("name: ", a.name);
    FlatLine("description: ", a.description);
    FlatLine("model: ", a.model);
    if a.tools != [] {
      JoinedFlat(a.tools);
      FlatLine("tools: ", JoinWith(a.tools, ", "));
    }
  }

  lemma FlatLine(key: string, value: string)
    requires key != "" && key[0] != '-' && key[|key| - 1] == ' ' && '\n' !in key && Flat(value)
    ensures var line := key + value; '\n' !in line && line != "" && line[0] != '-' && line[|line| - 1] != '\r'
  {
    if value != "" {
      FlatEnds(value);
    }
  }

  lemma JoinedFlat(tools: seq<string>)
    requires tools != [] && forall t :: t in tools ==> ToolName(t)
    ensures Flat(JoinWith(tools, ", "))
  {
    hide JoinWith, ToolName;
    JoinedTools(tools);
    TrimSpaceIdentity(JoinWith(tools, ", "));
  }

  // No header line can close the block: none starts with a dash.
  lemma {:induction false} NoEarlyFence(lines: seq<string>, tail: string, i: nat)
    requires lines != [] && forall line :: line in lines ==> '\n' !in line && line != "" && line[0] != '-'
    requires i < |JoinWith(lines, "\n")|
    ensures !Occurs(JoinWith(lines, "\n") + CLOSING + tail, CLOSING, i)
    decreases |lines|
  {
    var first := lines[0];
    assert first in lines && forall line :: line in lines[1..] ==> line in lines;
    if |lines| == 1 || i < |first| {
      NotInLine(first, (if |lines| == 1 then "" else "\n" + JoinWith(lines[1..], "\n")) + CLOSING + tail, i);
      assert JoinWith(lines, "\n") + CLOSING + tail
        == first + ((if |lines| == 1 then "" else "\n" + JoinWith(lines[1..], "\n")) + CLOSING + tail);
    } else {
      hide JoinWith;
      FirstLine(lines);
      var rest := JoinWith(lines[1..], "\n");
      assert JoinWith(lines, "\n") + CLOSING + tail == first + "\n" + (rest + CLOSING + tail);
      NonEmptyJoin(lines[1..]);
      if i == |first| {
        NotBeforeText(first, rest + CLOSING + tail);
      } else {
        var j := i - |first| - 1;
        NoEarlyFence(lines[1..], tail, j);
        OccursAfter(first + "\n", rest + CLOSING + tail, CLOSING, j);
      }
    }
  }

  lemma NotInLine(line: string, after: string, i: nat)
    requires i < |line| && '\n' !in line
    ensures !Occurs(line + after, CLOSING, i)
  {
    OccursAt(line + after, CLOSING, i, 0);
    assert (line + after)[i] == line[i] && line[i] in line;
  }

  lemma NotBeforeText(line: string, text: string)
    requires text != "" && text[0] != '-'
    ensures !Occurs(line + "\n" + text, CLOSING, |line|)
  {
    OccursAt(line + "\n" + text, CLOSING, |line|, 1);
    assert (line + "\n" + text)[|line| + 1] == text[0];
  }

  lemma NonEmptyJoin(lines: seq<string>)
    requires lines != [] && forall line :: line in lines ==> line != "" && line[0] != '-'
    ensures JoinWith(lines, "\n") != "" && JoinWith(lines, "\n")[0] != '-'
  {
    assert lines[0] in lines;
  }

  /** Lines that neither hold a newline nor end in a carriage return join without a CRLF. */
  lemma {:induction false} JoinedUnpaired(lines: seq<string>)
    requires lines != [] && forall line :: line in lines ==> '\n' !in line && line != "" && line[|line| - 1] != '\r'
    ensures var s := JoinWith(lines, "\n"); NoPairs(s) && s != "" && s[|s| - 1] != '\r'
  {
    var first := lines[0];
    assert first in lines && forall j :: 0 <= j < |first| ==> first[j] in first;
    if |lines| > 1 {
      assert forall line :: line in lines[1..] ==> line in lines;
      JoinedUnpaired(lines[1..]);
      var rest := JoinWith(lines[1..], "\n");
      hide JoinWith;
      UnpairedAround(first, rest);
    }
  }

  lemma UnpairedAround(a: string, b: string)
    requires a == "" || a[|a| - 1] != '\r'
    requires NoPairs(a) && NoPairs(b) && b != ""
    ensures var s := a + "\n" + b; NoPairs(s) && s[|s| - 1] == b[|b| - 1]
  {
    var s := a + "\n" + b;
    forall i | 0 <= i < |s| - 1 ensures !(s[i] == '\r' && s[i + 1] == '\n') {
      if i > |a| {
        assert s[i] == b[i - |a| - 1] && s[i + 1] == b[i - |a|];
      }
    }
  }

  /** Folding a rendered file touches the prompt only. */
  lemma FoldedRender(a: Agent)
    requires WellFormed(a)
    ensures NormalizeNewlines(Render(a))
      == FENCE + JoinWith(HeaderLines(a), "\n") + CLOSING + NormalizeNewlines(TrimRightNewlines(a.prompt) + "\n")
  {
    hide JoinWith, HeaderLines, NormalizeNewlines, TrimRightNewlines, WellFormed;
    var lines, body := HeaderLines(a), TrimRightNewlines(a.prompt) + "\n";
    HeaderLinesFlat(a);
    SomeHeader(a);
    JoinedUnpaired(lines);
    var inner := JoinWith(lines, "\n");
    var head := FENCE + inner + CLOSING;
    HeadUnpaired(inner);
    NormalizeUnpaired(head);
    NormalizeAppend(head, body);
    assert Render(a) == head + body;
  }

  lemma SomeHeader(a: Agent)
    ensures HeaderLines(a) != []
  {
  }

  lemma HeadUnpaired(inner: string)
    requires NoPairs(inner) && inner != "" && inner[|inner| - 1] != '\r'
    ensures var head := FENCE + inner + CLOSING; NoPairs(head) && head[|head| - 1] != '\r'
  {
    UnpairedAround("---", inner);
    UnpairedAround("---" + "\n" + inner, "---\n");
    assert FENCE + inner + CLOSING == "---" + "\n" + inner + "\n" + "---\n";
  }

  /** Rendered text splits back into exactly its header and its folded body. */
  lemma {:induction false} BlockOfRendered(a: Agent)
    requires WellFormed(a)
    ensures FrontmatterBlock(Render(a))
      == Some((JoinWith(HeaderLines(a), "\n"), NormalizeNewlines(TrimRightNewlines(a.prompt) + "\n")))
  {
    hide JoinWith, NormalizeNewlines, TrimRightNewlines, IndexOf, WellFormed, Render, HeaderLines;
    var lines, body := HeaderLines(a), NormalizeNewlines(TrimRightNewlines(a.prompt) + "\n");
    var inner := JoinWith(lines, "\n");
    var rest := inner + CLOSING + body;
    FoldedRender(a);
    SomeHeader(a);
    assert NormalizeNewlines(Render(a)) == FENCE + rest;
    assert (FENCE + rest)[|FENCE|..] == rest;
    HeaderLinesFlat(a);
    forall i: nat | i < |inner| ensures !Occurs(rest, CLOSING, i) {
      NoEarlyFence(lines, body, i);
    }
    assert rest[|inner|..|inner| + |CLOSING|] == CLOSING;
    IndexIs(rest, CLOSING, |inner|);
    assert rest[..|inner|] == inner && rest[|inner| + |CLOSING|..] == body;
  }

  /** Every field comes back; the prompt comes back folded and ending in exactly one newline. */
  lemma {:induction false} ParseUndoesRender(a: Agent)
    requires WellFormed(a)
    ensures Parse(Render(a)) == a.(prompt := NormalizeNewlines(TrimRightNewlines(a.prompt) + "\n"))
  {
    hide Render, FrontmatterBlock, ReadLines, JoinWith, NormalizeNewlines, TrimRightNewlines;
    var lines := HeaderLines(a);
    BlockOfRendered(a);
    HeaderLinesFlat(a);
    SplitJoin(lines, '\n');
    ReadHeader(a);
  }

  /** Rendering what was parsed gives the file back byte for byte. */
  lemma {:induction false} RenderUndoesParse(a: Agent)
    requires WellFormed(a) && '\r' !in a.prompt
    ensures Render(Parse(Render(a))) == Render(a)
  {
    hide Parse, WellFormed, JoinWith, TrimRightNewlines;
    ParseUndoesRender(a);
    TerminatedPrompt(a.prompt);
    NormalizeIdentity(TrimRightNewlines(a.prompt) + "\n");
  }

  lemma TerminatedPrompt(prompt: string)
    ensures TrimRightNewlines(TrimRightNewlines(prompt) + "\n") == TrimRightNewlines(prompt)
    ensures '\r' !in prompt ==> '\r' !in TrimRightNewlines(prompt) + "\n"
  {
    var core := TrimRightNewlines(prompt);
    TrimRightNewlinesShape(prompt);
    assert (core + "\n")[..|core|] == core;
    assert TrimRightNewlines(core) == core;
  }

  // ------------------------------------------------------------ what counts as frontmatter

  /** The first fence line at or after a line number. */
  function FirstFence(lines: seq<string>, from: nat): (r: Option<nat>)
    ensures r.Some? ==> from <= r.value < |lines| && lines[r.value] == "---"
    ensures forall k :: from <= k < (if r.Some? then r.value else |lines|) ==> lines[k] != "---"
    decreases |lines| - from
  {
    if from >= |lines| then None
    else if lines[from] == "---" then Some(from)
    else FirstFence(lines, from + 1)
  }

  /** Frontmatter by lines: a fence on the first line, closed by the first fence from the third line on. */
  function BlockByLines(lines: seq<string>): Option<(string, string)>
    requires lines != []
  {
    if lines[0] != "---" then None
    else
      match FirstFence(lines, 2)
      case None => None
      case Some(k) => Some((JoinWith(lines[1..k], "\n"), JoinWith(lines[k + 1..], "\n")))
  }

  lemma {:induction false} JoinOfSplit(s: string, c: char)
    ensures JoinWith(SplitOn(s, c), [c]) == s
    ensures forall part :: part in SplitOn(s, c) ==> c !in part
  {
    if s != "" {
      JoinOfSplit(s[1..], c);
      var rest := SplitOn(s[1..], c);
      if s[0] == c {
        assert ([""] + rest)[1..] == rest;
        assert s == [c] + s[1..];
      } else {
        var parts := [[s[0]] + rest[0]] + rest[1..];
        assert parts[1..] == rest[1..];
        assert forall part :: part in rest[1..] ==> part in rest;
        if |rest| > 1 {
          assert [s[0]] + (rest[0] + [c] + JoinWith(rest[1..], [c]))
            == ([s[0]] + rest[0]) + [c] + JoinWith(rest[1..], [c]);
        }
      }
    }
  }

  lemma {:induction false} JoinSplitAt(lines: seq<string>, k: nat)
    requires 0 < k < |lines|
    ensures JoinWith(lines, "\n") == JoinWith(lines[..k], "\n") + "\n" + JoinWith(lines[k..], "\n")
  {
    if k == 1 {
      assert lines[..1] == [lines[0]];
    } else {
      JoinSplitAt(lines[1..], k - 1);
      assert lines[1..][..k - 1] == lines[..k][1..] && lines[1..][k - 1..] == lines[k..];
    }
  }

  /** A line between two others that is a fence is where the closing fence occurs. */
  lemma FenceThere(lines: seq<string>, k: nat)
    requires 0 < k < |lines| - 1 && lines[k] == "---"
    ensures var n := |JoinWith(lines[..k], "\n")|;
      && Occurs(JoinWith(lines, "\n"), CLOSING, n)
      && JoinWith(lines, "\n") == JoinWith(lines[..k], "\n") + CLOSING + JoinWith(lines[k + 1..], "\n")
  {
    hide JoinWith;
    JoinSplitAt(lines, k);
    FirstLine(lines[k..]);
    assert lines[k..][1..] == lines[k + 1..];
    var a, b := JoinWith(lines[..k], "\n"), JoinWith(lines[k + 1..], "\n");
    assert a + "\n" + ("---" + "\n" + b) == a + CLOSING + b;
    assert (a + CLOSING + b)[|a|..|a| + |CLOSING|] == CLOSING;
  }

  lemma FirstLine(lines: seq<string>)
    requires |lines| > 1
    ensures JoinWith(lines, "\n") == lines[0] + "\n" + JoinWith(lines[1..], "\n")
  {
  }

  /** The closing fence occurs nowhere else. */
  lemma {:induction false} OnlyAtFences(lines: seq<string>, i: nat) returns (k: nat)
    requires lines != [] && (forall line :: line in lines ==> '\n' !in line)
    requires Occurs(JoinWith(lines, "\n"), CLOSING, i)
    ensures 0 < k < |lines| - 1 && lines[k] == "---" && i == |JoinWith(lines[..k], "\n")|
    decreases |lines|
  {
    var s, first := JoinWith(lines, "\n"), lines[0];
    OccursAt(s, CLOSING, i, 0);
    assert first in lines && forall j :: 0 <= j < |first| ==> first[j] != '\n';
    if |lines| == 1 {
      assert false;
    }
    var tail := JoinWith(lines[1..], "\n");
    assert s == (first + "\n") + tail;
    assert forall line :: line in lines[1..] ==> line in lines;
    if i < |first| {
      assert false;
    } else if i == |first| {
      OccursAt(s, CLOSING, i, 1);
      OccursAt(s, CLOSING, i, 2);
      OccursAt(s, CLOSING, i, 3);
      OccursAt(s, CLOSING, i, 4);
      StartsWithFence(lines[1..]);
      k := 1;
      assert lines[..1] == [first];
    } else {
      OccursAfter(first + "\n", tail, CLOSING, i - |first| - 1);
      var k' := OnlyAtFences(lines[1..], i - |first| - 1);
      k := k' + 1;
      assert lines[1..][..k'] == lines[..k][1..];
    }
  }

  lemma StartsWithFence(lines: seq<string>)
    requires lines != [] && '\n' !in lines[0]
    requires var s := JoinWith(lines, "\n"); |s| >= 4 && s[0] == s[1] == s[2] == '-' && s[3] == '\n'
    ensures lines[0] == "---" && |lines| > 1
  {
    var s, first := JoinWith(lines, "\n"), lines[0];
    assert forall j :: 0 <= j < |first| ==> first[j] != '\n' && s[j] == first[j];
    assert |lines| > 1 ==> s[|first|] == '\n';
  }

  /** The text ends in a fence line exactly when its last line, not the first, is one. */
  lemma EndsWithFence(lines: seq<string>)
    requires lines != [] && forall line :: line in lines ==> '\n' !in line
    ensures var s := JoinWith(lines, "\n");
      (|s| >= 4 && s[|s| - 4..] == "\n---" <==> |lines| > 1 && lines[|lines| - 1] == "---")
    ensures |lines| > 1 && lines[|lines| - 1] == "---" ==>
      JoinWith(lines, "\n") == JoinWith(lines[..|lines| - 1], "\n") + "\n---"
  {
    var s, last := JoinWith(lines, "\n"), lines[|lines| - 1];
    assert last in lines;
    if |lines| == 1 {
      assert s == last && forall j :: 0 <= j < |s| ==> s[j] != '\n';
      assert |s| >= 4 ==> s[|s| - 4..][0] == s[|s| - 4];
    } else {
      JoinSplitAt(lines, |lines| - 1);
      assert lines[|lines| - 1..] == [last];
      LastAfterNewline(JoinWith(lines[..|lines| - 1], "\n"), last);
    }
  }

  lemma LastAfterNewline(a: string, last: string)
    requires '\n' !in last
    ensures var s := a + "\n" + last; (|s| >= 4 && s[|s| - 4..] == "\n---" <==> last == "---")
    ensures last == "---" ==> a + "\n" + last == a + "\n---"
  {
    var s := a + "\n" + last;
    assert s[|a|] == '\n' && s[|a| + 1..] == last && forall j :: |a| < j < |s| ==> s[j] == last[j - |a| - 1];
    if |s| >= 4 && s[|s| - 4..] == "\n---" {
      var tail := s[|s| - 4..];
      assert tail[0] == s[|s| - 4] && tail[1] == s[|s| - 3] && tail[2] == s[|s| - 2] && tail[3] == s[|s| - 1];
      assert s[|s| - 4] == '\n' && s[|s| - 3] == s[|s| - 2] == s[|s| - 1] == '-';
      assert |a| == |s| - 4;
      assert last == tail[1..];
    }
    if last == "---" {
      assert s == a + "\n---" && s[|s| - 4..] == "\n---";
    }
  }

  /** Searching for the fences as substrings finds exactly the frontmatter there is by lines. A second line
      that is a fence closes nothing. */
  lemma {:induction false} FrontmatterIsByLines(content: string)
    ensures FrontmatterBlock(content) == BlockByLines(SplitOn(NormalizeNewlines(content), '\n'))
  {
    hide SplitOn, NormalizeNewlines, JoinWith, IndexOf;
    var norm := NormalizeNewlines(content);
    var lines := SplitOn(norm, '\n');
    JoinOfSplit(norm, '\n');
    OpeningFence(lines, norm);
    if FENCE <= norm {
      var rest := lines[1..];
      assert norm == lines[0] + "\n" + JoinWith(rest, "\n") by { FirstLine(lines); }
      assert norm[|FENCE|..] == JoinWith(rest, "\n");
      assert forall line :: line in rest ==> line in lines;
      ClosingByLines(rest);
      ShiftedFences(lines);
    }
  }

  lemma OpeningFence(lines: seq<string>, norm: string)
    requires lines != [] && (forall line :: line in lines ==> '\n' !in line) && norm == JoinWith(lines, "\n")
    ensures FENCE <= norm <==> lines[0] == "---" && |lines| > 1
  {
    assert lines[0] in lines;
    if FENCE <= norm {
      assert norm[0] == FENCE[0] && norm[1] == FENCE[1] && norm[2] == FENCE[2] && norm[3] == FENCE[3];
      StartsWithFence(lines);
    }
  }

  /** The first fence at or after line 1 of the text behind the opening fence. */
  lemma {:induction false} ClosingByLines(rest: seq<string>)
    requires rest != [] && forall line :: line in rest ==> '\n' !in line
    ensures var text := JoinWith(rest, "\n");
      var end := IndexOf(text, CLOSING);
      var trailing := |text| >= 4 && text[|text| - 4..] == "\n---";
      match FirstFence(rest, 1)
      case None => end == None && !trailing
      case Some(k) =>
        && (end.Some? || trailing)
        && (if end.Some? then text[..end.value] else text[..|text| - 4]) == JoinWith(rest[..k], "\n")
        && (if end.Some? then text[end.value + |CLOSING|..] else "") == JoinWith(rest[k + 1..], "\n")
  {
    hide JoinWith, IndexOf;
    var text := JoinWith(rest, "\n");
    EndsWithFence(rest);
    match FirstFence(rest, 1)
    case None =>
      forall i: nat ensures !Occurs(text, CLOSING, i) {
        if Occurs(text, CLOSING, i) {
          var k := OnlyAtFences(rest, i);
        }
      }
      IndexNone(text, CLOSING);
    case Some(k) =>
      if k < |rest| - 1 {
        FenceThere(rest, k);
        forall i: nat | i < |JoinWith(rest[..k], "\n")| ensures !Occurs(text, CLOSING, i) {
          if Occurs(text, CLOSING, i) {
            var j := OnlyAtFences(rest, i);
            ShorterJoin(rest, k, j);
          }
        }
        IndexIs(text, CLOSING, |JoinWith(rest[..k], "\n")|);
      } else {
        forall i: nat ensures !Occurs(text, CLOSING, i) {
          if Occurs(text, CLOSING, i) {
            var j := OnlyAtFences(rest, i);
          }
        }
        IndexNone(text, CLOSING);
        NothingJoined(rest[k + 1..]);
      }
  }

  lemma NothingJoined(lines: seq<string>)
    requires lines == []
    ensures JoinWith(lines, "\n") == ""
  {
  }

  lemma ShorterJoin(lines: seq<string>, k: nat, j: nat)
    requires 0 < k <= j <= |lines|
    ensures |JoinWith(lines[..k], "\n")| <= |JoinWith(lines[..j], "\n")|
  {
    if k < j {
      JoinSplitAt(lines[..j], k);
      assert lines[..j][..k] == lines[..k];
    }
  }

  lemma {:induction false} ShiftedFences(lines: seq<string>)
    requires |lines| > 1
    ensures match FirstFence(lines, 2)
      case None => FirstFence(lines[1..], 1) == None
      case Some(k) =>
        && FirstFence(lines[1..], 1) == Some(k - 1)
        && lines[1..][..k - 1] == lines[1..k] && lines[1..][k..] == lines[k + 1..]
  {
    var rest := lines[1..];
    var a, b := FirstFence(lines, 2), FirstFence(rest, 1);
    assert a.Some? ==> rest[a.value - 1] == "---";
    assert b.Some? ==> lines[b.value + 1] == "---";
  }

  // -------------------------------------------------------------------- a push

  /** The record a push of the file authors, under the name the item has on disk. */
  function Pushed(name: string, content: string): Agent {
    var a := Parse(content);
    a.(name := name, model := if a.model == "" then "inherit" else a.model)
  }

  /** A part of another text: what it does not hold, the part does not hold. */
  ghost predicate PartOf(part: string, whole: string) { forall c :: c in part ==> c in whole }

  lemma TrimmedPart(s: string)
    ensures PartOf(TrimSpace(s), s) && TrimSpace(TrimSpace(s)) == TrimSpace(s)
  {
    hide Space, TrimLeftSpace, TrimRightSpace;
    var left := TrimLeftSpace(s);
    TrimLeftSpaceShape(s);
    TrimRightSpaceShape(left);
    var t := TrimSpace(s);
    if t != "" {
      assert t[0] == left[0];
    }
    TrimSpaceIdentity(t);
  }

  lemma {:induction false} CutParts(s: string, c: char)
    ensures Cut(s, c).Some? ==> PartOf(Cut(s, c).value.0, s) && PartOf(Cut(s, c).value.1, s)
  {
    if s != "" && s[0] != c {
      CutParts(s[1..], c);
    }
  }

  lemma {:induction false} SplitParts(s: string, c: char)
    ensures forall part :: part in SplitOn(s, c) ==> c !in part && PartOf(part, s)
  {
    if s != "" {
      SplitParts(s[1..], c);
      var rest := SplitOn(s[1..], c);
      assert forall part :: part in rest[1..] ==> part in rest;
      assert rest[0] in rest;
    }
  }

  lemma {:induction false} ToolNamesSound(parts: seq<string>)
    requires forall part :: part in parts ==> '\n' !in part && ',' !in part
    ensures forall t :: t in ToolNames(parts) ==> ToolName(t)
  {
    hide TrimSpace;
    if parts != [] {
      assert parts[0] in parts && forall part :: part in parts[1..] ==> part in parts;
      ToolNamesSound(parts[1..]);
      TrimmedPart(parts[0]);
    }
  }

  /** Fields read from lines are trimmed single lines, tool names comma-free and not empty. */
  ghost predicate SoundFields(f: Fields) {
    && Flat(f.name) && Flat(f.description) && Flat(f.model) && forall t :: t in f.tools ==> ToolName(t)
  }

  lemma ReadLineSound(fields: Fields, line: string)
    requires SoundFields(fields) && '\n' !in line
    ensures SoundFields(ReadLine(fields, line))
  {
    hide TrimSpace, SplitOn, ToolNames, Cut;
    if Cut(line, ':').Some? {
      var raw := Cut(line, ':').value.1;
      var value := TrimSpace(raw);
      CutParts(line, ':');
      TrimmedPart(raw);
      SplitParts(value, ',');
      ToolNamesSound(SplitOn(value, ','));
    }
  }

  lemma {:induction false} ReadLinesSound(fields: Fields, lines: seq<string>)
    requires SoundFields(fields) && forall line :: line in lines ==> '\n' !in line
    ensures SoundFields(ReadLines(fields, lines))
    decreases lines
  {
    hide SoundFields, ReadLine;
    if lines != [] {
      assert lines[0] in lines && forall line :: line in lines[1..] ==> line in lines;
      ReadLineSound(fields, lines[0]);
      ReadLinesSound(ReadLine(fields, lines[0]), lines[1..]);
    }
  }

  lemma {:induction false} ParsedSound(content: string)
    ensures var a := Parse(content); SoundFields(Fields(a.name, a.description, a.model, a.tools))
  {
    hide ReadLines, SplitOn, FrontmatterBlock, TrimSpace;
    assert SoundFields(Fields("", "", "", [])) by { NothingTrimmed(); }
    if FrontmatterBlock(content).Some? {
      var inner := FrontmatterBlock(content).value.0;
      SplitParts(inner, '\n');
      ReadLinesSound(Fields("", "", "", []), SplitOn(inner, '\n'));
    }
  }

  lemma NothingTrimmed()
    ensures TrimSpace("") == ""
  {
  }

  /** Whatever the file holds, what a push sends is a record that the next pull writes to a file reading back
      as that record, its prompt folded and ending in one newline: the frontmatter is never wrapped twice. */
  lemma {:induction false} PushRoundTrip(name: string, content: string)
    requires Flat(name)
    ensures var sent := Pushed(name, content);
      && WellFormed(sent)
      && Parse(Render(sent)) == sent.(prompt := NormalizeNewlines(TrimRightNewlines(sent.prompt) + "\n"))
  {
    hide Parse, Render, TrimSpace, JoinWith, HeaderLines;
    var sent := Pushed(name, content);
    ParsedSound(content);
    TrimSpaceIdentity("inherit");
    ParseUndoesRender(sent);
  }

  /** A file without frontmatter, by lines, is pushed whole as the prompt, with nothing else known but its name. */
  lemma {:induction false} BarePromptPushed(name: string, content: string)
    ensures var lines := SplitOn(NormalizeNewlines(content), '\n');
      lines[0] != "---" || FirstFence(lines, 2) == None ==>
        Pushed(name, content) == Agent(name, "", [], "inherit", content)
  {
    hide SplitOn, NormalizeNewlines, FrontmatterBlock, FirstFence;
    FrontmatterIsByLines(content);
  }
}
