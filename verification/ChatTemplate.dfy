// Chat prompts: crates/hivebear-inference/src/chat_template.rs, the ChatML, Llama 3 and Mistral
// printers, and a reader for the first two.
module ChatTemplate {
  import opened Wrappers
  import opened Text

  // ---------------------------------------------------------------- messages

  datatype ContentPart = TextPart(text: string) | ImagePart

  datatype ChatMessage = System(text: string)
                       | User(parts: seq<ContentPart>)
                       | Assistant(content: Option<string>)
                       | ToolResult(output: string)

  // inputSchema is the schema as compact JSON text.
  datatype ToolDefinition = ToolDefinition(name: string, description: string, inputSchema: string)

  function Texts(parts: seq<ContentPart>): seq<string> {
    if parts == [] then []
    else (if parts[0].TextPart? then [parts[0].text] else []) + Texts(parts[1..])
  }

  function Join(items: seq<string>, sep: string): string {
    if items == [] then "" else if |items| == 1 then items[0] else items[0] + sep + Join(items[1..], sep)
  }

  function Describe(tools: seq<ToolDefinition>): seq<string> {
    if tools == [] then []
    else ["- " + tools[0].name + ": " + tools[0].description + " (params: " + tools[0].inputSchema + ")"]
         + Describe(tools[1..])
  }

  const TOOL_INTRO := "\n\nYou have access to the following tools:\n"
  const TOOL_USE :=
    "\nTo use a tool, respond with a JSON object: " + "{\"tool\": \"<name>\", \"arguments\": {...}}"
  const DEFAULT_SYSTEM := "You are a helpful assistant."

  function ToolSystemPrompt(tools: seq<ToolDefinition>): string {
    if tools == [] then "" else TOOL_INTRO + Join(Describe(tools), "\n") + TOOL_USE
  }

  // ---------------------------------------------------------------- turns

  datatype Role = SystemRole | UserRole | AssistantRole | ToolRole

  function RoleName(role: Role): string {
    match role
    case SystemRole => "system"
    case UserRole => "user"
    case AssistantRole => "assistant"
    case ToolRole => "tool"
  }

  datatype Turn = Turn(role: Role, text: string)

  // What a message says, and in which role.
  function TurnOf(m: ChatMessage, tools: seq<ToolDefinition>): Turn {
    match m
    case System(text) => Turn(SystemRole, text + ToolSystemPrompt(tools))
    case User(parts) => Turn(UserRole, Join(Texts(parts), "\n"))
    case Assistant(content) => Turn(AssistantRole, if content.Some? then content.value else "")
    case ToolResult(output) => Turn(ToolRole, output)
  }

  function Turns(messages: seq<ChatMessage>, tools: seq<ToolDefinition>): seq<Turn> {
    if messages == [] then [] else [TurnOf(messages[0], tools)] + Turns(messages[1..], tools)
  }

  predicate HasSystem(messages: seq<ChatMessage>) {
    exists i :: 0 <= i < |messages| && messages[i].System?
  }

  // The messages with a system message put in front where tools need one.
  function WithSystem(messages: seq<ChatMessage>, tools: seq<ToolDefinition>): seq<ChatMessage> {
    if tools != [] && !HasSystem(messages) then [System(DEFAULT_SYSTEM)] + messages else messages
  }

  // ---------------------------------------------------------------- framed formats

  // lead (open role mid text end gap)* open "assistant" mid
  datatype Frame = Frame(lead: string, open: string, mid: string, end: string, gap: string)

  const CHATML := Frame("", "<|im_start|>", "\n", "<|im_end|>", "\n")
  const LLAMA3 := Frame("<|begin_of_text|>", "<|start_header_id|>", "<|end_header_id|>\n\n", "<|eot_id|>", "")

  function PrintTurn(f: Frame, turn: Turn): string {
    f.open + RoleName(turn.role) + f.mid + turn.text + f.end + f.gap
  }

  function PrintTurns(f: Frame, turns: seq<Turn>): string {
    if turns == [] then "" else PrintTurn(f, turns[0]) + PrintTurns(f, turns[1..])
  }

  function Cue(f: Frame): string {
    f.open + RoleName(AssistantRole) + f.mid
  }

  function Prompt(f: Frame, turns: seq<Turn>): string {
    f.lead + PrintTurns(f, turns) + Cue(f)
  }

  // ---------------------------------------------------------------- the printers

  lemma PrintTurnsConcat(f: Frame, a: seq<Turn>, b: seq<Turn>)
    ensures PrintTurns(f, a + b) == PrintTurns(f, a) + PrintTurns(f, b)
  {
    hide PrintTurn;
    if a == [] {
      assert a + b == b;
    } else {
      assert (a + b)[1..] == a[1..] + b;
      PrintTurnsConcat(f, a[1..], b);
      Assoc(PrintTurn(f, a[0]), PrintTurns(f, a[1..]), PrintTurns(f, b));
    }
  }

  lemma TurnsStep(messages: seq<ChatMessage>, tools: seq<ToolDefinition>, i: nat)
    requires i < |messages|
    ensures Turns(messages[..i + 1], tools) == Turns(messages[..i], tools) + [TurnOf(messages[i], tools)]
  {
    if i > 0 {
      TurnsStep(messages[1..], tools, i - 1);
      assert messages[..i + 1][1..] == messages[1..][..i] && messages[..i][1..] == messages[1..][..i - 1];
    } else {
      assert messages[..1][1..] == [] && messages[..1][0] == messages[0];
    }
  }

  lemma PrintStep(f: Frame, messages: seq<ChatMessage>, tools: seq<ToolDefinition>, i: nat)
    requires i < |messages|
    ensures PrintTurns(f, Turns(messages[..i + 1], tools))
            == PrintTurns(f, Turns(messages[..i], tools)) + PrintTurn(f, TurnOf(messages[i], tools))
  {
    TurnsStep(messages, tools, i);
    var last := [TurnOf(messages[i], tools)];
    PrintTurnsConcat(f, Turns(messages[..i], tools), last);
    assert last[1..] == [] && PrintTurns(f, last) == PrintTurn(f, last[0]) + "";
  }

  lemma NoTurns(f: Frame, messages: seq<ChatMessage>, tools: seq<ToolDefinition>)
    ensures PrintTurns(f, Turns(messages[..0], tools)) == ""
  {
  }

  // Printing the system turn afterwards, in front, is printing the extended message list.
  lemma InjectionIsPrepending(f: Frame, messages: seq<ChatMessage>, tools: seq<ToolDefinition>)
    requires tools != [] && !HasSystem(messages)
    ensures PrintTurns(f, Turns(WithSystem(messages, tools), tools))
            == PrintTurn(f, Turn(SystemRole, DEFAULT_SYSTEM + ToolSystemPrompt(tools)))
                + PrintTurns(f, Turns(messages, tools))
  {
    var m := WithSystem(messages, tools);
    assert m[1..] == messages && m[0] == System(DEFAULT_SYSTEM);
    var turns := Turns(m, tools);
    assert turns[1..] == Turns(messages, tools);
  }

  // render_chatml: a missing system message is put in front of the finished text.
  method RenderChatml(messages: seq<ChatMessage>, tools: seq<ToolDefinition>) returns (prompt: string)
    ensures prompt == Prompt(CHATML, Turns(WithSystem(messages, tools), tools))
  {
    hide TurnOf, PrintTurn, ToolSystemPrompt;
    var f := CHATML;
    prompt := "";
    var i := 0;
    while i < |messages|
      invariant i <= |messages|
      invariant prompt == PrintTurns(f, Turns(messages[..i], tools))
    {
      PrintStep(f, messages, tools, i);
      prompt := prompt + PrintTurn(f, TurnOf(messages[i], tools));
      i := i + 1;
    }
    assert messages[..i] == messages;
    if tools != [] && !HasSystem(messages) {
      InjectionIsPrepending(f, messages, tools);
      prompt := PrintTurn(f, Turn(SystemRole, DEFAULT_SYSTEM + ToolSystemPrompt(tools))) + prompt;
    }
    assert f.lead + PrintTurns(f, Turns(WithSystem(messages, tools), tools)) == prompt;
    prompt := prompt + Cue(f);
  }

  // render_llama3: the same, but the finished text already starts with the lead, which is cut off
  // and put back.
  method RenderLlama3(messages: seq<ChatMessage>, tools: seq<ToolDefinition>) returns (prompt: string)
    ensures prompt == Prompt(LLAMA3, Turns(WithSystem(messages, tools), tools))
  {
    hide TurnOf, PrintTurn, Turns, ToolSystemPrompt;
    var f := LLAMA3;
    prompt := f.lead;
    NoTurns(f, messages, tools);
    var i := 0;
    while i < |messages|
      invariant i <= |messages|
      invariant prompt == f.lead + PrintTurns(f, Turns(messages[..i], tools))
    {
      PrintStep(f, messages, tools, i);
      prompt := prompt + PrintTurn(f, TurnOf(messages[i], tools));
      i := i + 1;
    }
    assert messages[..i] == messages;
    if tools != [] && !HasSystem(messages) {
      InjectionIsPrepending(f, messages, tools);
      var body := PrintTurns(f, Turns(messages, tools));
      assert prompt[|f.lead|..] == body;
      prompt := f.lead + PrintTurn(f, Turn(SystemRole, DEFAULT_SYSTEM + ToolSystemPrompt(tools))) + prompt[|f.lead|..];
    }
    prompt := prompt + Cue(f);
  }

  // ---------------------------------------------------------------- the reader

  predicate StartsWith(s: string, pat: string) {
    |pat| <= |s| && s[..|pat|] == pat
  }

  function RoleOf(name: string): Option<Role> {
    if name == "system" then Some(SystemRole)
    else if name == "user" then Some(UserRole)
    else if name == "assistant" then Some(AssistantRole)
    else if name == "tool" then Some(ToolRole)
    else None
  }

  // Splits on the headers and the end marker; an assistant header at the very end is the cue.
  function ReadTurns(f: Frame, s: string): Option<seq<Turn>>
    requires f.open != ""
    decreases |s|, 0
  {
    if !StartsWith(s, f.open) then None
    else
      var header := s[|f.open|..];
      match Find(header, f.mid)
      case None => None
      case Some(i) =>
        var role, rest := RoleOf(header[..i]), header[i + |f.mid|..];
        if role.None? then None
        else if rest == "" then if role.value == AssistantRole then Some([]) else None
        else ReadText(f, role.value, rest)
  }

  // The text behind a header, up to the first end marker, and the turns behind it.
  function ReadText(f: Frame, role: Role, rest: string): Option<seq<Turn>>
    requires f.open != ""
    decreases |rest|, 1
  {
    match Find(rest, f.end)
    case None => None
    case Some(j) =>
      var after := rest[j + |f.end|..];
      if !StartsWith(after, f.gap) then None
      else
        var more := ReadTurns(f, after[|f.gap|..]);
        if more.None? then None else Some([Turn(role, rest[..j])] + more.value)
  }

  function Read(f: Frame, prompt: string): Option<seq<Turn>>
    requires f.open != ""
  {
    if StartsWith(prompt, f.lead) then ReadTurns(f, prompt[|f.lead|..]) else None
  }

  // ---------------------------------------------------------------- unique readability

  // The marker cannot overlap itself: its first character occurs nowhere else in it.
  predicate NoSelfOverlap(marker: string) {
    marker != "" && marker[0] !in marker[1..]
  }

  predicate ReadableFrame(f: Frame) {
    && f.open != "" && NoSelfOverlap(f.end) && f.mid != ""
    && forall role :: f.mid[0] !in RoleName(role)
  }

  // Behind a text, the first end marker is the one that was printed - unless the text contains one.
  lemma FirstMarker(text: string, marker: string, rest: string)
    requires NoSelfOverlap(marker)
    ensures !Contains(text, marker) ==> Find(text + marker + rest, marker) == Some(|text|)
    ensures Contains(text, marker) ==>
              Find(text + marker + rest, marker).Some? && Find(text + marker + rest, marker).value < |text|
  {
    var s := text + marker + rest;
    assert s[|text|..|text| + |marker|] == marker;
    assert MatchesAt(s, marker, |text|);
    forall k | 0 <= k < |text| ensures MatchesAt(s, marker, k) <==> MatchesAt(text, marker, k) {
      MatchInsideText(text, marker, rest, k);
    }
    if !Contains(text, marker) {
      FindUnique(s, marker, |text|);
    }
  }

  lemma MatchInsideText(text: string, marker: string, rest: string, k: nat)
    requires NoSelfOverlap(marker) && k < |text|
    ensures MatchesAt(text + marker + rest, marker, k) <==> MatchesAt(text, marker, k)
  {
    var s := text + marker + rest;
    if k + |marker| <= |text| {
      assert s[k..k + |marker|] == text[k..k + |marker|];
    } else {
      assert s[|text|] == marker[0];
      assert s[k..k + |marker|][|text| - k] == s[|text|];
      assert marker[1..][|text| - k - 1] == marker[|text| - k];
    }
  }

  lemma HeaderIsRead(name: string, mid: string, rest: string)
    requires mid != "" && mid[0] !in name
    ensures Find(name + mid + rest, mid) == Some(|name|)
    ensures (name + mid + rest)[..|name|] == name && (name + mid + rest)[|name| + |mid|..] == rest
  {
    var s := name + mid + rest;
    assert s[|name|..|name| + |mid|] == mid;
    forall k | 0 <= k < |name| ensures !MatchesAt(s, mid, k) {
      assert s[k] == name[k];
      if k + |mid| <= |s| {
        assert s[k..k + |mid|][0] == s[k];
      }
    }
    FindUnique(s, mid, |name|);
  }

  lemma RoleRoundTrip(role: Role)
    ensures RoleOf(RoleName(role)) == Some(role)
  {
  }

  lemma ReadHeader(f: Frame, role: Role, tail: string)
    requires ReadableFrame(f) && tail != ""
    ensures ReadTurns(f, f.open + (RoleName(role) + f.mid + tail)) == ReadText(f, role, tail)
  {
    hide Find, ReadText, RoleOf, RoleName;
    var header := RoleName(role) + f.mid + tail;
    var s := f.open + header;
    assert s[..|f.open|] == f.open && s[|f.open|..] == header;
    HeaderIsRead(RoleName(role), f.mid, tail);
    RoleRoundTrip(role);
  }

  lemma ReadBody(f: Frame, turn: Turn, rest: string)
    requires ReadableFrame(f)
    ensures !Contains(turn.text, f.end) ==>
              ReadText(f, turn.role, turn.text + f.end + (f.gap + rest))
              == (var more := ReadTurns(f, rest); if more.None? then None else Some([turn] + more.value))
    ensures Contains(turn.text, f.end) ==>
              var r := ReadText(f, turn.role, turn.text + f.end + (f.gap + rest));
              r.Some? ==> r.value != [] && r.value[0] != turn
  {
    hide Find, ReadTurns, Contains;
    var tail := turn.text + f.end + (f.gap + rest);
    FirstMarker(turn.text, f.end, f.gap + rest);
    var j := Find(tail, f.end).value;
    if !Contains(turn.text, f.end) {
      assert tail[j + |f.end|..] == f.gap + rest && tail[..j] == turn.text;
      assert (f.gap + rest)[..|f.gap|] == f.gap && (f.gap + rest)[|f.gap|..] == rest;
    } else {
      assert |tail[..j]| < |turn.text|;
    }
  }

  lemma ReadOne(f: Frame, turn: Turn, rest: string)
    requires ReadableFrame(f)
    ensures !Contains(turn.text, f.end) ==>
              ReadTurns(f, PrintTurn(f, turn) + rest)
              == (var more := ReadTurns(f, rest); if more.None? then None else Some([turn] + more.value))
    ensures Contains(turn.text, f.end) ==>
              var r := ReadTurns(f, PrintTurn(f, turn) + rest); r.Some? ==> r.value != [] && r.value[0] != turn
  {
    hide Find, ReadTurns, ReadText, Contains, RoleName;
    var tail := turn.text + f.end + (f.gap + rest);
    assert PrintTurn(f, turn) + rest == f.open + (RoleName(turn.role) + f.mid + tail);
    ReadHeader(f, turn.role, tail);
    ReadBody(f, turn, rest);
  }

  lemma CueIsRead(f: Frame)
    requires ReadableFrame(f)
    ensures ReadTurns(f, Cue(f)) == Some([])
  {
    var name := RoleName(AssistantRole);
    assert Cue(f) == f.open + (name + f.mid);
    assert name + f.mid + "" == name + f.mid;
    HeaderIsRead(name, f.mid, "");
    RoleRoundTrip(AssistantRole);
    assert Cue(f)[|f.open|..] == name + f.mid;
  }

  ghost predicate MarkerFree(f: Frame, turns: seq<Turn>) {
    forall i :: 0 <= i < |turns| ==> !Contains(turns[i].text, f.end)
  }

  lemma {:induction false} TurnsAreRead(f: Frame, turns: seq<Turn>)
    requires ReadableFrame(f)
    ensures ReadTurns(f, PrintTurns(f, turns) + Cue(f)) == Some(turns) <==> MarkerFree(f, turns)
  {
    hide ReadTurns, Find, PrintTurn;
    if turns == [] {
      assert PrintTurns(f, turns) + Cue(f) == Cue(f);
      CueIsRead(f);
    } else {
      var rest := PrintTurns(f, turns[1..]) + Cue(f);
      assert PrintTurns(f, turns) + Cue(f) == PrintTurn(f, turns[0]) + rest;
      ReadOne(f, turns[0], rest);
      TurnsAreRead(f, turns[1..]);
      assert turns == [turns[0]] + turns[1..];
      assert MarkerFree(f, turns) <==> !Contains(turns[0].text, f.end) && MarkerFree(f, turns[1..]) by {
        assert forall i :: 0 <= i < |turns[1..]| ==> turns[1..][i] == turns[i + 1];
        assert forall i :: 1 <= i < |turns| ==> turns[i] == turns[1..][i - 1];
      }
      var more := ReadTurns(f, rest);
      assert more.Some? ==> ([turns[0]] + more.value)[1..] == more.value;
    }
  }

  // A rendered prompt reads back as its (role, text) pairs exactly when no text contains the end marker.
  lemma ReadablePrompt(f: Frame, turns: seq<Turn>)
    requires ReadableFrame(f)
    ensures Read(f, Prompt(f, turns)) == Some(turns) <==> MarkerFree(f, turns)
  {
    var body := PrintTurns(f, turns) + Cue(f);
    assert Prompt(f, turns) == f.lead + body;
    assert Prompt(f, turns)[..|f.lead|] == f.lead && Prompt(f, turns)[|f.lead|..] == body;
    TurnsAreRead(f, turns);
  }

  lemma FramesAreReadable()
    ensures ReadableFrame(CHATML) && ReadableFrame(LLAMA3)
  {
    assert '<' !in "|im_end|>" && '<' !in "|eot_id|>";
    assert CHATML.end[1..] == "|im_end|>" && LLAMA3.end[1..] == "|eot_id|>";
    forall role ensures '<' !in RoleName(role) && '\n' !in RoleName(role) {
      match role
      case SystemRole =>
      case UserRole =>
      case AssistantRole =>
      case ToolRole =>
    }
  }

  // Both formats are uniquely readable.
  lemma UniqueReadability(messages: seq<ChatMessage>, tools: seq<ToolDefinition>)
    ensures var turns := Turns(WithSystem(messages, tools), tools);
            && (Read(CHATML, Prompt(CHATML, turns)) == Some(turns) <==> MarkerFree(CHATML, turns))
            && (Read(LLAMA3, Prompt(LLAMA3, turns)) == Some(turns) <==> MarkerFree(LLAMA3, turns))
  {
    FramesAreReadable();
    var turns := Turns(WithSystem(messages, tools), tools);
    ReadablePrompt(CHATML, turns);
    ReadablePrompt(LLAMA3, turns);
  }

  // Prompts of marker-free conversations are equal only if the conversations say the same.
  lemma PromptsDiffer(f: Frame, a: seq<Turn>, b: seq<Turn>)
    requires ReadableFrame(f) && MarkerFree(f, a) && Prompt(f, a) == Prompt(f, b)
    ensures a == b <==> MarkerFree(f, b)
  {
    ReadablePrompt(f, a);
    ReadablePrompt(f, b);
  }
}
