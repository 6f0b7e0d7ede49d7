// The printed prompts in terms of the messages themselves, with roles and markers written out.
module ChatConversations {
  import opened Wrappers
  import opened ChatTemplate

  // ---------------------------------------------------------------- what a message says

  // The text parts joined by line feeds, by position.
  ghost predicate IsJoined(parts: seq<ContentPart>, text: string) {
    exists texts: seq<string> :: AreTexts(parts, texts) && text == Lines(texts)
  }

  // The texts of the text parts, in order.
  ghost predicate AreTexts(parts: seq<ContentPart>, texts: seq<string>)
    decreases |parts|
  {
    if parts == [] then texts == []
    else match parts[0]
      case ImagePart => AreTexts(parts[1..], texts)
      case TextPart(text) => texts != [] && texts[0] == text && AreTexts(parts[1..], texts[1..])
  }

  // One line for each text.
  function Lines(texts: seq<string>): string {
    if texts == [] then ""
    else if |texts| == 1 then texts[0]
    else texts[0] + "\n" + Lines(texts[1..])
  }

  lemma {:induction false} TextsAreTexts(parts: seq<ContentPart>)
    ensures AreTexts(parts, Texts(parts))
  {
    if parts != [] {
      TextsAreTexts(parts[1..]);
      var texts, rest := Texts(parts), Texts(parts[1..]);
      if parts[0].TextPart? {
        assert texts == [parts[0].text] + rest;
        assert texts[0] == parts[0].text && texts[1..] == rest;
      } else {
        assert texts == [] + rest == rest;
      }
    }
  }

  lemma {:induction false} LinesAreJoined(texts: seq<string>)
    ensures Lines(texts) == Join(texts, "\n")
  {
    if |texts| > 1 {
      LinesAreJoined(texts[1..]);
    }
  }

  // The turn a message is printed as, without tools: its role by name, and its own text.
  ghost predicate SaysAs(m: ChatMessage, role: string, text: string) {
    match m
    case System(s) => role == "system" && text == s
    case User(parts) => role == "user" && IsJoined(parts, text)
    case Assistant(None) => role == "assistant" && text == ""
    case Assistant(Some(content)) => role == "assistant" && text == content
    case ToolResult(output) => role == "tool" && text == output
  }

  lemma TurnSays(m: ChatMessage)
    ensures var turn := TurnOf(m, []); SaysAs(m, RoleName(turn.role), turn.text)
  {
    match m
    case System(s) => assert s + "" == s;
    case User(parts) =>
      TextsAreTexts(parts);
      LinesAreJoined(Texts(parts));
      assert IsJoined(parts, Join(Texts(parts), "\n"));
    case Assistant(content) =>
    case ToolResult(output) =>
  }

  // The same with the description of the tools behind each system text.
  lemma TurnSaysWithTools(m: ChatMessage, tools: seq<ToolDefinition>)
    ensures var turn := TurnOf(m, tools);
            if m.System? then RoleName(turn.role) == "system" && turn.text == m.text + ToolSystemPrompt(tools)
            else SaysAs(m, RoleName(turn.role), turn.text)
  {
    TurnSays(m);
  }

  // ---------------------------------------------------------------- reading back

  lemma TurnsByIndex(messages: seq<ChatMessage>, tools: seq<ToolDefinition>)
    ensures |Turns(messages, tools)| == |messages|
    ensures forall i :: 0 <= i < |messages| ==> Turns(messages, tools)[i] == TurnOf(messages[i], tools)
  {
    if messages != [] {
      TurnsByIndex(messages[1..], tools);
    }
  }

  // No text of the conversation contains the end marker of the format.
  ghost predicate NoMarkers(f: Frame, messages: seq<ChatMessage>, tools: seq<ToolDefinition>) {
    MarkerFree(f, Turns(WithSystem(messages, tools), tools))
  }

  // What a reader finds for each message of a conversation without tools.
  ghost predicate ReadsAs(turns: Option<seq<Turn>>, messages: seq<ChatMessage>) {
    && turns.Some? && |turns.value| == |messages|
    && forall i :: 0 <= i < |messages| ==>
         SaysAs(messages[i], RoleName(turns.value[i].role), turns.value[i].text)
  }

  // Without tools, reading a prompt back gives one turn for each message, in order, in the role and with
  // the text of that message.
  lemma ConversationsReadBack(f: Frame, messages: seq<ChatMessage>)
    requires f == CHATML || f == LLAMA3
    requires NoMarkers(f, messages, [])
    ensures ReadsAs(Read(f, Prompt(f, Turns(messages, []))), messages)
  {
    hide Read, Prompt, TurnOf, Turns, SaysAs;
    UniqueReadability(messages, []);
    TurnsByIndex(messages, []);
    forall i | 0 <= i < |messages|
      ensures SaysAs(messages[i], RoleName(Turns(messages, [])[i].role), Turns(messages, [])[i].text)
    {
      TurnSays(messages[i]);
    }
  }

  // With tools their description stands behind each system text; a conversation without a system message
  // gets a default one in front.
  ghost predicate ReadsWithTools(turns: Option<seq<Turn>>, messages: seq<ChatMessage>, tools: seq<ToolDefinition>) {
    && turns.Some? && |turns.value| == |messages|
    && forall i :: 0 <= i < |messages| ==>
         var role, text := RoleName(turns.value[i].role), turns.value[i].text;
         if messages[i].System? then role == "system" && text == messages[i].text + ToolSystemPrompt(tools)
         else SaysAs(messages[i], role, text)
  }

  lemma ToolConversationsReadBack(f: Frame, messages: seq<ChatMessage>, tools: seq<ToolDefinition>)
    requires f == CHATML || f == LLAMA3
    requires tools != [] && NoMarkers(f, messages, tools)
    ensures var turns := Read(f, Prompt(f, Turns(WithSystem(messages, tools), tools)));
            if exists i :: 0 <= i < |messages| && messages[i].System? then ReadsWithTools(turns, messages, tools)
            else ReadsWithTools(turns, [System("You are a helpful assistant.")] + messages, tools)
  {
    hide Read, Prompt, TurnOf, Turns, SaysAs, ToolSystemPrompt;
    var all := WithSystem(messages, tools);
    UniqueReadability(messages, tools);
    TurnsByIndex(all, tools);
    forall i | 0 <= i < |all|
      ensures var turn := Turns(all, tools)[i];
              if all[i].System?
              then RoleName(turn.role) == "system" && turn.text == all[i].text + ToolSystemPrompt(tools)
              else SaysAs(all[i], RoleName(turn.role), turn.text)
    {
      TurnSaysWithTools(all[i], tools);
    }
  }

  // ---------------------------------------------------------------- the printed texts

  // What stands in front of the text of a role.
  function ChatmlHeader(role: Role): string {
    match role
    case SystemRole => "<|im_start|>system\n"
    case UserRole => "<|im_start|>user\n"
    case AssistantRole => "<|im_start|>assistant\n"
    case ToolRole => "<|im_start|>tool\n"
  }

  function Llama3Header(role: Role): string {
    match role
    case SystemRole => "<|start_header_id|>system" + "<|end_header_id|>\n\n"
    case UserRole => "<|start_header_id|>user" + "<|end_header_id|>\n\n"
    case AssistantRole => "<|start_header_id|>assistant" + "<|end_header_id|>\n\n"
    case ToolRole => "<|start_header_id|>tool" + "<|end_header_id|>\n\n"
  }

  lemma Headers(role: Role)
    ensures CHATML.open + RoleName(role) + CHATML.mid == ChatmlHeader(role)
    ensures LLAMA3.open + RoleName(role) + LLAMA3.mid == Llama3Header(role)
  {
    ChatmlHeaders(role);
    Llama3Headers(role);
  }

  lemma ChatmlHeaders(role: Role)
    ensures CHATML.open + RoleName(role) + CHATML.mid == ChatmlHeader(role)
  {
    match role
    case SystemRole =>
    case UserRole =>
    case AssistantRole =>
    case ToolRole =>
  }

  lemma Llama3Headers(role: Role)
    ensures LLAMA3.open + RoleName(role) + LLAMA3.mid == Llama3Header(role)
  {
    match role
    case SystemRole => assert "<|start_header_id|>" + "system" == "<|start_header_id|>system";
    case UserRole => assert "<|start_header_id|>" + "user" == "<|start_header_id|>user";
    case AssistantRole => assert "<|start_header_id|>" + "assistant" == "<|start_header_id|>assistant";
    case ToolRole => assert "<|start_header_id|>" + "tool" == "<|start_header_id|>tool";
  }

  lemma Framed(f: Frame, turn: Turn)
    ensures PrintTurn(f, turn) == (f.open + RoleName(turn.role) + f.mid) + turn.text + (f.end + f.gap)
  {
    hide RoleName;
  }

  // Role and text of one message.
  function SpokenBy(m: ChatMessage): Role {
    match m
    case System(_) => SystemRole
    case User(_) => UserRole
    case Assistant(_) => AssistantRole
    case ToolResult(_) => ToolRole
  }

  function Spoken(m: ChatMessage, tools: seq<ToolDefinition>): string {
    match m
    case System(s) => s + ToolSystemPrompt(tools)
    case User(parts) => Lines(Texts(parts))
    case Assistant(None) => ""
    case Assistant(Some(content)) => content
    case ToolResult(output) => output
  }

  lemma TurnIsSpoken(m: ChatMessage, tools: seq<ToolDefinition>)
    ensures TurnOf(m, tools) == Turn(SpokenBy(m), Spoken(m, tools))
  {
    if m.User? {
      LinesAreJoined(Texts(m.parts));
    }
  }

  // The messages one behind the other, each with its header and end marker.
  function ChatmlText(messages: seq<ChatMessage>, tools: seq<ToolDefinition>): string {
    if messages == [] then ""
    else
      ChatmlHeader(SpokenBy(messages[0])) + Spoken(messages[0], tools) + "<|im_end|>\n"
      + ChatmlText(messages[1..], tools)
  }

  function Llama3Text(messages: seq<ChatMessage>, tools: seq<ToolDefinition>): string {
    if messages == [] then ""
    else
      Llama3Header(SpokenBy(messages[0])) + Spoken(messages[0], tools) + "<|eot_id|>"
      + Llama3Text(messages[1..], tools)
  }

  lemma {:induction false} TurnTexts(messages: seq<ChatMessage>, tools: seq<ToolDefinition>)
    ensures PrintTurns(CHATML, Turns(messages, tools)) == ChatmlText(messages, tools)
    ensures PrintTurns(LLAMA3, Turns(messages, tools)) == Llama3Text(messages, tools)
  {
    hide PrintTurn, TurnOf, Spoken, ChatmlHeader, Llama3Header, SpokenBy;
    if messages != [] {
      var m, turns := messages[0], Turns(messages, tools);
      assert turns[1..] == Turns(messages[1..], tools);
      TurnIsSpoken(m, tools);
      Headers(SpokenBy(m));
      Framed(CHATML, turns[0]);
      Framed(LLAMA3, turns[0]);
      assert CHATML.end + CHATML.gap == "<|im_end|>\n" && LLAMA3.end + LLAMA3.gap == "<|eot_id|>";
      TurnTexts(messages[1..], tools);
    }
  }

  // The whole prompts, ending in the header of the answer.
  lemma PromptTexts(messages: seq<ChatMessage>, tools: seq<ToolDefinition>)
    ensures Prompt(CHATML, Turns(messages, tools)) == ChatmlText(messages, tools) + "<|im_start|>assistant\n"
    ensures Prompt(LLAMA3, Turns(messages, tools))
            == "<|begin_of_text|>" + Llama3Text(messages, tools)
               + ("<|start_header_id|>assistant" + "<|end_header_id|>\n\n")
  {
    hide PrintTurns, Turns, ChatmlText, Llama3Text;
    TurnTexts(messages, tools);
    Headers(AssistantRole);
    assert "" + ChatmlText(messages, tools) == ChatmlText(messages, tools);
  }

  // What the two printers print: these texts, with the default system message in front if there are tools
  // and no system message.
  lemma RenderedTexts(messages: seq<ChatMessage>, tools: seq<ToolDefinition>)
    ensures var turns := Turns(WithSystem(messages, tools), tools);
            var all := if tools != [] && forall i :: 0 <= i < |messages| ==> !messages[i].System?
                       then [System("You are a helpful assistant.")] + messages else messages;
            && Prompt(CHATML, turns) == ChatmlText(all, tools) + "<|im_start|>assistant\n"
            && Prompt(LLAMA3, turns)
               == "<|begin_of_text|>" + Llama3Text(all, tools)
                  + ("<|start_header_id|>assistant" + "<|end_header_id|>\n\n")
  {
    hide Prompt, Turns, ChatmlText, Llama3Text;
    PromptTexts(WithSystem(messages, tools), tools);
  }

  // The description of tools: a line for each between an introduction and the instruction for their use.
  lemma ToolText(tools: seq<ToolDefinition>, lines: seq<string>)
    requires tools != [] && |lines| == |tools|
    requires forall i :: 0 <= i < |tools| ==>
               lines[i]
               == "- " + tools[i].name + ": " + tools[i].description + " (params: " + tools[i].inputSchema + ")"
    ensures ToolSystemPrompt(tools)
            == "\n\nYou have access to the following tools:\n" + Lines(lines)
               + ("\nTo use a tool, respond with a JSON object: " + "{\"tool\": \"<name>\", \"arguments\": {...}}")
  {
    hide Describe, Lines, Join;
    DescribedLines(tools, lines);
    LinesAreJoined(lines);
  }

  lemma {:induction false} DescribedLines(tools: seq<ToolDefinition>, lines: seq<string>)
    requires |lines| == |tools|
    requires forall i :: 0 <= i < |tools| ==>
               lines[i]
               == "- " + tools[i].name + ": " + tools[i].description + " (params: " + tools[i].inputSchema + ")"
    ensures Describe(tools) == lines
  {
    if tools != [] {
      DescribedLines(tools[1..], lines[1..]);
      assert lines == [lines[0]] + lines[1..];
    }
  }
}
