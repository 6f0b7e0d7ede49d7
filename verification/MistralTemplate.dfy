// render_mistral of crates/hivebear-inference/src/chat_template.rs: system text has no turn of its
// own, it is folded into the first user turn.
module MistralTemplate {
  import opened Wrappers
  import opened Text
  import opened ChatTemplate
  import opened ChatConversations

  function Instruct(text: string): string {
    "[INST] " + text + " [/INST]"
  }

  function UserText(m: ChatMessage): string
    requires m.User?
  {
    Join(Texts(m.parts), "\n")
  }

  // One message printed on its own; a system message prints nothing.
  function Piece(m: ChatMessage): string {
    match m
    case System(_) => ""
    case User(_) => Instruct(UserText(m))
    case Assistant(content) => " " + (if content.Some? then content.value else "") + "</s>"
    case ToolResult(output) => Instruct("[Tool result: " + output + "]")
  }

  function Pieces(messages: seq<ChatMessage>): string {
    if messages == [] then "" else Piece(messages[0]) + Pieces(messages[1..])
  }

  function FirstSystem(messages: seq<ChatMessage>, tools: seq<ToolDefinition>): Option<string> {
    if messages == [] then None
    else if messages[0].System? then Some(messages[0].text + ToolSystemPrompt(tools))
    else FirstSystem(messages[1..], tools)
  }

  // ---------------------------------------------------------------- folding the system text

  function DropSystem(messages: seq<ChatMessage>): seq<ChatMessage> {
    if messages == [] then []
    else (if messages[0].System? then [] else [messages[0]]) + DropSystem(messages[1..])
  }

  // The first user message with the system text in front of its own.
  function PrefixFirstUser(messages: seq<ChatMessage>, system: Option<string>): seq<ChatMessage> {
    if messages == [] || system.None? then messages
    else if messages[0].User? then
      [User([TextPart(system.value + "\n\n" + UserText(messages[0]))])] + messages[1..]
    else [messages[0]] + PrefixFirstUser(messages[1..], system)
  }

  function FoldSystem(messages: seq<ChatMessage>, tools: seq<ToolDefinition>): seq<ChatMessage> {
    PrefixFirstUser(DropSystem(messages), FirstSystem(messages, tools))
  }

  lemma PiecesOfCons(m: ChatMessage, rest: seq<ChatMessage>)
    ensures Pieces([m] + rest) == Piece(m) + Pieces(rest)
  {
    assert ([m] + rest)[1..] == rest;
  }

  // What is still to be printed, given whether a user message has been seen.
  function Remaining(messages: seq<ChatMessage>, system: Option<string>, firstUser: bool): string {
    Pieces(if firstUser then PrefixFirstUser(DropSystem(messages), system) else DropSystem(messages))
  }

  lemma PrefixedUser(text: string)
    ensures UserText(User([TextPart(text)])) == text
  {
    assert Texts([TextPart(text)]) == [text] + Texts([TextPart(text)][1..]);
  }

  lemma RemainingStep(messages: seq<ChatMessage>, system: Option<string>, firstUser: bool)
    requires messages != []
    ensures var m := messages[0];
            Remaining(messages, system, firstUser)
            == (if m.User? && firstUser && system.Some? then Instruct(system.value + "\n\n" + UserText(m))
                else Piece(m))
               + Remaining(messages[1..], system, firstUser && !m.User?)
  {
    var m, rest := messages[0], DropSystem(messages[1..]);
    if m.System? {
      assert [] + rest == rest;
      assert "" + Remaining(messages[1..], system, firstUser) == Remaining(messages[1..], system, firstUser);
    } else {
      var all := [m] + rest;
      assert all[1..] == rest;
      PiecesOfCons(m, rest);
      if firstUser && system.Some? {
        if m.User? {
          var text := system.value + "\n\n" + UserText(m);
          PrefixedUser(text);
          PiecesOfCons(User([TextPart(text)]), rest);
        } else {
          PiecesOfCons(m, PrefixFirstUser(rest, system));
        }
      }
    }
  }

  lemma RemainingEnds(messages: seq<ChatMessage>, tools: seq<ToolDefinition>)
    ensures Remaining(messages, FirstSystem(messages, tools), true) == Pieces(FoldSystem(messages, tools))
    ensures forall system, firstUser :: Remaining([], system, firstUser) == ""
  {
  }

  // The loop prints the folded conversation, message by message.
  method RenderMistral(messages: seq<ChatMessage>, tools: seq<ToolDefinition>) returns (prompt: string)
    ensures prompt == MistralPrompt(messages, tools)
  {
    hide Remaining, Instruct, UserText, Pieces, FoldSystem, FirstSystem;
    var system := FirstSystem(messages, tools);
    RemainingEnds(messages, tools);
    prompt := "<s>";
    var firstUser := true;
    var i := 0;
    assert messages[0..] == messages;
    while i < |messages|
      invariant i <= |messages|
      invariant "<s>" + Remaining(messages, system, true) == prompt + Remaining(messages[i..], system, firstUser)
    {
      var m := messages[i];
      assert messages[i..][0] == m && messages[i..][1..] == messages[i + 1..];
      RemainingStep(messages[i..], system, firstUser);
      var piece := Piece(m);
      match m {
        case System(_) =>
        case User(_) =>
          if firstUser {
            if system.Some? {
              piece := Instruct(system.value + "\n\n" + UserText(m));
            }
          }
        case Assistant(_) =>
        case ToolResult(_) =>
      }
      Assoc(prompt, piece, Remaining(messages[i + 1..], system, firstUser && !m.User?));
      prompt := prompt + piece;
      firstUser := firstUser && !m.User?;
      i := i + 1;
    }
    assert messages[i..] == [] && prompt + "" == prompt;
  }

  // ---------------------------------------------------------------- what is printed of system and tools

  function MistralPrompt(messages: seq<ChatMessage>, tools: seq<ToolDefinition>): string {
    "<s>" + Pieces(FoldSystem(messages, tools))
  }

  predicate HasUser(messages: seq<ChatMessage>) {
    exists i :: 0 <= i < |messages| && messages[i].User?
  }

  lemma HasSystemStep(messages: seq<ChatMessage>)
    requires messages != []
    ensures HasSystem(messages) <==> messages[0].System? || HasSystem(messages[1..])
    ensures HasUser(messages) <==> messages[0].User? || HasUser(messages[1..])
  {
    var rest := messages[1..];
    if HasSystem(messages) && !messages[0].System? {
      var i :| 0 <= i < |messages| && messages[i].System?;
      assert rest[i - 1].System?;
    }
    if HasUser(messages) && !messages[0].User? {
      var i :| 0 <= i < |messages| && messages[i].User?;
      assert rest[i - 1].User?;
    }
    assert forall i :: 0 <= i < |rest| ==> rest[i] == messages[i + 1];
  }

  function FirstSystemText(messages: seq<ChatMessage>): string {
    if messages == [] then "" else if messages[0].System? then messages[0].text else FirstSystemText(messages[1..])
  }

  // There is a system text exactly when there is a system message, whatever the tools.
  lemma {:induction false} SystemTextIff(messages: seq<ChatMessage>, tools: seq<ToolDefinition>)
    ensures FirstSystem(messages, tools)
            == if HasSystem(messages) then Some(FirstSystemText(messages) + ToolSystemPrompt(tools)) else None
  {
    if messages != [] {
      HasSystemStep(messages);
      SystemTextIff(messages[1..], tools);
    }
  }

  // Dropping system messages keeps the user messages.
  lemma {:induction false} DropSystemKeepsUsers(messages: seq<ChatMessage>)
    ensures HasUser(DropSystem(messages)) <==> HasUser(messages)
    ensures !HasSystem(DropSystem(messages)) && DropSystem(DropSystem(messages)) == DropSystem(messages)
  {
    if messages != [] {
      var m, rest := messages[0], DropSystem(messages[1..]);
      DropSystemKeepsUsers(messages[1..]);
      HasSystemStep(messages);
      if m.System? {
        assert [] + rest == rest;
      } else {
        HasSystemStep([m] + rest);
        assert ([m] + rest)[1..] == rest;
      }
    }
  }

  // Folding a system text in adds exactly that text and a blank line, and only if there is a user.
  lemma {:induction false} FoldAdds(messages: seq<ChatMessage>, system: Option<string>)
    ensures |Pieces(PrefixFirstUser(messages, system))|
            == |Pieces(messages)| + if system.Some? && HasUser(messages) then |system.value| + 2 else 0
    ensures system.None? || !HasUser(messages) ==> PrefixFirstUser(messages, system) == messages
  {
    if messages != [] && system.Some? {
      var m, rest := messages[0], messages[1..];
      HasSystemStep(messages);
      assert messages == [m] + rest;
      PiecesOfCons(m, rest);
      if m.User? {
        var text := system.value + "\n\n" + UserText(m);
        PrefixedUser(text);
        PiecesOfCons(User([TextPart(text)]), rest);
      } else {
        FoldAdds(rest, system);
        PiecesOfCons(m, PrefixFirstUser(rest, system));
      }
    }
  }

  lemma PromptLength(messages: seq<ChatMessage>, tools: seq<ToolDefinition>)
    ensures |MistralPrompt(messages, tools)|
            == 3 + |Pieces(DropSystem(messages))|
               + if HasSystem(messages) && HasUser(messages)
                 then |FirstSystemText(messages)| + |ToolSystemPrompt(tools)| + 2 else 0
    ensures !(HasSystem(messages) && HasUser(messages)) ==>
              MistralPrompt(messages, tools) == "<s>" + Pieces(DropSystem(messages))
  {
    hide HasSystem, HasUser, DropSystem, ToolSystemPrompt, FirstSystem, FirstSystemText;
    SystemTextIff(messages, tools);
    DropSystemKeepsUsers(messages);
    FoldAdds(DropSystem(messages), FirstSystem(messages, tools));
  }

  lemma ToolPromptIsEmptyIff(tools: seq<ToolDefinition>)
    ensures ToolSystemPrompt(tools) == "" <==> tools == []
  {
  }

  // The system text leaves no trace in the prompt exactly when there is no system message or no user
  // message to fold it into.
  lemma SystemIsLostIff(messages: seq<ChatMessage>, tools: seq<ToolDefinition>)
    ensures MistralPrompt(messages, tools) == MistralPrompt(DropSystem(messages), [])
            <==> !(HasSystem(messages) && HasUser(messages))
  {
    hide HasSystem, HasUser, DropSystem, ToolSystemPrompt, FirstSystemText, MistralPrompt, Pieces;
    DropSystemKeepsUsers(messages);
    PromptLength(messages, tools);
    PromptLength(DropSystem(messages), []);
  }

  // The tools make no difference exactly when there are none, no system message or no user message.
  lemma ToolsAreLostIff(messages: seq<ChatMessage>, tools: seq<ToolDefinition>)
    ensures MistralPrompt(messages, tools) == MistralPrompt(messages, [])
            <==> tools == [] || !(HasSystem(messages) && HasUser(messages))
  {
    hide HasSystem, HasUser, DropSystem, ToolSystemPrompt, FirstSystemText, MistralPrompt, Pieces;
    ToolPromptIsEmptyIff(tools);
    ToolPromptIsEmptyIff([]);
    PromptLength(messages, tools);
    PromptLength(messages, []);
  }

  // The messages up to and with the first system message, and of the others all but system messages.
  function OnlyFirstSystem(messages: seq<ChatMessage>): seq<ChatMessage> {
    if messages == [] then []
    else if messages[0].System? then [messages[0]] + DropSystem(messages[1..])
    else [messages[0]] + OnlyFirstSystem(messages[1..])
  }

  // No system message after the first is ever printed.
  lemma LaterSystemsAreLost(messages: seq<ChatMessage>, tools: seq<ToolDefinition>)
    ensures MistralPrompt(messages, tools) == MistralPrompt(OnlyFirstSystem(messages), tools)
  {
    FirstSystemIsEnough(messages, tools);
  }

  lemma {:induction false} FirstSystemIsEnough(messages: seq<ChatMessage>, tools: seq<ToolDefinition>)
    ensures FirstSystem(OnlyFirstSystem(messages), tools) == FirstSystem(messages, tools)
    ensures DropSystem(OnlyFirstSystem(messages)) == DropSystem(messages)
  {
    if messages != [] {
      var m := messages[0];
      if m.System? {
        var rest := DropSystem(messages[1..]);
        DropSystemKeepsUsers(messages[1..]);
        assert ([m] + rest)[1..] == rest && [] + rest == rest;
      } else {
        var rest := OnlyFirstSystem(messages[1..]);
        FirstSystemIsEnough(messages[1..], tools);
        assert ([m] + rest)[1..] == rest;
      }
    }
  }

  // When there are both, the first system text and the tools stand in front of the first user's own
  // text, and everything else is printed piece by piece.
  lemma SystemGoesToFirstUser(messages: seq<ChatMessage>, tools: seq<ToolDefinition>, i: nat)
    requires HasSystem(messages) && i < |messages| && messages[i].User? && !HasUser(messages[..i])
    ensures var text := FirstSystemText(messages) + ToolSystemPrompt(tools);
            MistralPrompt(messages, tools)
            == "<s>" + (Pieces(DropSystem(messages[..i]))
                        + (Instruct(text + "\n\n" + UserText(messages[i])) + Pieces(DropSystem(messages[i + 1..]))))
  {
    SystemTextIff(messages, tools);
    FoldAtFirstUser(messages, FirstSystemText(messages) + ToolSystemPrompt(tools), i);
  }

  lemma {:induction false} FoldAtFirstUser(messages: seq<ChatMessage>, text: string, i: nat)
    requires i < |messages| && messages[i].User? && !HasUser(messages[..i])
    ensures Pieces(PrefixFirstUser(DropSystem(messages), Some(text)))
            == Pieces(DropSystem(messages[..i]))
               + (Instruct(text + "\n\n" + UserText(messages[i])) + Pieces(DropSystem(messages[i + 1..])))
  {
    hide UserText, Instruct, Piece;
    var m, rest := messages[0], DropSystem(messages[1..]);
    if i == 0 {
      var all := [m] + rest;
      assert all[1..] == rest;
      PrefixedUser(text + "\n\n" + UserText(m));
      TextPiece(text + "\n\n" + UserText(m));
      PiecesOfCons(User([TextPart(text + "\n\n" + UserText(m))]), rest);
      assert messages[..0] == [];
    } else {
      var front := messages[..i];
      HasSystemStep(front);
      assert front[0] == m && front[1..] == messages[1..][..i - 1];
      assert messages[1..][i - 1] == messages[i] && messages[1..][i - 1 + 1..] == messages[i + 1..];
      FoldAtFirstUser(messages[1..], text, i - 1);
      if m.System? {
        assert [] + rest == rest && [] + DropSystem(front[1..]) == DropSystem(front[1..]);
      } else {
        assert ([m] + rest)[1..] == rest;
        PiecesOfCons(m, PrefixFirstUser(rest, Some(text)));
        PiecesOfCons(m, DropSystem(front[1..]));
        Assoc(Piece(m), Pieces(DropSystem(front[1..])),
              Instruct(text + "\n\n" + UserText(messages[i])) + Pieces(DropSystem(messages[i + 1..])));
      }
    }
  }

  lemma TextPiece(text: string)
    ensures Piece(User([TextPart(text)])) == Instruct(text)
  {
    PrefixedUser(text);
  }

  lemma SystemAlone(text: string, tools: seq<ToolDefinition>)
    ensures MistralPrompt([System(text)], tools) == "<s>"
  {
    var system := [System(text)];
    PromptLength(system, tools);
    assert system[1..] == [];
    assert DropSystem(system) == [];
  }

  // With tools and a user message but no system message the tools are not printed.
  lemma ToolsWithoutSystem(hello: string, tools: seq<ToolDefinition>)
    ensures MistralPrompt([User([TextPart(hello)])], tools) == MistralPrompt([User([TextPart(hello)])], [])
  {
    ToolsAreLostIff([User([TextPart(hello)])], tools);
  }

  lemma SecondSystem(text: string, later: string, hello: string, tools: seq<ToolDefinition>)
    ensures var user := User([TextPart(hello)]);
            MistralPrompt([System(text), System(later), user], tools) == MistralPrompt([System(text), user], tools)
  {
    hide MistralPrompt;
    var user := User([TextPart(hello)]);
    var three := [System(text), System(later), user];
    LaterSystemsAreLost(three, tools);
    var tail := three[1..];
    assert tail == [System(later), user] && tail[1..] == [user] && [user][1..] == [];
    assert DropSystem([user]) == [user];
    assert OnlyFirstSystem(three) == [System(text)] + [user];
    assert [System(text)] + [user] == [System(text), user];
  }

  // ---------------------------------------------------------------- the printed text

  // The text of the first system message with the tools behind it.
  function SystemText(messages: seq<ChatMessage>, tools: seq<ToolDefinition>): Option<string> {
    if messages == [] then None
    else match messages[0]
      case System(text) => Some(text + ToolSystemPrompt(tools))
      case _ => SystemText(messages[1..], tools)
  }

  // Message by message, with the system text in front of the first user's text.
  function MistralText(messages: seq<ChatMessage>, system: Option<string>): string {
    if messages == [] then ""
    else match messages[0]
      case System(_) => MistralText(messages[1..], system)
      case User(parts) =>
        "[INST] " + (if system.Some? then system.value + "\n\n" else "") + Lines(Texts(parts)) + " [/INST]"
        + MistralText(messages[1..], None)
      case Assistant(content) =>
        " " + (if content.Some? then content.value else "") + "</s>" + MistralText(messages[1..], system)
      case ToolResult(output) =>
        "[INST] " + "[Tool result: " + output + "]" + " [/INST]" + MistralText(messages[1..], system)
  }

  lemma {:induction false} RemainingText(messages: seq<ChatMessage>, system: Option<string>, firstUser: bool)
    ensures Remaining(messages, system, firstUser) == MistralText(messages, if firstUser then system else None)
  {
    hide Remaining, Texts, Join;
    if messages == [] {
      NothingRemains(system, firstUser);
    } else {
      var m := messages[0];
      RemainingStep(messages, system, firstUser);
      RemainingText(messages[1..], system, firstUser && !m.User?);
      PieceText(m, MistralText(messages[1..], if firstUser && !m.User? then system else None));
      if m.User? {
        LinesAreJoined(Texts(m.parts));
        var text, rest := Lines(Texts(m.parts)), MistralText(messages[1..], None);
        if firstUser && system.Some? {
          Assoc("[INST] ", system.value + "\n\n", text);
        } else {
          assert "[INST] " + "" == "[INST] ";
        }
      }
    }
  }

  lemma NothingRemains(system: Option<string>, firstUser: bool)
    ensures Remaining([], system, firstUser) == ""
  {
  }

  lemma PieceText(m: ChatMessage, rest: string)
    ensures m.System? ==> Piece(m) + rest == rest
    ensures m.ToolResult? ==> Piece(m) + rest == "[INST] " + "[Tool result: " + m.output + "]" + " [/INST]" + rest
    ensures m.Assistant? ==>
              Piece(m) + rest == " " + (if m.content.Some? then m.content.value else "") + "</s>" + rest
  {
    if m.ToolResult? {
      Assoc("[INST] ", "[Tool result: " + m.output, "]");
      Assoc("[INST] ", "[Tool result: ", m.output);
    }
  }

  // The whole prompt, written out.
  lemma PromptText(messages: seq<ChatMessage>, tools: seq<ToolDefinition>)
    ensures MistralPrompt(messages, tools) == "<s>" + MistralText(messages, SystemText(messages, tools))
  {
    hide Remaining, MistralText, FoldSystem, Pieces;
    RemainingEnds(messages, tools);
    RemainingText(messages, FirstSystem(messages, tools), true);
    SameSystem(messages, tools);
  }

  lemma {:induction false} SameSystem(messages: seq<ChatMessage>, tools: seq<ToolDefinition>)
    ensures FirstSystem(messages, tools) == SystemText(messages, tools)
  {
    if messages != [] {
      SameSystem(messages[1..], tools);
    }
  }
}
