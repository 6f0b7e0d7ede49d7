// The chat log of crates/hivebear-persistence/src/db.rs: two tables behind one connection.
module ChatDatabases {
  import opened Wrappers
  import opened Ordering

  datatype ConversationRow = ConversationRow(id: string, title: string, modelId: string, createdAt: int, updatedAt: int)

  datatype MessageRow = MessageRow(
    id: string,
    conversationId: string,
    role: string,
    content: string,
    toolCallJson: Option<string>,
    createdAt: int,
    sequenceNum: int)

  datatype Tables = Tables(conversations: seq<ConversationRow>, messages: seq<MessageRow>)

  datatype DbError = ConstraintViolation | NotFound(id: string)

  // ---------------------------------------------------------------- queries

  function ConversationIds(rows: seq<ConversationRow>): set<string> {
    set i | 0 <= i < |rows| :: rows[i].id
  }

  function MessageIds(rows: seq<MessageRow>): set<string> {
    set i | 0 <= i < |rows| :: rows[i].id
  }

  // WHERE conversation_id = ?
  function Of(rows: seq<MessageRow>, conversation: string): seq<MessageRow> {
    if rows == [] then []
    else
      var last := rows[|rows| - 1];
      Of(rows[..|rows| - 1], conversation) + if last.conversationId == conversation then [last] else []
  }

  // COALESCE(MAX(sequence_num), 0)
  function MaxSequence(rows: seq<MessageRow>): int {
    if rows == [] then 0
    else
      var m := MaxSequence(rows[..|rows| - 1]);
      var last := rows[|rows| - 1].sequenceNum;
      if |rows| == 1 || last > m then last else m
  }

  function SequenceKey(row: MessageRow): int {
    -row.sequenceNum
  }

  // WHERE conversation_id = ? ORDER BY sequence_num ASC: the stored rows of that conversation and no
  // others, each as often as it is stored, by rising number. SQL promises no more.
  ghost predicate IsMessageList(stored: seq<MessageRow>, conversation: string, rows: seq<MessageRow>) {
    && (forall i, j :: 0 <= i < j < |rows| ==> rows[i].sequenceNum <= rows[j].sequenceNum)
    && (forall row :: multiset(rows)[row] == if row.conversationId == conversation then multiset(stored)[row] else 0)
  }

  // One line of the conversation list: the row and the COUNT(*) beside it.
  datatype Summary = Summary(id: string, title: string, modelId: string, createdAt: int, updatedAt: int,
                             messageCount: nat)

  function SummaryOfRow(c: ConversationRow, messages: seq<MessageRow>): Summary {
    Summary(c.id, c.title, c.modelId, c.createdAt, c.updatedAt, |Of(messages, c.id)|)
  }

  function Summarize(t: Tables): seq<Summary> {
    seq(|t.conversations|, i requires 0 <= i < |t.conversations| => SummaryOfRow(t.conversations[i], t.messages))
  }

  function UpdateKey(row: Summary): int {
    row.updatedAt
  }

  // ORDER BY c.updated_at DESC: one line for each stored conversation, latest update first.
  ghost predicate IsConversationList(t: Tables, rows: seq<Summary>) {
    && (forall i, j :: 0 <= i < j < |rows| ==> rows[i].updatedAt >= rows[j].updatedAt)
    && multiset(rows) == multiset(Summarize(t))
  }

  // ---------------------------------------------------------------- statements

  // UPDATE ... SET updated_at WHERE id = ?
  function Touch(rows: seq<ConversationRow>, id: string, now: int): (r: seq<ConversationRow>)
    ensures |r| == |rows| && forall i :: 0 <= i < |rows| ==> r[i].id == rows[i].id
  {
    seq(|rows|, i requires 0 <= i < |rows| => if rows[i].id == id then rows[i].(updatedAt := now) else rows[i])
  }

  // DELETE FROM conversations WHERE id = ?
  function WithoutConversation(rows: seq<ConversationRow>, id: string): seq<ConversationRow> {
    if rows == [] then []
    else
      var last := rows[|rows| - 1];
      WithoutConversation(rows[..|rows| - 1], id) + if last.id == id then [] else [last]
  }

  // ON DELETE CASCADE
  function WithoutMessages(rows: seq<MessageRow>, conversation: string): seq<MessageRow> {
    if rows == [] then []
    else
      var last := rows[|rows| - 1];
      WithoutMessages(rows[..|rows| - 1], conversation) + if last.conversationId == conversation then [] else [last]
  }

  // ---------------------------------------------------------------- operations

  datatype Op = Create(id: string, title: string, modelId: string)
              | Add(messageId: string, conversation: string, role: string, content: string,
                    toolCallJson: Option<string>)
              | Delete(target: string)

  function Failure(t: Tables, op: Op): Option<DbError> {
    match op
    case Create(id, _, _) => if id in ConversationIds(t.conversations) then Some(ConstraintViolation) else None
    case Add(messageId, conversation, _, _, _) =>
      if messageId in MessageIds(t.messages) || conversation !in ConversationIds(t.conversations)
      then Some(ConstraintViolation) else None
    case Delete(target) => if target in ConversationIds(t.conversations) then None else Some(NotFound(target))
  }

  function NewRow(t: Tables, op: Op, now: int): MessageRow
    requires op.Add?
  {
    MessageRow(op.messageId, op.conversation, op.role, op.content, op.toolCallJson, now,
               MaxSequence(Of(t.messages, op.conversation)) + 1)
  }

  function Step(t: Tables, op: Op, now: int): Tables {
    if Failure(t, op).Some? then t
    else match op
      case Create(id, title, modelId) =>
        t.(conversations := t.conversations + [ConversationRow(id, title, modelId, now, now)])
      case Add(_, conversation, _, _, _) =>
        Tables(Touch(t.conversations, conversation, now), t.messages + [NewRow(t, op, now)])
      case Delete(target) =>
        Tables(WithoutConversation(t.conversations, target), WithoutMessages(t.messages, target))
  }

  // ---------------------------------------------------------------- the database

  class ChatDatabase {
    var conversations: seq<ConversationRow>
    var messages: seq<MessageRow>

    ghost function Abs(): Tables
      reads this
    {
      Tables(conversations, messages)
    }

    constructor ()
      ensures Abs() == Tables([], [])
    {
      conversations, messages := [], [];
    }

    method CreateConversation(id: string, title: string, modelId: string, now: int)
      returns (r: Result<ConversationRow, DbError>)
      modifies this`conversations
      ensures var op := Create(id, title, modelId);
              && Abs() == Step(old(Abs()), op, now)
              && (r.Err? <==> Failure(old(Abs()), op).Some?)
              && (r.Ok? ==> r.value == ConversationRow(id, title, modelId, now, now))
    {
      if id in ConversationIds(conversations) {
        return Err(ConstraintViolation);
      }
      var row := ConversationRow(id, title, modelId, now, now);
      conversations := conversations + [row];
      return Ok(row);
    }

    // Three statements: next number, insert (rejected by the primary or the foreign key), update.
    method AddMessage(messageId: string, conversation: string, role: string, content: string,
                      toolCallJson: Option<string>, now: int)
      returns (r: Result<MessageRow, DbError>)
      modifies this`conversations, this`messages
      ensures var op := Add(messageId, conversation, role, content, toolCallJson);
              && Abs() == Step(old(Abs()), op, now)
              && (r.Err? <==> Failure(old(Abs()), op).Some?)
              && (r.Ok? ==> r.value == NewRow(old(Abs()), op, now))
    {
      var next := MaxSequence(Of(messages, conversation)) + 1;
      if messageId in MessageIds(messages) || conversation !in ConversationIds(conversations) {
        return Err(ConstraintViolation);
      }
      var row := MessageRow(messageId, conversation, role, content, toolCallJson, now, next);
      messages := messages + [row];
      conversations := Touch(conversations, conversation, now);
      return Ok(row);
    }

    method GetMessages(conversation: string) returns (rows: seq<MessageRow>)
      ensures IsMessageList(messages, conversation, rows)
    {
      rows := [];
      for i := 0 to |messages|
        invariant IsMessageList(messages[..i], conversation, rows)
      {
        var row := messages[i];
        assert messages[..i + 1] == messages[..i] + [row];
        if row.conversationId == conversation {
          InsertKeepsOrder(rows, row, SequenceKey);
          InsertKeepsAll(rows, row, SequenceKey);
          rows := Insert(rows, row, SequenceKey);
        }
      }
      assert messages[..|messages|] == messages;
    }

    method ListConversations() returns (rows: seq<Summary>)
      ensures IsConversationList(Abs(), rows)
    {
      rows := [];
      for i := 0 to |conversations|
        invariant IsConversationList(Tables(conversations[..i], messages), rows)
      {
        var row := SummaryOfRow(conversations[i], messages);
        assert Summarize(Tables(conversations[..i + 1], messages))
               == Summarize(Tables(conversations[..i], messages)) + [row];
        InsertKeepsOrder(rows, row, UpdateKey);
        InsertKeepsAll(rows, row, UpdateKey);
        rows := Insert(rows, row, UpdateKey);
      }
      assert conversations[..|conversations|] == conversations;
    }

    method DeleteConversation(conversation: string) returns (r: Result<(), DbError>)
      modifies this`conversations, this`messages
      ensures Abs() == Step(old(Abs()), Delete(conversation), 0)
      ensures r == match Failure(old(Abs()), Delete(conversation)) case None => Ok(()) case Some(e) => Err(e)
    {
      if conversation !in ConversationIds(conversations) {
        return Err(NotFound(conversation));
      }
      conversations := WithoutConversation(conversations, conversation);
      messages := WithoutMessages(messages, conversation);
      return Ok(());
    }
  }
}
