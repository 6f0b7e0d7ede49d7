// The two tables refine a map from conversation to the list of its messages.
module ChatDatabaseProofs {
  import opened Wrappers
  import opened Ordering
  import opened ChatDatabases

  // ---------------------------------------------------------------- the simple log

  datatype Entry = Entry(id: string, role: string, content: string, toolCallJson: Option<string>, createdAt: int)

  datatype Chat = Chat(title: string, modelId: string, createdAt: int, updatedAt: int, entries: seq<Entry>)

  type Log = map<string, Chat>

  ghost predicate UsedId(log: Log, messageId: string) {
    exists c, i :: c in log && 0 <= i < |log[c].entries| && log[c].entries[i].id == messageId
  }

  ghost predicate Refused(log: Log, op: Op) {
    match op
    case Create(id, _, _) => id in log
    case Add(messageId, conversation, _, _, _) => conversation !in log || UsedId(log, messageId)
    case Delete(target) => target !in log
  }

  ghost function LogStep(log: Log, op: Op, now: int): Log {
    if Refused(log, op) then log
    else match op
      case Create(id, title, modelId) => log[id := Chat(title, modelId, now, now, [])]
      case Add(messageId, conversation, role, content, toolCallJson) =>
        var entry := Entry(messageId, role, content, toolCallJson, now);
        log[conversation := log[conversation].(updatedAt := now, entries := log[conversation].entries + [entry])]
      case Delete(target) => log - {target}
  }

  // A run is a history of operations, each at some time.
  datatype Event = Event(op: Op, now: int)

  ghost function RunLog(events: seq<Event>): Log {
    if events == [] then map[]
    else var last := events[|events| - 1]; LogStep(RunLog(events[..|events| - 1]), last.op, last.now)
  }

  function RunTables(events: seq<Event>): Tables {
    if events == [] then Tables([], [])
    else var last := events[|events| - 1]; Step(RunTables(events[..|events| - 1]), last.op, last.now)
  }

  // The rows that store a conversation's entries, numbered from 1.
  function Numbered(conversation: string, entries: seq<Entry>): seq<MessageRow> {
    seq(|entries|, i requires 0 <= i < |entries| =>
      var e := entries[i];
      MessageRow(e.id, conversation, e.role, e.content, e.toolCallJson, e.createdAt, i + 1))
  }

  function SummaryOf(id: string, chat: Chat): Summary {
    Summary(id, chat.title, chat.modelId, chat.createdAt, chat.updatedAt, |chat.entries|)
  }

  predicate Stores(row: ConversationRow, chat: Chat) {
    row.title == chat.title && row.modelId == chat.modelId &&
    row.createdAt == chat.createdAt && row.updatedAt == chat.updatedAt
  }

  predicate DistinctIds(rows: seq<ConversationRow>) {
    forall i, j :: 0 <= i < j < |rows| ==> rows[i].id != rows[j].id
  }

  ghost predicate Refines(t: Tables, log: Log) {
    && DistinctIds(t.conversations)
    && ConversationIds(t.conversations) == log.Keys
    && (forall i :: 0 <= i < |t.conversations| ==> Stores(t.conversations[i], log[t.conversations[i].id]))
    && (forall i :: 0 <= i < |t.messages| ==> t.messages[i].conversationId in log)
    && (forall c :: c in log ==> Of(t.messages, c) == Numbered(c, log[c].entries))
  }

  // ---------------------------------------------------------------- queries

  lemma {:induction false} OfMember(rows: seq<MessageRow>, c: string, row: MessageRow)
    ensures row in Of(rows, c) <==> row in rows && row.conversationId == c
  {
    if rows == [] {
    } else {
      OfMember(rows[..|rows| - 1], c, row);
      assert rows == rows[..|rows| - 1] + [rows[|rows| - 1]];
    }
  }

  lemma NoStrangers(rows: seq<MessageRow>, c: string)
    requires forall i :: 0 <= i < |rows| ==> rows[i].conversationId != c
    ensures Of(rows, c) == []
  {
    if Of(rows, c) != [] {
      OfMember(rows, c, Of(rows, c)[0]);
    }
  }

  lemma OfAppended(rows: seq<MessageRow>, row: MessageRow, c: string)
    ensures Of(rows + [row], c) == Of(rows, c) + if row.conversationId == c then [row] else []
  {
    assert (rows + [row])[..|rows|] == rows;
  }

  lemma {:induction false} NumberedMaximum(c: string, entries: seq<Entry>)
    ensures MaxSequence(Numbered(c, entries)) == |entries|
  {
    if entries == [] {
    } else {
      var init := entries[..|entries| - 1];
      NumberedMaximum(c, init);
      assert Numbered(c, entries)[..|entries| - 1] == Numbered(c, init);
    }
  }

  // The largest number of all rows, in whatever order they are stored; 0 when there is none.
  lemma {:induction false} MaximumIs(rows: seq<MessageRow>)
    ensures rows == [] ==> MaxSequence(rows) == 0
    ensures forall i :: 0 <= i < |rows| ==> rows[i].sequenceNum <= MaxSequence(rows)
    ensures rows != [] ==> exists i :: 0 <= i < |rows| && rows[i].sequenceNum == MaxSequence(rows)
  {
    if rows != [] {
      var front, n := rows[..|rows| - 1], |rows| - 1;
      MaximumIs(front);
      assert forall i :: 0 <= i < n ==> front[i] == rows[i];
      if n > 0 && rows[n].sequenceNum <= MaxSequence(front) {
        var i :| 0 <= i < n && front[i].sequenceNum == MaxSequence(front);
        assert rows[i].sequenceNum == MaxSequence(rows);
      } else {
        assert rows[n].sequenceNum == MaxSequence(rows);
      }
    }
  }

  // A message id is taken in the table exactly when it is taken in the log.
  lemma SameUsedIds(t: Tables, log: Log, messageId: string)
    requires Refines(t, log)
    ensures messageId in MessageIds(t.messages) <==> UsedId(log, messageId)
  {
    if messageId in MessageIds(t.messages) {
      var i :| 0 <= i < |t.messages| && t.messages[i].id == messageId;
      var c := t.messages[i].conversationId;
      OfMember(t.messages, c, t.messages[i]);
      var k :| 0 <= k < |Of(t.messages, c)| && Of(t.messages, c)[k] == t.messages[i];
      assert log[c].entries[k].id == messageId;
    }
    if UsedId(log, messageId) {
      var c, i :| c in log && 0 <= i < |log[c].entries| && log[c].entries[i].id == messageId;
      var row := Numbered(c, log[c].entries)[i];
      assert row == Of(t.messages, c)[i];
      OfMember(t.messages, c, row);
    }
  }

  // The statements refuse exactly the operations the log refuses, and a deletion says why.
  lemma SameRefusals(t: Tables, log: Log, op: Op)
    requires Refines(t, log)
    ensures Failure(t, op).Some? <==> Refused(log, op)
    ensures op.Delete? && Failure(t, op).Some? ==> Failure(t, op).value == NotFound(op.target)
  {
    if op.Add? {
      SameUsedIds(t, log, op.messageId);
    }
  }

  // ---------------------------------------------------------------- each statement

  lemma CreatedConversations(t: Tables, log: Log, op: Op, now: int)
    requires Refines(t, log) && op.Create? && !Refused(log, op)
    ensures var rows := t.conversations + [ConversationRow(op.id, op.title, op.modelId, now, now)];
            var log' := LogStep(log, op, now);
            && DistinctIds(rows)
            && ConversationIds(rows) == log'.Keys
            && forall i :: 0 <= i < |rows| ==> Stores(rows[i], log'[rows[i].id])
  {
    hide Of, Numbered;
    var n := |t.conversations|;
    var rows := t.conversations + [ConversationRow(op.id, op.title, op.modelId, now, now)];
    assert forall i :: 0 <= i < n ==> rows[i] == t.conversations[i] && rows[i].id in ConversationIds(t.conversations);
    forall id ensures id in ConversationIds(rows) <==> id in log || id == op.id {
      if id in log {
        var i :| 0 <= i < n && t.conversations[i].id == id;
        assert rows[i].id == id;
      }
      if id == op.id {
        assert rows[n].id == id;
      }
    }
  }

  lemma CreateRefines(t: Tables, log: Log, op: Op, now: int)
    requires Refines(t, log) && op.Create? && !Refused(log, op) && Failure(t, op).None?
    ensures Refines(Step(t, op, now), LogStep(log, op, now))
  {
    hide Of, DistinctIds, ConversationIds, Stores;
    CreatedConversations(t, log, op, now);
    NoStrangers(t.messages, op.id);
    assert Numbered(op.id, []) == [];
  }

  lemma NumberedAppend(c: string, entries: seq<Entry>, e: Entry)
    ensures Numbered(c, entries + [e])
            == Numbered(c, entries)
               + [MessageRow(e.id, c, e.role, e.content, e.toolCallJson, e.createdAt, |entries| + 1)]
  {
  }

  lemma AddedMessages(t: Tables, log: Log, op: Op, now: int, c: string)
    requires Refines(t, log) && op.Add? && !Refused(log, op) && c in log
    ensures Of(t.messages + [NewRow(t, op, now)], c) == Numbered(c, LogStep(log, op, now)[c].entries)
  {
    hide UsedId, MaxSequence, DistinctIds, ConversationIds, Stores, Numbered, Of;
    var c0 := op.conversation;
    NumberedMaximum(c0, log[c0].entries);
    OfAppended(t.messages, NewRow(t, op, now), c);
    NumberedAppend(c0, log[c0].entries, Entry(op.messageId, op.role, op.content, op.toolCallJson, now));
  }

  lemma AddedConversations(t: Tables, log: Log, op: Op, now: int)
    requires Refines(t, log) && op.Add? && !Refused(log, op)
    ensures var rows, log' := Touch(t.conversations, op.conversation, now), LogStep(log, op, now);
            && DistinctIds(rows)
            && ConversationIds(rows) == log'.Keys
            && forall i :: 0 <= i < |rows| ==> Stores(rows[i], log'[rows[i].id])
  {
    hide Of, Numbered, MaxSequence;
    var rows, log' := Touch(t.conversations, op.conversation, now), LogStep(log, op, now);
    assert ConversationIds(rows) == ConversationIds(t.conversations);
    assert log'.Keys == log.Keys;
  }

  lemma AddRefines(t: Tables, log: Log, op: Op, now: int)
    requires Refines(t, log) && op.Add? && !Refused(log, op) && Failure(t, op).None?
    ensures Refines(Step(t, op, now), LogStep(log, op, now))
  {
    hide Of, Numbered, MaxSequence, DistinctIds, Stores, Touch, ConversationIds, UsedId, MessageIds;
    var t', log' := Step(t, op, now), LogStep(log, op, now);
    AddedConversations(t, log, op, now);
    assert log'.Keys == log.Keys;
    forall c | c in log' ensures Of(t'.messages, c) == Numbered(c, log'[c].entries) {
      AddedMessages(t, log, op, now, c);
    }
  }

  lemma {:induction false} CascadeKeepsOthers(rows: seq<MessageRow>, target: string, c: string)
    ensures Of(WithoutMessages(rows, target), c) == if c == target then [] else Of(rows, c)
  {
    if rows == [] {
    } else {
      var init, last := rows[..|rows| - 1], rows[|rows| - 1];
      CascadeKeepsOthers(init, target, c);
      if last.conversationId != target {
        OfAppended(WithoutMessages(init, target), last, c);
      } else {
        assert WithoutMessages(rows, target) == WithoutMessages(init, target);
      }
    }
  }

  lemma {:induction false} CascadeMember(rows: seq<MessageRow>, target: string, row: MessageRow)
    ensures row in WithoutMessages(rows, target) <==> row in rows && row.conversationId != target
  {
    if rows == [] {
    } else {
      CascadeMember(rows[..|rows| - 1], target, row);
      assert rows == rows[..|rows| - 1] + [rows[|rows| - 1]];
    }
  }

  lemma {:induction false} DeletedMember(rows: seq<ConversationRow>, target: string, row: ConversationRow)
    ensures row in WithoutConversation(rows, target) <==> row in rows && row.id != target
  {
    if rows == [] {
    } else {
      DeletedMember(rows[..|rows| - 1], target, row);
      assert rows == rows[..|rows| - 1] + [rows[|rows| - 1]];
    }
  }

  lemma {:induction false} DeletedDistinct(rows: seq<ConversationRow>, target: string)
    requires DistinctIds(rows)
    ensures DistinctIds(WithoutConversation(rows, target))
  {
    if rows == [] {
    } else {
      var init, last := rows[..|rows| - 1], rows[|rows| - 1];
      DeletedDistinct(init, target);
      var kept := WithoutConversation(init, target);
      forall i | 0 <= i < |kept| ensures kept[i].id != last.id {
        DeletedMember(init, target, kept[i]);
      }
    }
  }

  lemma KeptConversation(t: Tables, log: Log, target: string, row: ConversationRow)
    requires Refines(t, log) && row in WithoutConversation(t.conversations, target)
    ensures row.id in log && row.id != target && Stores(row, log[row.id])
  {
    hide DistinctIds, Stores, WithoutConversation, Of, Numbered;
    DeletedMember(t.conversations, target, row);
    var k :| 0 <= k < |t.conversations| && t.conversations[k] == row;
    assert row.id in ConversationIds(t.conversations);
  }

  lemma StillListed(t: Tables, log: Log, target: string, id: string)
    requires Refines(t, log) && id in log && id != target
    ensures id in ConversationIds(WithoutConversation(t.conversations, target))
  {
    hide DistinctIds, Stores, WithoutConversation, Of, Numbered;
    var rows := WithoutConversation(t.conversations, target);
    var k :| 0 <= k < |t.conversations| && t.conversations[k].id == id;
    DeletedMember(t.conversations, target, t.conversations[k]);
    var i :| 0 <= i < |rows| && rows[i] == t.conversations[k];
  }

  lemma DeletedConversations(t: Tables, log: Log, target: string)
    requires Refines(t, log)
    ensures var rows := WithoutConversation(t.conversations, target);
            && ConversationIds(rows) == (log - {target}).Keys
            && forall i :: 0 <= i < |rows| ==> rows[i].id in log && Stores(rows[i], log[rows[i].id])
  {
    hide Stores, WithoutConversation, Refines;
    var rows := WithoutConversation(t.conversations, target);
    forall i | 0 <= i < |rows|
      ensures rows[i].id in log && rows[i].id != target && Stores(rows[i], log[rows[i].id])
    {
      KeptConversation(t, log, target, rows[i]);
    }
    forall id | id in log && id != target ensures id in ConversationIds(rows) {
      StillListed(t, log, target, id);
    }
  }

  lemma DeleteRefines(t: Tables, log: Log, op: Op, now: int)
    requires Refines(t, log) && op.Delete? && !Refused(log, op) && Failure(t, op).None?
    ensures Refines(Step(t, op, now), LogStep(log, op, now))
  {
    var t', log' := Step(t, op, now), LogStep(log, op, now);
    DeletedDistinct(t.conversations, op.target);
    DeletedConversations(t, log, op.target);
    forall i | 0 <= i < |t'.messages| ensures t'.messages[i].conversationId in log' {
      CascadeMember(t.messages, op.target, t'.messages[i]);
      var k :| 0 <= k < |t.messages| && t.messages[k] == t'.messages[i];
    }
    forall c | c in log' ensures Of(t'.messages, c) == Numbered(c, log'[c].entries) {
      CascadeKeepsOthers(t.messages, op.target, c);
    }
  }

  // ---------------------------------------------------------------- whole runs

  lemma {:induction false} RunsRefine(events: seq<Event>)
    ensures Refines(RunTables(events), RunLog(events))
  {
    if events == [] {
    } else {
      var init, last := events[..|events| - 1], events[|events| - 1];
      RunsRefine(init);
      var t, log := RunTables(init), RunLog(init);
      SameRefusals(t, log, last.op);
      if !Refused(log, last.op) {
        match last.op
        case Create(_, _, _) => CreateRefines(t, log, last.op, last.now);
        case Add(_, _, _, _, _) => AddRefines(t, log, last.op, last.now);
        case Delete(_) => DeleteRefines(t, log, last.op, last.now);
      }
    }
  }

  lemma {:induction false} OfCounts(rows: seq<MessageRow>, c: string, row: MessageRow)
    ensures multiset(Of(rows, c))[row] == if row.conversationId == c then multiset(rows)[row] else 0
  {
    if rows == [] {
    } else {
      OfCounts(rows[..|rows| - 1], c, row);
      assert rows == rows[..|rows| - 1] + [rows[|rows| - 1]];
    }
  }

  predicate Rising(rows: seq<MessageRow>) {
    forall i, j :: 0 <= i < j < |rows| ==> rows[i].sequenceNum < rows[j].sequenceNum
  }

  predicate NeverFalling(rows: seq<MessageRow>) {
    forall i, j :: 0 <= i < j < |rows| ==> rows[i].sequenceNum <= rows[j].sequenceNum
  }

  // Rows with rising numbers can be listed by number in one way only.
  lemma {:induction false} OneOrder(a: seq<MessageRow>, b: seq<MessageRow>)
    requires Rising(a) && NeverFalling(b) && multiset(a) == multiset(b)
    ensures a == b
  {
    hide Rising, NeverFalling;
    assert |a| == |multiset(a)| == |multiset(b)| == |b|;
    if a != [] {
      var n := |a| - 1;
      SameLast(a, b);
      Fronts(a, b);
      WithoutLast(a);
      WithoutLast(b);
      OneOrder(a[..n], b[..n]);
      assert a == a[..n] + [a[n]] && b == b[..n] + [b[n]];
    }
  }

  lemma Fronts(a: seq<MessageRow>, b: seq<MessageRow>)
    requires |a| == |b| > 0 && Rising(a) && NeverFalling(b)
    ensures Rising(a[..|a| - 1]) && NeverFalling(b[..|b| - 1])
  {
  }

  lemma WithoutLast(a: seq<MessageRow>)
    requires a != []
    ensures multiset(a[..|a| - 1]) == multiset(a) - multiset{a[|a| - 1]}
  {
    assert a == a[..|a| - 1] + [a[|a| - 1]];
  }

  lemma SameLast(a: seq<MessageRow>, b: seq<MessageRow>)
    requires Rising(a) && NeverFalling(b)
    requires multiset(a) == multiset(b) && |a| == |b| > 0
    ensures a[|a| - 1] == b[|a| - 1]
  {
    var n := |a| - 1;
    assert b[n] in multiset(a) && a[n] in multiset(b);
    var i :| 0 <= i <= n && a[i] == b[n];
    var j :| 0 <= j <= n && b[j] == a[n];
  }

  // Whatever list answers get_messages: it is what was added, in order, numbered 1..n, and nothing for
  // an unknown conversation.
  lemma MessagesReadBackInOrder(events: seq<Event>, c: string, rows: seq<MessageRow>)
    requires IsMessageList(RunTables(events).messages, c, rows)
    ensures var log := RunLog(events);
            rows == if c in log then Numbered(c, log[c].entries) else []
  {
    RunsRefine(events);
    ReadBack(RunTables(events), RunLog(events), c, rows);
  }

  lemma ReadBack(t: Tables, log: Log, c: string, rows: seq<MessageRow>)
    requires Refines(t, log) && IsMessageList(t.messages, c, rows)
    ensures rows == if c in log then Numbered(c, log[c].entries) else []
  {
    hide DistinctIds, ConversationIds, Stores, Of;
    forall row ensures multiset(Of(t.messages, c))[row] == multiset(rows)[row] {
      OfCounts(t.messages, c, row);
    }
    if c !in log {
      forall i | 0 <= i < |t.messages| ensures t.messages[i].conversationId != c {}
      NoStrangers(t.messages, c);
    }
    assert multiset(Of(t.messages, c)) == multiset(rows);
    assert NeverFalling(rows) && Rising(Of(t.messages, c));
    OneOrder(Of(t.messages, c), rows);
  }

  // No message is left without its conversation.
  lemma NoOrphanMessages(events: seq<Event>, row: MessageRow)
    requires row in RunTables(events).messages
    ensures row.conversationId in ConversationIds(RunTables(events).conversations)
  {
    RunsRefine(events);
  }

  // Whatever is done to another conversation leaves this one's messages as they are.
  lemma OthersAreUntouched(t: Tables, op: Op, now: int, c: string)
    requires op.Create? ==> op.id != c
    requires op.Add? ==> op.conversation != c
    requires op.Delete? ==> op.target != c
    ensures Of(Step(t, op, now).messages, c) == Of(t.messages, c)
  {
    hide Failure, MaxSequence, WithoutConversation, Touch;
    match op
    case Create(_, _, _) =>
    case Add(_, _, _, _, _) => OfAppended(t.messages, NewRow(t, op, now), c);
    case Delete(target) => CascadeKeepsOthers(t.messages, target, c);
  }

  // ---------------------------------------------------------------- the list of conversations

  lemma SummaryMember(t: Tables, log: Log, row: Summary)
    requires Refines(t, log)
    ensures row in Summarize(t) <==> row.id in log && row == SummaryOf(row.id, log[row.id])
  {
    hide DistinctIds, Of;
    var rows := Summarize(t);
    if row in rows {
      var i :| 0 <= i < |rows| && rows[i] == row;
      assert t.conversations[i].id in ConversationIds(t.conversations);
    }
    if row.id in log && row == SummaryOf(row.id, log[row.id]) {
      var i :| 0 <= i < |t.conversations| && t.conversations[i].id == row.id;
      assert rows[i] == row;
    }
  }

  // Whatever list answers list_conversations: it shows every conversation once, latest first, each
  // with as many messages as were added.
  lemma ListIsTheLog(events: seq<Event>, rows: seq<Summary>)
    requires IsConversationList(RunTables(events), rows)
    ensures var log := RunLog(events);
            && (forall i, j :: 0 <= i < j < |rows| ==> rows[i].updatedAt >= rows[j].updatedAt)
            && multiset(rows) == multiset(set id | id in log :: SummaryOf(id, log[id]))
  {
    RunsRefine(events);
    ListOf(RunTables(events), RunLog(events));
  }

  lemma ListOf(t: Tables, log: Log)
    requires Refines(t, log)
    ensures multiset(Summarize(t)) == multiset(set id | id in log :: SummaryOf(id, log[id]))
  {
    hide Of, Numbered, Stores;
    var rows := Summarize(t);
    assert forall i, j :: 0 <= i < j < |rows| ==> rows[i].id != rows[j].id;
    DistinctMultiset(rows);
    var wanted := set id | id in log :: SummaryOf(id, log[id]);
    forall row ensures row in rows <==> row in wanted {
      hide Summarize;
      SummaryMember(t, log, row);
    }
    assert (set row | row in rows) == wanted;
  }
}
