// What every run of the coordination server keeps: no signal is lost or invented, karma is the sum of
// distinct accepted receipts, and nodes are listed exactly as long as their heartbeats justify.
module CoordinatorProofs {
  import opened Wrappers
  import opened Text
  import opened CoordinatorModel

  // The run before its last event, and that event.
  function Before(run: seq<Event>): seq<Event>
    requires run != []
  {
    run[..|run| - 1]
  }

  function Last(run: seq<Event>): Event
    requires run != []
  {
    run[|run| - 1]
  }

  // ---------------------------------------------------------------- signals

  // Signals for a peer that the server answered OK to, in order.
  function AcceptedFor(run: seq<Event>, peer: string): seq<Signal> {
    if run == [] then []
    else
      var op := Last(run).op;
      AcceptedFor(Before(run), peer)
      + if op.Send? && op.signal.toNode == peer && ReplyTo(StateAfter(Before(run)), op) == Accepted
        then [op.signal] else []
  }

  // What an operation takes out of a peer's queue: the batch a poll hands over, or the queue that a
  // deregistration or a pruning tick drops.
  function TakenBy(st: State, event: Event, peer: string): seq<Signal> {
    match event.op
    case Poll(id) => if id == peer then ReplyTo(st, event.op).signals else []
    case Deregister(id) => if id == Some(peer) then QueueOf(st, peer) else []
    case Tick => if peer in Stale(st.nodes, event.time) then QueueOf(st, peer) else []
    case _ => []
  }

  function TakenFrom(run: seq<Event>, peer: string): seq<Signal> {
    if run == [] then []
    else TakenFrom(Before(run), peer) + TakenBy(StateAfter(Before(run)), Last(run), peer)
  }

  lemma StepConserves(st: State, event: Event, peer: string)
    requires |QueueOf(st, peer)| <= 50
    ensures var op := event.op;
            var after := Step(st, op, event.time);
            && |QueueOf(after, peer)| <= 50
            && QueueOf(st, peer)
               + (if op.Send? && op.signal.toNode == peer && ReplyTo(st, op) == Accepted then [op.signal] else [])
               == TakenBy(st, event, peer) + QueueOf(after, peer)
  {
    match event.op
    case Send(signal) =>
    case Poll(id) =>
    case Deregister(id) =>
    case Tick =>
    case _ =>
  }

  // Conservation: the accepted signals of a peer are those taken from its queue followed by those
  // still in it, in order, and no queue exceeds 50.
  lemma {:induction false} SignalsAreConserved(run: seq<Event>, peer: string)
    ensures AcceptedFor(run, peer) == TakenFrom(run, peer) + QueueOf(StateAfter(run), peer)
    ensures |QueueOf(StateAfter(run), peer)| <= 50
  {
    if run != [] {
      SignalsAreConserved(Before(run), peer);
      var st := StateAfter(Before(run));
      StepConserves(st, Last(run), peer);
      var op := Last(run).op;
      var sent := if op.Send? && op.signal.toNode == peer && ReplyTo(st, op) == Accepted then [op.signal] else [];
      var taken := TakenBy(st, Last(run), peer);
      assert TakenFrom(Before(run), peer) + QueueOf(st, peer) + sent
             == TakenFrom(Before(run), peer) + (QueueOf(st, peer) + sent);
      assert TakenFrom(Before(run), peer) + (taken + QueueOf(StateAfter(run), peer))
             == TakenFrom(Before(run), peer) + taken + QueueOf(StateAfter(run), peer);
    }
  }

  // The batches a peer was handed.
  function PolledBy(run: seq<Event>, peer: string): seq<Signal> {
    if run == [] then []
    else
      var op := Last(run).op;
      PolledBy(Before(run), peer)
      + if op.Poll? && op.nodeId == peer then ReplyTo(StateAfter(Before(run)), op).signals else []
  }

  ghost predicate NeverDropped(run: seq<Event>, peer: string) {
    forall i :: 0 <= i < |run| ==>
      && run[i].op != Deregister(Some(peer))
      && (run[i].op.Tick? ==> peer !in Stale(StateAfter(run[..i]).nodes, run[i].time))
  }

  // Unless the peer is deregistered or pruned, polling delivers every accepted signal once, in order.
  lemma {:induction false} PollsDeliverEverything(run: seq<Event>, peer: string)
    requires NeverDropped(run, peer)
    ensures AcceptedFor(run, peer) == PolledBy(run, peer) + QueueOf(StateAfter(run), peer)
  {
    SignalsAreConserved(run, peer);
    PolledIsTaken(run, peer);
  }

  lemma {:induction false} PolledIsTaken(run: seq<Event>, peer: string)
    requires NeverDropped(run, peer)
    ensures PolledBy(run, peer) == TakenFrom(run, peer)
  {
    if run != [] {
      assert forall i :: 0 <= i < |Before(run)| ==> Before(run)[i] == run[i] && Before(run)[..i] == run[..i];
      PolledIsTaken(Before(run), peer);
      assert run[..|run| - 1] == Before(run) && run[|run| - 1] == Last(run);
    }
  }

  // A tick only clears queues of nodes it prunes: signals for an id that is not registered stay.
  lemma TickKeepsUnregisteredQueues(st: State, peer: string, now: nat)
    ensures QueueOf(Step(st, Tick, now), peer)
            == if peer in st.nodes && peer !in Step(st, Tick, now).nodes then [] else QueueOf(st, peer)
    ensures peer !in st.nodes ==> QueueOf(Step(st, Tick, now), peer) == QueueOf(st, peer)
  {
  }

  // ---------------------------------------------------------------- karma

  // Receipts the server awarded karma for, in order.
  function AwardedReceipts(run: seq<Event>): seq<WorkReceipt> {
    if run == [] then []
    else
      var op := Last(run).op;
      AwardedReceipts(Before(run))
      + if op.Claim? && ReplyTo(StateAfter(Before(run)), op).Awarded? then [op.receipt] else []
  }

  function TokensFor(receipts: seq<WorkReceipt>, worker: string): nat {
    if receipts == [] then 0
    else
      var r := receipts[|receipts| - 1];
      TokensFor(receipts[..|receipts| - 1], worker) + if r.worker == worker then r.tokens else 0
  }

  function TotalTokens(receipts: seq<WorkReceipt>): nat {
    if receipts == [] then 0
    else TotalTokens(receipts[..|receipts| - 1]) + receipts[|receipts| - 1].tokens
  }

  ghost predicate DistinctReceipts(receipts: seq<WorkReceipt>) {
    forall i, j :: 0 <= i < j < |receipts| ==> KeyOf(receipts[i]) != KeyOf(receipts[j])
  }

  ghost function KeysOf(receipts: seq<WorkReceipt>): set<string> {
    set i | 0 <= i < |receipts| :: KeyOf(receipts[i])
  }

  lemma KeysOfAppend(receipts: seq<WorkReceipt>, r: WorkReceipt)
    ensures KeysOf(receipts + [r]) == KeysOf(receipts) + {KeyOf(r)}
  {
    var all := receipts + [r];
    assert all[|receipts|] == r;
    forall k | k in KeysOf(receipts) ensures k in KeysOf(all) {
      var i :| 0 <= i < |receipts| && KeyOf(receipts[i]) == k;
      assert all[i] == receipts[i];
    }
  }

  // Only an awarded claim touches balances and processed receipts.
  lemma StepOnLedger(st: State, event: Event)
    ensures var op, after := event.op, Step(st, event.op, event.time);
            if op.Claim? && ReplyTo(st, op).Awarded? then
              && KeyOf(op.receipt) !in st.processed && 1 <= op.receipt.tokens <= 100_000
              && after.karma == st.karma[op.receipt.worker := BalanceOf(st, op.receipt.worker) + op.receipt.tokens]
              && after.processed.Keys == st.processed.Keys + {KeyOf(op.receipt)}
            else after.karma == st.karma && after.processed == st.processed
  {
    hide ReceiptKey;
  }

  lemma DistinctAppend(receipts: seq<WorkReceipt>, r: WorkReceipt)
    requires DistinctReceipts(receipts) && KeyOf(r) !in KeysOf(receipts)
    ensures DistinctReceipts(receipts + [r])
  {
    hide KeyOf;
    var all := receipts + [r];
    forall i, j | 0 <= i < j < |all| ensures KeyOf(all[i]) != KeyOf(all[j]) {
      assert all[i] == receipts[i] && KeyOf(receipts[i]) in KeysOf(receipts);
      assert j < |receipts| ==> all[j] == receipts[j];
    }
  }

  lemma TokensAppend(receipts: seq<WorkReceipt>, r: WorkReceipt, worker: string)
    ensures TokensFor(receipts + [r], worker)
            == TokensFor(receipts, worker) + if r.worker == worker then r.tokens else 0
    ensures TotalTokens(receipts + [r]) == TotalTokens(receipts) + r.tokens
  {
    var all := receipts + [r];
    assert all[..|all| - 1] == receipts;
  }

  ghost predicate LedgerHolds(st: State, receipts: seq<WorkReceipt>, worker: string) {
    && DistinctReceipts(receipts)
    && st.processed.Keys == KeysOf(receipts)
    && BalanceOf(st, worker) == TokensFor(receipts, worker)
    && (forall i :: 0 <= i < |receipts| ==> 1 <= receipts[i].tokens <= 100_000)
  }

  // Accepted receipts have pairwise distinct keys, exactly these are marked processed, and every
  // balance is the sum of the tokens of that worker's accepted receipts.
  lemma {:induction false} KarmaLedger(run: seq<Event>, worker: string)
    ensures LedgerHolds(StateAfter(run), AwardedReceipts(run), worker)
  {
    hide Step, ReplyTo, KeyOf;
    if run != [] {
      KarmaLedger(Before(run), worker);
      var st, op := StateAfter(Before(run)), Last(run).op;
      var receipts := AwardedReceipts(Before(run));
      StepOnLedger(st, Last(run));
      if op.Claim? && ReplyTo(st, op).Awarded? {
        KeysOfAppend(receipts, op.receipt);
        DistinctAppend(receipts, op.receipt);
        TokensAppend(receipts, op.receipt, worker);
      } else {
        assert receipts + [] == receipts;
      }
    }
  }

  // Sum of all balances.
  ghost function Total(m: map<string, int>): int {
    if m == map[] then 0
    else
      var k :| k in m;
      m[k] + Total(m - {k})
  }

  lemma {:induction false} TotalWithout(m: map<string, int>, k: string)
    requires k in m
    ensures Total(m) == m[k] + Total(m - {k})
    decreases |m|
  {
    var j :| j in m && Total(m) == m[j] + Total(m - {j});
    if j != k {
      TotalWithout(m - {j}, k);
      TotalWithout(m - {k}, j);
      assert m - {j} - {k} == m - {k} - {j};
    }
  }

  lemma TotalUpdate(m: map<string, int>, k: string, v: int)
    ensures Total(m[k := v]) == Total(m) + v - (if k in m then m[k] else 0)
  {
    TotalWithout(m[k := v], k);
    assert m[k := v] - {k} == m - {k};
    if k in m {
      TotalWithout(m, k);
    } else {
      assert m - {k} == m;
    }
  }

  lemma StepOnTotal(st: State, event: Event)
    ensures Total(Step(st, event.op, event.time).karma)
            == Total(st.karma)
               + if event.op.Claim? && ReplyTo(st, event.op).Awarded? then event.op.receipt.tokens else 0
  {
    hide Step, ReplyTo, KeyOf, Total;
    StepOnLedger(st, event);
    if event.op.Claim? {
      var r := event.op.receipt;
      TotalUpdate(st.karma, r.worker, BalanceOf(st, r.worker) + r.tokens);
    }
  }

  lemma {:induction false} TotalIsAllTokens(run: seq<Event>)
    ensures Total(StateAfter(run).karma) == TotalTokens(AwardedReceipts(run))
  {
    hide Step, ReplyTo, Total;
    if run == [] {
      NoKarmaAtStart();
    } else {
      TotalIsAllTokens(Before(run));
      var op := Last(run).op;
      var receipts := AwardedReceipts(Before(run));
      StepOnTotal(StateAfter(Before(run)), Last(run));
      if op.Claim? && ReplyTo(StateAfter(Before(run)), op).Awarded? {
        TokensAppend(receipts, op.receipt, op.receipt.worker);
      } else {
        assert receipts + [] == receipts;
      }
    }
  }

  lemma NoKarmaAtStart()
    ensures Total(START.karma) == 0
  {
  }

  lemma {:induction false} TokensAreCapped(receipts: seq<WorkReceipt>)
    requires forall i :: 0 <= i < |receipts| ==> receipts[i].tokens <= 100_000
    ensures TotalTokens(receipts) <= 100_000 * |receipts|
    ensures forall worker :: TokensFor(receipts, worker) <= TotalTokens(receipts)
  {
    if receipts != [] {
      TokensAreCapped(receipts[..|receipts| - 1]);
    }
  }

  lemma {:induction false} DistinctCount(receipts: seq<WorkReceipt>)
    requires DistinctReceipts(receipts)
    ensures |KeysOf(receipts)| == |receipts|
  {
    if receipts != [] {
      var front, last := receipts[..|receipts| - 1], receipts[|receipts| - 1];
      assert receipts == front + [last];
      KeysOfAppend(front, last);
      DistinctCount(front);
      assert KeyOf(last) !in KeysOf(front);
    }
  }

  // All karma together is at most 100000 for each processed receipt; in particular no balance leaves
  // the 64-bit range before 92233720368547 receipts are processed.
  lemma KarmaIsBounded(run: seq<Event>, worker: string)
    ensures var st := StateAfter(run);
            && 0 <= BalanceOf(st, worker) <= Total(st.karma) <= 100_000 * |st.processed|
            && (|st.processed| <= 92_233_720_368_547 ==> BalanceOf(st, worker) < U64 / 2)
  {
    KarmaLedger(run, worker);
    TotalIsAllTokens(run);
    var receipts := AwardedReceipts(run);
    TokensAreCapped(receipts);
    DistinctCount(receipts);
    assert |StateAfter(run).processed| == |StateAfter(run).processed.Keys|;
  }

  // ---------------------------------------------------------------- receipt keys

  lemma FirstColon(c: string, rest: string)
    requires ':' !in c
    ensures FindAny(c + ":" + rest, {':'}) == |c| && (c + ":" + rest)[..|c|] == c
  {
    var k := c + ":" + rest;
    assert forall i :: 0 <= i < |c| ==> k[i] == c[i];
    assert k[|c|] == ':';
  }

  lemma LastColon(front: string, t: nat)
    ensures var k := front + ":" + Decimal(t);
            LastIndexOf(k, ':') == Some(|front|) && k[..|front|] == front && k[|front| + 1..] == Decimal(t)
  {
    hide Decimal;
    var d := Decimal(t);
    var k := front + ":" + d;
    assert k[|front| + 1..] == d;
    assert forall i :: 0 <= i < |d| ==> IsDigit(d[i]);
    LastIndexOfUnique(k, ':', |front|);
  }

  lemma MiddlePart(a: string, b: string, c: string)
    ensures (a + b + c)[|a|..|a + b|] == b
  {
  }

  // Reading a key back: the client ends at the first ':', the timestamp starts behind the last.
  lemma KeyParts(c: string, n: string, t: nat)
    requires ':' !in c
    ensures var k := ReceiptKey(c, n, t);
            && FindAny(k, {':'}) == |c| && k[..|c|] == c
            && LastIndexOf(k, ':') == Some(|c| + 1 + |n|) && k[|c| + 1..|c| + 1 + |n|] == n
            && k[|c| + 1 + |n| + 1..] == Decimal(t)
  {
    hide Decimal, FindAny, LastIndexOf;
    var k, front := ReceiptKey(c, n, t), c + ":" + n;
    LastColon(front, t);
    FirstColon(c, n + ":" + Decimal(t));
    Assoc(c + ":", n, ":");
    Assoc(c + ":", n + ":", Decimal(t));
    MiddlePart(c + ":", n, ":" + Decimal(t));
    Assoc(front, ":", Decimal(t));
  }

  // Two receipts share a key exactly when their timestamps are equal and client and nonce, joined with
  // ':', read the same.
  lemma SameKeyIff(c1: string, n1: string, t1: nat, c2: string, n2: string, t2: nat)
    ensures ReceiptKey(c1, n1, t1) == ReceiptKey(c2, n2, t2)
            <==> t1 == t2 && c1 + ":" + n1 == c2 + ":" + n2
  {
    hide Decimal, LastIndexOf;
    LastColon(c1 + ":" + n1, t1);
    LastColon(c2 + ":" + n2, t2);
    if ReceiptKey(c1, n1, t1) == ReceiptKey(c2, n2, t2) {
      assert Decimal(t1) == Decimal(t2);
      DecimalInjective(t1, t2);
    }
  }

  // The key determines client, nonce and timestamp when client ids contain no ':'.
  lemma KeyIsInjective(c1: string, n1: string, t1: nat, c2: string, n2: string, t2: nat)
    requires ':' !in c1 && ':' !in c2
    requires ReceiptKey(c1, n1, t1) == ReceiptKey(c2, n2, t2)
    ensures c1 == c2 && n1 == n2 && t1 == t2
  {
    hide Decimal, ReceiptKey, FindAny, LastIndexOf;
    KeyParts(c1, n1, t1);
    KeyParts(c2, n2, t2);
    assert Decimal(t1) == Decimal(t2);
    DecimalInjective(t1, t2);
  }

  // Without that condition, text can move between client id and nonce.
  lemma KeyCollision(c: string, x: string, n: string, t: nat)
    ensures ReceiptKey(c + ":" + x, n, t) == ReceiptKey(c, x + ":" + n, t)
  {
    assert c + ":" + x + ":" + n == c + ":" + (x + ":" + n);
  }

  // With colon-free client ids, a claim is a conflict exactly when a receipt of the same client,
  // nonce and timestamp was awarded before.
  lemma ConflictIffAlreadyAwarded(run: seq<Event>, r: WorkReceipt)
    requires ':' !in r.client
    requires forall i :: 0 <= i < |AwardedReceipts(run)| ==> ':' !in AwardedReceipts(run)[i].client
    ensures ReplyTo(StateAfter(run), Claim(r)) == Conflict
            <==> exists i :: 0 <= i < |AwardedReceipts(run)|
                             && AwardedReceipts(run)[i].client == r.client
                             && AwardedReceipts(run)[i].nonce == r.nonce
                             && AwardedReceipts(run)[i].timestamp == r.timestamp
  {
    hide Decimal;
    KarmaLedger(run, r.worker);
    var receipts := AwardedReceipts(run);
    if KeyOf(r) in KeysOf(receipts) {
      var i :| 0 <= i < |receipts| && KeyOf(receipts[i]) == KeyOf(r);
      var s := receipts[i];
      KeyIsInjective(s.client, s.nonce, s.timestamp, r.client, r.nonce, r.timestamp);
    }
    if i :| 0 <= i < |receipts| && receipts[i].client == r.client && receipts[i].nonce == r.nonce
            && receipts[i].timestamp == r.timestamp {
      assert KeyOf(receipts[i]) in KeysOf(receipts);
    }
  }

  // ---------------------------------------------------------------- pruning

  ghost predicate InOrder(run: seq<Event>) {
    forall i, j :: 0 <= i < j < |run| ==> run[i].time <= run[j].time
  }

  predicate IsContact(op: Op, id: string) {
    (op.Register? || op.Heartbeat?) && op.info.nodeId == id
  }

  // Time of the last register or heartbeat of a node since it last deregistered.
  function LastContact(run: seq<Event>, id: string): Option<nat> {
    if run == [] then None
    else if IsContact(Last(run).op, id) then Some(Last(run).time)
    else if Last(run).op == Deregister(Some(id)) then None
    else LastContact(Before(run), id)
  }

  // A tick came 60 seconds or more after that contact, and before any other.
  predicate TickedOut(run: seq<Event>, id: string) {
    if run == [] || IsContact(Last(run).op, id) || Last(run).op == Deregister(Some(id)) then false
    else
      || TickedOut(Before(run), id)
      || (Last(run).op.Tick? && LastContact(Before(run), id).Some?
          && Last(run).time >= LastContact(Before(run), id).value + 60_000)
  }

  // A node is listed exactly when it has been in contact and no tick since has found it silent for 60
  // seconds; its entry then carries the time of that contact.
  lemma {:induction false} ListedIff(run: seq<Event>, id: string)
    ensures id in StateAfter(run).nodes <==> LastContact(run, id).Some? && !TickedOut(run, id)
    ensures id in StateAfter(run).nodes ==> LastContact(run, id) == Some(StateAfter(run).nodes[id].lastSeen)
  {
    if run != [] {
      ListedIff(Before(run), id);
    }
  }

  // A claim above 5000 tokens is only ever awarded while its client is listed: it has been in contact,
  // and no tick has timed it out.
  lemma HighClaimsNeedContact(run: seq<Event>, r: WorkReceipt)
    requires ReplyTo(StateAfter(run), Claim(r)).Awarded? && r.tokens > 5_000
    ensures LastContact(run, r.client).Some? && !TickedOut(run, r.client)
  {
    ListedIff(run, r.client);
  }

  // Every tick comes less than 60 seconds after the last contact it can see.
  ghost predicate KeepsInTouch(run: seq<Event>, id: string) {
    forall i :: 0 <= i < |run| && run[i].op.Tick? && LastContact(run[..i], id).Some? ==>
      run[i].time < LastContact(run[..i], id).value + 60_000
  }

  lemma {:induction false} InTouchIsNeverPruned(run: seq<Event>, id: string)
    requires KeepsInTouch(run, id)
    ensures !TickedOut(run, id)
  {
    if run != [] {
      forall i | 0 <= i < |Before(run)| ensures Before(run)[..i] == run[..i] {}
      InTouchIsNeverPruned(Before(run), id);
    }
  }

  // Events that end a gap between contacts of a node: its next contact, its deregistration, and the
  // end of the run.
  predicate EndsGap(run: seq<Event>, id: string, i: nat)
    requires i < |run|
  {
    IsContact(run[i].op, id) || run[i].op == Deregister(Some(id)) || i == |run| - 1
  }

  ghost predicate GapsUnderAMinute(run: seq<Event>, id: string) {
    forall i :: 0 <= i < |run| && EndsGap(run, id, i) && LastContact(run[..i], id).Some? ==>
      run[i].time < LastContact(run[..i], id).value + 60_000
  }

  // Whatever happens within a gap happens before the gap ends.
  lemma {:induction false} WithinGap(run: seq<Event>, id: string, i: nat)
    requires InOrder(run) && GapsUnderAMinute(run, id) && i < |run| && LastContact(run[..i], id).Some?
    ensures run[i].time < LastContact(run[..i], id).value + 60_000
    decreases |run| - i
  {
    if !EndsGap(run, id, i) {
      assert run[..i + 1][..i] == run[..i];
      WithinGap(run, id, i + 1);
    }
  }

  // A node whose gaps between contacts stay under 60 seconds is never pruned: it is listed from its
  // first contact until it deregisters.
  lemma LiveNodeIsNeverPruned(run: seq<Event>, id: string)
    requires InOrder(run) && GapsUnderAMinute(run, id)
    ensures id in StateAfter(run).nodes <==> LastContact(run, id).Some?
  {
    forall i | 0 <= i < |run| && run[i].op.Tick? && LastContact(run[..i], id).Some?
      ensures run[i].time < LastContact(run[..i], id).value + 60_000
    {
      WithinGap(run, id, i);
    }
    InTouchIsNeverPruned(run, id);
    ListedIff(run, id);
  }

  // Some tick falls in every window of 15 seconds between `since` and `now`.
  ghost predicate TicksRegularly(run: seq<Event>, since: nat, now: nat) {
    forall from: nat :: since <= from && from + 15_000 <= now ==> TickIn(run, from)
  }

  ghost predicate TickIn(run: seq<Event>, from: nat) {
    exists i :: 0 <= i < |run| && run[i].op.Tick? && from < run[i].time <= from + 15_000
  }

  lemma {:induction false} LateTickEndsIt(run: seq<Event>, id: string, i: nat)
    requires InOrder(run) && LastContact(run, id).Some?
    requires i < |run| && run[i].op.Tick? && run[i].time >= LastContact(run, id).value + 60_000
    ensures TickedOut(run, id)
  {
    assert i < |run| - 1 ==> run[i].time <= run[|run| - 1].time;
    if !IsContact(Last(run).op, id) && i < |run| - 1 {
      assert Before(run)[i] == run[i];
      LateTickEndsIt(Before(run), id, i);
    }
  }

  // With ticks at most 15 seconds apart, a silent node is gone 75 seconds after its last contact.
  lemma SilentNodeIsGone(run: seq<Event>, id: string, now: nat)
    requires InOrder(run) && LastContact(run, id).Some?
    requires TicksRegularly(run, LastContact(run, id).value, now)
    requires now >= LastContact(run, id).value + 75_000
    ensures id !in StateAfter(run).nodes
  {
    var from := LastContact(run, id).value + 60_000 - 1;
    assert TickIn(run, from);
    var i :| 0 <= i < |run| && run[i].op.Tick? && from < run[i].time <= from + 15_000;
    LateTickEndsIt(run, id, i);
    ListedIff(run, id);
  }
}
