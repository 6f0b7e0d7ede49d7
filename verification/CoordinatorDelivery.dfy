// What the coordination server answers, in terms of the run before: which signals a poll hands over and
// when one is accepted, and which claims are awarded, refused and why.
module CoordinatorDelivery {
  import opened Wrappers
  import opened Text
  import opened CoordinatorModel
  import opened CoordinatorProofs
  import opened CoordinatorMatching

  // ---------------------------------------------------------------- polls

  // The accepted signals of a peer that have not been taken from its queue yet.
  function Undelivered(run: seq<Event>, peer: string): seq<Signal> {
    var accepted, taken := AcceptedFor(run, peer), TakenFrom(run, peer);
    if |taken| <= |accepted| then accepted[|taken|..] else []
  }

  lemma UndeliveredAreQueued(run: seq<Event>, peer: string)
    ensures Undelivered(run, peer) == QueueOf(StateAfter(run), peer)
    ensures |TakenFrom(run, peer)| <= |AcceptedFor(run, peer)|
  {
    hide StateAfter, AcceptedFor, TakenFrom;
    SignalsAreConserved(run, peer);
  }

  // A poll answers with all accepted signals not taken before, and leaves none behind.
  lemma PollHandsOverAll(run: seq<Event>, peer: string, now: nat)
    ensures var after := run + [Event(now, Poll(peer))];
            && ReplyTo(StateAfter(run), Poll(peer)) == Batch(Undelivered(run, peer))
            && Undelivered(after, peer) == [] && QueueOf(StateAfter(after), peer) == []
  {
    hide AcceptedFor, TakenFrom;
    var after := run + [Event(now, Poll(peer))];
    assert after[..|after| - 1] == run;
    UndeliveredAreQueued(run, peer);
    UndeliveredAreQueued(after, peer);
  }

  // So right after a poll, a peer that was never dropped has been handed every accepted signal, once and
  // in order.
  lemma PolledPeerHasEverything(run: seq<Event>, peer: string)
    requires run != [] && Last(run).op == Poll(peer) && NeverDropped(run, peer)
    ensures AcceptedFor(run, peer) == PolledBy(run, peer)
  {
    hide StateAfter, AcceptedFor, TakenFrom, PolledBy, NeverDropped, Undelivered;
    PollsDeliverEverything(run, peer);
    PollHandsOverAll(Before(run), peer, Last(run).time);
    assert run == Before(run) + [Event(Last(run).time, Poll(peer))];
  }

  // A signal is accepted if and only if fewer than 50 accepted ones wait for its peer, and then waits
  // behind them; otherwise the sender is told to slow down.
  lemma SignalIsAcceptedIff(run: seq<Event>, signal: Signal, now: nat)
    ensures var waiting := Undelivered(run, signal.toNode);
            var after := run + [Event(now, Send(signal))];
            && ReplyTo(StateAfter(run), Send(signal)) == (if |waiting| < 50 then Accepted else TooManyRequests)
            && Undelivered(after, signal.toNode) == if |waiting| < 50 then waiting + [signal] else waiting
  {
    hide AcceptedFor, TakenFrom;
    var after := run + [Event(now, Send(signal))];
    assert after[..|after| - 1] == run;
    UndeliveredAreQueued(run, signal.toNode);
    UndeliveredAreQueued(after, signal.toNode);
  }

  // ---------------------------------------------------------------- claims

  // A receipt with the same client, nonce and timestamp, as far as the key tells them apart, was awarded.
  ghost predicate WasAwarded(run: seq<Event>, r: WorkReceipt) {
    exists i :: 0 <= i < |AwardedReceipts(run)| && SameReceipt(AwardedReceipts(run)[i], r)
  }

  predicate SameReceipt(a: WorkReceipt, b: WorkReceipt) {
    a.timestamp == b.timestamp && a.client + ":" + a.nonce == b.client + ":" + b.nonce
  }

  lemma SameReceiptIff(a: WorkReceipt, b: WorkReceipt)
    ensures KeyOf(a) == KeyOf(b) <==> SameReceipt(a, b)
  {
    hide Decimal, ReceiptKey;
    SameKeyIff(a.client, a.nonce, a.timestamp, b.client, b.nonce, b.timestamp);
  }

  lemma WasAwardedIff(run: seq<Event>, r: WorkReceipt)
    ensures WasAwarded(run, r) <==> KeyOf(r) in StateAfter(run).processed
  {
    hide StateAfter, AwardedReceipts, KeyOf, SameReceipt, TokensFor;
    KarmaLedger(run, r.worker);
    var receipts := AwardedReceipts(run);
    if WasAwarded(run, r) {
      var i :| 0 <= i < |receipts| && SameReceipt(receipts[i], r);
      SameReceiptIff(receipts[i], r);
      assert KeyOf(receipts[i]) in KeysOf(receipts);
    }
    if KeyOf(r) in KeysOf(receipts) {
      var i :| 0 <= i < |receipts| && KeyOf(receipts[i]) == KeyOf(r);
      SameReceiptIff(receipts[i], r);
    }
  }

  // The client has been in contact, and no tick has timed it out since.
  predicate IsListed(run: seq<Event>, id: string) {
    LastContact(run, id).Some? && !TickedOut(run, id)
  }

  // What a claim is answered, from the run alone: a receipt that was awarded before is a conflict; one
  // above 5000 tokens from an unlisted client is forbidden; one of no tokens or more than 100000 is bad;
  // any other is awarded its tokens on top of all tokens awarded to that worker before.
  lemma ClaimIsAnswered(run: seq<Event>, r: WorkReceipt)
    ensures ReplyTo(StateAfter(run), Claim(r))
            == if WasAwarded(run, r) then Conflict
               else if !IsListed(run, r.client) && r.tokens > 5_000 then Forbidden
               else if r.tokens == 0 || r.tokens > 100_000 then BadRequest
               else Awarded(r.tokens, TokensFor(AwardedReceipts(run), r.worker) + r.tokens)
  {
    hide StateAfter, AwardedReceipts, KeyOf, TokensFor, WasAwarded, LastContact, TickedOut;
    WasAwardedIff(run, r);
    ListedIff(run, r.client);
    KarmaLedger(run, r.worker);
  }

  // In particular a claim is awarded if and only if it is new, of 1 to 100000 tokens, and of at most 5000
  // unless its client is listed.
  lemma AwardedIff(run: seq<Event>, r: WorkReceipt)
    ensures ReplyTo(StateAfter(run), Claim(r)).Awarded?
            <==> !WasAwarded(run, r) && 1 <= r.tokens <= 100_000 && (r.tokens <= 5_000 || IsListed(run, r.client))
  {
    hide StateAfter, AwardedReceipts, KeyOf, TokensFor, WasAwarded, IsListed, ReplyTo;
    ClaimIsAnswered(run, r);
  }

  // An awarded receipt is recorded with the time of the claim, and no receipt is ever forgotten.
  lemma AwardIsRecorded(run: seq<Event>, r: WorkReceipt, event: Event)
    ensures var before, after := StateAfter(run).processed, StateAfter(run + [event]).processed;
            && (forall k :: k in before ==> k in after && after[k] == before[k])
            && (event.op == Claim(r) && ReplyTo(StateAfter(run), Claim(r)).Awarded? ==>
                  KeyOf(r) in after && after[KeyOf(r)] == event.time)
  {
    hide KeyOf;
    assert (run + [event])[..|run|] == run;
  }

  // ---------------------------------------------------------------- nodes

  // What the node said of itself in its last contact.
  function LastInfo(run: seq<Event>, id: string): Option<PeerInfo> {
    if run == [] then None
    else if IsContact(Last(run).op, id) then Some(Last(run).op.info)
    else LastInfo(Before(run), id)
  }

  // A listed node shows the address of its last register or heartbeat.
  lemma {:induction false} ListedInfo(run: seq<Event>, id: string)
    ensures id in StateAfter(run).nodes ==> LastInfo(run, id) == Some(StateAfter(run).nodes[id].info)
  {
    if run != [] {
      ListedInfo(Before(run), id);
    }
  }

  // In a ranking it stands with that address and all tokens awarded to it.
  lemma RankedPeerShows(run: seq<Event>, id: string)
    requires IsListed(run, id)
    ensures id in StateAfter(run).nodes && LastInfo(run, id).Some?
    ensures PeerOf(StateAfter(run), id)
            == RankedPeer(id, LastInfo(run, id).value.addr, TokensFor(AwardedReceipts(run), id))
  {
    hide StateAfter, AwardedReceipts, TokensFor, LastInfo, LastContact, TickedOut;
    ListedIff(run, id);
    ListedInfo(run, id);
    PeerAfter(run, id);
  }

  // Contacts and deregistrations are always answered OK.
  lemma ContactsAreAccepted(st: State, op: Op)
    requires op.Register? || op.Heartbeat? || op.Deregister?
    ensures ReplyTo(st, op) == Accepted
  {
  }

  // 500 tokens make a VIP, one token a contributor.
  lemma TierByTokens(run: seq<Event>, id: string)
    ensures var tokens := TokensFor(AwardedReceipts(run), id);
            TierOf(BalanceOf(StateAfter(run), id))
            == if tokens >= 500 then VipAlpha else if tokens >= 1 then Contributor else Community
  {
    hide StateAfter, AwardedReceipts, TokensFor;
    KarmaLedger(run, id);
  }
}
