// What matchmaking shows after any run: every listed node once, best contributors first, each with
// the sum of its accepted receipts.
module CoordinatorMatching {
  import opened Ordering
  import opened CoordinatorModel
  import opened CoordinatorProofs

  ghost predicate KeyedByOwnId(st: State) {
    forall id :: id in st.nodes ==> st.nodes[id].info.nodeId == id
  }

  lemma StepKeepsKeys(st: State, op: Op, now: nat)
    requires KeyedByOwnId(st)
    ensures KeyedByOwnId(Step(st, op, now))
  {
    hide Refusal, KeyOf;
  }

  // Every node is stored under the id it announces.
  lemma {:induction false} NodesAreKeyedByOwnId(run: seq<Event>)
    ensures KeyedByOwnId(StateAfter(run))
  {
    hide Step;
    if run == [] {
    } else {
      NodesAreKeyedByOwnId(Before(run));
      StepKeepsKeys(StateAfter(Before(run)), Last(run).op, Last(run).time);
    }
  }

  lemma PeerAfter(run: seq<Event>, id: string)
    requires id in StateAfter(run).nodes
    ensures var peer := PeerOf(StateAfter(run), id);
            peer.nodeId == id && peer.karma == TokensFor(AwardedReceipts(run), id)
  {
    hide StateAfter, AwardedReceipts, TokensFor;
    NodesAreKeyedByOwnId(run);
    KarmaLedger(run, id);
  }

  // In whatever order the map yields its nodes: the ranking lists exactly the registered nodes, each
  // once, by falling number of tokens in their accepted receipts.
  lemma RankingIsByTokens(run: seq<Event>, order: seq<string>)
    requires IsIteration(order, StateAfter(run).nodes.Keys)
    ensures forall id :: id in order ==> id in StateAfter(run).nodes
    ensures var ranked := Sort(Peers(StateAfter(run), order), KarmaKey);
            && (forall i, j :: 0 <= i < j < |ranked| ==> ranked[i].karma >= ranked[j].karma)
            && multiset(ranked) == multiset(set id | id in StateAfter(run).nodes :: PeerOf(StateAfter(run), id))
    ensures forall id :: id in StateAfter(run).nodes ==>
              var peer := PeerOf(StateAfter(run), id);
              peer.nodeId == id && peer.karma == TokensFor(AwardedReceipts(run), id)
  {
    var st := StateAfter(run);
    hide StateAfter, AwardedReceipts, TokensFor, Sort;
    forall id | id in order ensures id in st.nodes {
      assert id in (set x | x in order);
    }
    forall id | id in st.nodes
      ensures PeerOf(st, id).nodeId == id && PeerOf(st, id).karma == TokensFor(AwardedReceipts(run), id)
    {
      PeerAfter(run, id);
    }
    var peers := Peers(st, order);
    SortIsSorted(peers, KarmaKey);
    DistinctMultiset(peers);
    PeersAreAll(st, order);
  }

  lemma PeersAreAll(st: State, order: seq<string>)
    requires IsIteration(order, st.nodes.Keys) && forall id :: id in order ==> id in st.nodes
    ensures (set peer | peer in Peers(st, order)) == (set id | id in st.nodes :: PeerOf(st, id))
  {
    hide PeerOf;
    var peers := Peers(st, order);
    forall id | id in st.nodes ensures PeerOf(st, id) in peers {
      assert id in (set x | x in order);
      var i :| 0 <= i < |order| && order[i] == id;
      assert peers[i] == PeerOf(st, id);
    }
  }
}
