// The handlers as they update the tables in place.
module CoordinatorServer {
  import opened Wrappers
  import opened Ordering
  import opened CoordinatorModel

  class CoordinatorState {
    var nodes: map<string, NodeEntry>
    var signals: map<string, seq<Signal>>
    var karma: map<string, int>
    var processed: map<string, nat>

    ghost function Abs(): State
      reads this
    {
      State(nodes, signals, karma, processed)
    }

    constructor ()
      ensures Abs() == START
    {
      nodes, signals, karma, processed := map[], map[], map[], map[];
    }

    method RegisterNode(info: PeerInfo, now: nat) returns (reply: Reply)
      modifies this`nodes
      ensures Abs() == Step(old(Abs()), Register(info), now) && reply == ReplyTo(old(Abs()), Register(info))
    {
      nodes := nodes[info.nodeId := NodeEntry(info, now)];
      reply := Accepted;
    }

    method HeartbeatNode(info: PeerInfo, now: nat) returns (reply: Reply)
      modifies this`nodes
      ensures Abs() == Step(old(Abs()), Heartbeat(info), now) && reply == ReplyTo(old(Abs()), Heartbeat(info))
    {
      if info.nodeId in nodes {
        var entry := nodes[info.nodeId].(info := info, lastSeen := now);
        nodes := nodes[info.nodeId := entry];
      } else {
        nodes := nodes[info.nodeId := NodeEntry(info, now)];
      }
      reply := Accepted;
    }

    method DeregisterNode(id: Option<string>, now: nat) returns (reply: Reply)
      modifies this`nodes, this`signals
      ensures Abs() == Step(old(Abs()), Deregister(id), now) && reply == ReplyTo(old(Abs()), Deregister(id))
    {
      if id.Some? {
        nodes := nodes - {id.value};
        signals := signals - {id.value};
      }
      reply := Accepted;
    }

    method SendSignal(signal: Signal, now: nat) returns (reply: Reply)
      modifies this`signals
      ensures Abs() == Step(old(Abs()), Send(signal), now) && reply == ReplyTo(old(Abs()), Send(signal))
    {
      if signal.toNode !in signals {
        signals := signals[signal.toNode := []];
      }
      var queue := signals[signal.toNode];
      if |queue| < MAX_SIGNALS {
        signals := signals[signal.toNode := queue + [signal]];
        reply := Accepted;
      } else {
        reply := TooManyRequests;
      }
    }

    method PollSignals(id: string, now: nat) returns (reply: Reply)
      modifies this`signals
      ensures Abs() == Step(old(Abs()), Poll(id), now) && reply == ReplyTo(old(Abs()), Poll(id))
    {
      if id in signals {
        reply := Batch(signals[id]);
        signals := signals - {id};
      } else {
        reply := Batch([]);
        assert signals - {id} == signals;
      }
    }

    method ClaimKarma(r: WorkReceipt, now: nat) returns (reply: Reply)
      modifies this`karma, this`processed
      ensures Abs() == Step(old(Abs()), Claim(r), now) && reply == ReplyTo(old(Abs()), Claim(r))
    {
      var key := KeyOf(r);
      if key in processed {
        return Conflict;
      }
      if r.client !in nodes && r.tokens > UNKNOWN_CLIENT_LIMIT {
        return Forbidden;
      }
      if r.tokens == 0 || r.tokens > CLAIM_LIMIT {
        return BadRequest;
      }
      if r.worker !in karma {
        karma := karma[r.worker := 0];
      }
      karma := karma[r.worker := karma[r.worker] + r.tokens];
      processed := processed[key := now];
      reply := Awarded(r.tokens, karma[r.worker]);
    }

    // The peers in iteration order, then sorted by karma.
    method Matchmake(nodeId: string, preferredModel: Option<string>, order: seq<string>) returns (m: Match)
      requires IsIteration(order, nodes.Keys)
      ensures m.ranked == Sort(Peers(Abs(), order), KarmaKey)
      ensures m.total == |nodes| && m.requesterKarma == BalanceOf(Abs(), nodeId) && m.tier == TierOf(m.requesterKarma)
      ensures m.swarm == "swarm-" + if preferredModel.Some? then preferredModel.value else "default"
    {
      var requesterKarma := if nodeId in karma then karma[nodeId] else 0;
      var peers: seq<RankedPeer> := [];
      for i := 0 to |order|
        invariant |peers| == i
        invariant forall k :: 0 <= k < i ==> order[k] in nodes && peers[k] == PeerOf(Abs(), order[k])
      {
        assert order[i] in (set id | id in order);
        var info := nodes[order[i]].info;
        var peerKarma := if info.nodeId in karma then karma[info.nodeId] else 0;
        peers := peers + [RankedPeer(info.nodeId, info.addr, peerKarma)];
      }
      assert peers == Peers(Abs(), order);
      m := Match("swarm-" + (if preferredModel.Some? then preferredModel.value else "default"),
                 |nodes|, requesterKarma, TierOf(requesterKarma), Sort(peers, KarmaKey));
    }

    // The closure of `retain` for one entry.
    method RetainEntry(id: string, now: nat)
      requires id in nodes
      modifies this`nodes, this`signals
      ensures var gone := if IsActive(old(nodes)[id], now) then {} else {id};
              nodes == old(nodes) - gone && signals == old(signals) - gone
    {
      if !IsActive(nodes[id], now) {
        signals := signals - {id};
        nodes := nodes - {id};
      } else {
        RemoveNothing(nodes);
        RemoveNothing(signals);
      }
    }

    // One tick of the background task: every entry once, in no particular order.
    method PruneTick(now: nat)
      modifies this`nodes, this`signals
      ensures Abs() == Step(old(Abs()), Tick, now)
    {
      hide Pruned, IsActive;
      ghost var nodes0, signals0 := nodes, signals;
      var todo := nodes.Keys;
      NoneOrAll(nodes, nodes, now);
      NoneOrAll(nodes, signals, now);
      while todo != {}
        invariant todo <= nodes0.Keys
        invariant nodes == Pruned(nodes0, nodes0, todo, now)
        invariant signals == Pruned(nodes0, signals0, todo, now)
        decreases |todo|
      {
        var id :| id in todo;
        Untouched(nodes0, todo, id, now);
        OneMore(nodes0, nodes0, todo, id, now);
        OneMore(nodes0, signals0, todo, id, now);
        RetainEntry(id, now);
        todo := todo - {id};
      }
    }
  }

  // A table while the entries in `todo` have yet to be looked at.
  ghost function Pruned<V>(nodes: map<string, NodeEntry>, m: map<string, V>, todo: set<string>, now: nat)
    : map<string, V>
  {
    m - (Stale(nodes, now) - todo)
  }

  lemma NoneOrAll<V>(nodes: map<string, NodeEntry>, m: map<string, V>, now: nat)
    ensures Pruned(nodes, m, nodes.Keys, now) == m && Pruned(nodes, m, {}, now) == m - Stale(nodes, now)
  {
    assert Stale(nodes, now) - nodes.Keys == {} && Stale(nodes, now) - {} == Stale(nodes, now);
  }

  lemma RemoveNothing<V>(m: map<string, V>)
    ensures m - {} == m
  {
  }

  lemma Untouched(nodes: map<string, NodeEntry>, todo: set<string>, id: string, now: nat)
    requires id in nodes && id in todo
    ensures var left := Pruned(nodes, nodes, todo, now); id in left && left[id] == nodes[id]
  {
  }

  lemma OneMore<V>(nodes: map<string, NodeEntry>, m: map<string, V>, todo: set<string>, id: string, now: nat)
    requires id in nodes && id in todo
    ensures Pruned(nodes, m, todo, now) - (if IsActive(nodes[id], now) then {} else {id})
            == Pruned(nodes, m, todo - {id}, now)
  {
  }
}
