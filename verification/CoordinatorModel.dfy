// The coordination server of crates/hivebear-coordinator/src/main.rs: its four tables, and each
// handler and prune tick as one step.
module CoordinatorModel {
  import opened Wrappers
  import opened Text

  datatype PeerInfo = PeerInfo(nodeId: string, addr: string)

  // Times are milliseconds.
  datatype NodeEntry = NodeEntry(info: PeerInfo, lastSeen: nat)

  datatype Signal = Signal(fromNode: string, toNode: string, kind: string, payload: string)

  datatype WorkReceipt = WorkReceipt(client: string, worker: string, tokens: nat, timestamp: nat, nonce: string)

  datatype State = State(
    nodes: map<string, NodeEntry>,
    signals: map<string, seq<Signal>>,
    karma: map<string, int>,
    processed: map<string, nat>)

  const START := State(map[], map[], map[], map[])

  const NODE_TIMEOUT := 60_000
  const MAX_SIGNALS := 50
  const UNKNOWN_CLIENT_LIMIT := 5_000
  const CLAIM_LIMIT := 100_000

  datatype Reply = Accepted
                 | TooManyRequests
                 | Batch(signals: seq<Signal>)
                 | Awarded(points: int, newBalance: int)
                 | Conflict
                 | Forbidden
                 | BadRequest

  // ---------------------------------------------------------------- pieces

  function QueueOf(st: State, id: string): seq<Signal> {
    if id in st.signals then st.signals[id] else []
  }

  function BalanceOf(st: State, id: string): int {
    if id in st.karma then st.karma[id] else 0
  }

  // duration_since saturates at zero.
  predicate IsActive(entry: NodeEntry, now: nat) {
    (if now >= entry.lastSeen then now - entry.lastSeen else 0) < NODE_TIMEOUT
  }

  function ReceiptKey(client: string, nonce: string, timestamp: nat): string {
    client + ":" + nonce + ":" + Decimal(timestamp)
  }

  function KeyOf(r: WorkReceipt): string {
    ReceiptKey(r.client, r.nonce, r.timestamp)
  }

  // Why a claim is refused, in the order the handler checks.
  function Refusal(st: State, r: WorkReceipt): Option<Reply> {
    if KeyOf(r) in st.processed then Some(Conflict)
    else if r.client !in st.nodes && r.tokens > UNKNOWN_CLIENT_LIMIT then Some(Forbidden)
    else if r.tokens == 0 || r.tokens > CLAIM_LIMIT then Some(BadRequest)
    else None
  }

  // ---------------------------------------------------------------- steps

  datatype Op = Register(info: PeerInfo)
              | Heartbeat(info: PeerInfo)
              | Deregister(id: Option<string>)
              | Send(signal: Signal)
              | Poll(nodeId: string)
              | Claim(receipt: WorkReceipt)
              | Tick

  function Contact(st: State, info: PeerInfo, now: nat): State {
    st.(nodes := st.nodes[info.nodeId := NodeEntry(info, now)])
  }

  function Stale(nodes: map<string, NodeEntry>, now: nat): set<string> {
    set id | id in nodes && !IsActive(nodes[id], now)
  }

  function Prune(st: State, now: nat): State {
    var stale := Stale(st.nodes, now);
    st.(nodes := st.nodes - stale, signals := st.signals - stale)
  }

  function Enqueue(st: State, signal: Signal): State {
    var queue := QueueOf(st, signal.toNode);
    st.(signals := st.signals[signal.toNode := if |queue| < MAX_SIGNALS then queue + [signal] else queue])
  }

  function Award(st: State, r: WorkReceipt, now: nat): State {
    st.(karma := st.karma[r.worker := BalanceOf(st, r.worker) + r.tokens],
        processed := st.processed[KeyOf(r) := now])
  }

  function Step(st: State, op: Op, now: nat): State {
    match op
    case Register(info) => Contact(st, info, now)
    case Heartbeat(info) => Contact(st, info, now)
    case Deregister(id) =>
      if id.None? then st else st.(nodes := st.nodes - {id.value}, signals := st.signals - {id.value})
    case Send(signal) => Enqueue(st, signal)
    case Poll(id) => st.(signals := st.signals - {id})
    case Claim(r) => if Refusal(st, r).Some? then st else Award(st, r, now)
    case Tick => Prune(st, now)
  }

  function ReplyTo(st: State, op: Op): Reply {
    match op
    case Send(signal) => if |QueueOf(st, signal.toNode)| < MAX_SIGNALS then Accepted else TooManyRequests
    case Poll(id) => Batch(QueueOf(st, id))
    case Claim(r) =>
      if Refusal(st, r).Some? then Refusal(st, r).value
      else Awarded(r.tokens, BalanceOf(st, r.worker) + r.tokens)
    case _ => Accepted
  }

  // ---------------------------------------------------------------- matchmaking

  datatype Tier = VipAlpha | Contributor | Community

  datatype RankedPeer = RankedPeer(nodeId: string, addr: string, karma: int)

  datatype Match = Match(swarm: string, total: nat, requesterKarma: int, tier: Tier, ranked: seq<RankedPeer>)

  function TierOf(karma: int): Tier {
    if karma >= 500 then VipAlpha else if karma > 0 then Contributor else Community
  }

  function PeerOf(st: State, id: string): RankedPeer
    requires id in st.nodes
  {
    var info := st.nodes[id].info;
    RankedPeer(info.nodeId, info.addr, BalanceOf(st, info.nodeId))
  }

  function KarmaKey(peer: RankedPeer): int {
    peer.karma
  }

  // An order in which the concurrent map may yield its keys.
  ghost predicate IsIteration(order: seq<string>, keys: set<string>) {
    (set id | id in order) == keys && forall i, j :: 0 <= i < j < |order| ==> order[i] != order[j]
  }

  function Peers(st: State, order: seq<string>): seq<RankedPeer>
    requires forall id :: id in order ==> id in st.nodes
  {
    seq(|order|, i requires 0 <= i < |order| => PeerOf(st, order[i]))
  }

  // ---------------------------------------------------------------- runs

  datatype Event = Event(time: nat, op: Op)

  function StateAfter(run: seq<Event>): State {
    if run == [] then START
    else
      var last := run[|run| - 1];
      Step(StateAfter(run[..|run| - 1]), last.op, last.time)
  }
}
