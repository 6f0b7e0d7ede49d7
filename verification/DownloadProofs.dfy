// What the resumable downloader promises: byte-exact resumption over whole histories of interrupted
// calls, provenance of the partial file, agreement of counter and file, bounds, and exit states.
module DownloadProofs {
  import opened Wrappers
  import opened Text
  import opened DownloadModel

  // ---------------------------------------------------------------- bounds

  function Pow2(n: nat): nat {
    if n == 0 then 1 else 2 * Pow2(n - 1)
  }

  lemma SendBounds(call: Call, offset: nat, max: nat, attempt: nat, delay: nat, sent: nat)
    requires attempt <= max
    ensures var r := Send(call, offset, max, attempt, delay, sent);
            && sent < r.sent <= sent + (max - attempt) + 1
            && r.backoff <= delay * (Pow2(max - attempt) - 1)
    decreases max - attempt
  {
    if attempt < max {
      SendBounds(call, offset, max, attempt + 1, 2 * delay, sent + 1);
      var p: int := Pow2(max - attempt - 1);
      Doubling(delay, p);
      assert 0 <= delay * (2 * p - 1);
    }
  }

  // Answers that send_with_retry tries again after: network errors, 429 and the server errors.
  predicate WorthRetrying(a: Answer) {
    a.NetworkError? || (a.Http? && (a.response.status == 429 || 500 <= a.response.status <= 599))
  }

  // What the answer that ends the retries makes of the request.
  predicate DecidedBy(a: Answer, outcome: SendOutcome) {
    match a
    case KilledWaiting => outcome.Died?
    case Http(r) => if 200 <= r.status < 300 then outcome == Got(r) else outcome.Refused?
    case NetworkError(_) => outcome.Refused?
  }

  // The request is decided by the first answer not worth retrying, or by the last one allowed; the
  // delay doubles after each answer before it.
  lemma {:induction false} SendStopsAt(call: Call, offset: nat, max: nat, attempt: nat, delay: nat, sent: nat, k: nat)
    requires attempt + k <= max
    requires forall j :: sent <= j < sent + k ==> WorthRetrying(call.server(j, offset).answer)
    requires attempt + k == max || !WorthRetrying(call.server(sent + k, offset).answer)
    ensures var r := Send(call, offset, max, attempt, delay, sent);
            && r.sent == sent + k + 1
            && r.backoff == delay * (Pow2(k) - 1)
            && DecidedBy(call.server(sent + k, offset).answer, r.outcome)
    decreases k
  {
    hide Send, WorthRetrying, DecidedBy;
    if k > 0 {
      SendRetries(call, offset, max, attempt, delay, sent);
      SendStopsAt(call, offset, max, attempt + 1, 2 * delay, sent + 1, k - 1);
      Doubling(delay, Pow2(k - 1));
    } else {
      SendSettles(call, offset, max, attempt, delay, sent);
    }
  }

  lemma SendRetries(call: Call, offset: nat, max: nat, attempt: nat, delay: nat, sent: nat)
    requires attempt < max && WorthRetrying(call.server(sent, offset).answer)
    ensures var r, rest := Send(call, offset, max, attempt, delay, sent),
                           Send(call, offset, max, attempt + 1, 2 * delay, sent + 1);
            r.sent == rest.sent && r.outcome == rest.outcome && r.backoff == delay + rest.backoff
  {
  }

  lemma SendSettles(call: Call, offset: nat, max: nat, attempt: nat, delay: nat, sent: nat)
    requires attempt <= max
    requires attempt == max || !WorthRetrying(call.server(sent, offset).answer)
    ensures var r := Send(call, offset, max, attempt, delay, sent);
            r.sent == sent + 1 && r.backoff == 0 && DecidedBy(call.server(sent, offset).answer, r.outcome)
  {
  }

  lemma Doubling(delay: int, p: int)
    ensures delay + 2 * delay * (p - 1) == delay * (2 * p - 1)
  {
  }

  // `send_with_retry(.., 3)`: at most 4 requests, at most 2 + 4 + 8 seconds asleep.
  lemma SendWithRetryBounds(call: Call, offset: nat, sent: nat)
    ensures var r := Send(call, offset, 3, 0, 2, sent); r.sent <= sent + 4 && r.backoff <= 14
  {
    SendBounds(call, offset, 3, 0, 2, sent);
    assert Pow2(3) == 8;
  }

  lemma RequestBounds(call: Call, s: Session)
    ensures var t := Request(call, s).session; t.sent <= s.sent + 8 && t.backoff <= s.backoff + 28
  {
    hide Send;
    SendWithRetryBounds(call, s.bytes, s.sent);
    var a := Send(call, s.bytes, 3, 0, 2, s.sent);
    SendWithRetryBounds(call, 0, a.sent);
  }

  lemma AttemptBounds(call: Call, s: Session)
    ensures var t := Attempt(call, s).session;
            t.sent <= s.sent + 8 && t.backoff <= s.backoff + 28
  {
    hide Request, Consume;
    if !s.cancelled {
      RequestBounds(call, s);
      var q := Request(call, s);
      if q.Proceed? {
        ConsumeFrame(Open(q.session, q.response), q.response.body);
      }
    }
  }

  lemma {:induction false} LoopBounds(call: Call, s: Session)
    ensures var t := RunLoop(call, s).session;
            && t.sent <= s.sent + 8 * (s.retriesLeft + 1)
            && t.backoff <= s.backoff + 28 * (s.retriesLeft + 1)
    decreases s.retriesLeft
  {
    AttemptBounds(call, s);
    if Attempt(call, s).Again? {
      AttemptCountsDown(call, s);
      LoopBounds(call, Attempt(call, s).session);
    }
  }

  // Whatever the server does, a call makes at most 8 requests per stream attempt and sleeps at most
  // 28 seconds of back-off per stream attempt.
  lemma CallBounds(call: Call, disk: Disk)
    ensures var t := RunCall(call, disk).session;
            && t.sent <= 8 * (call.streamRetries + 1)
            && t.backoff <= 28 * (call.streamRetries + 1)
  {
    LoopBounds(call, Start(call, disk));
  }

  // The session at the n-th head of the loop, if the call gets there.
  function LoopHead(call: Call, disk: Disk, n: nat): Option<Session> {
    if n == 0 then Some(Start(call, disk))
    else match LoopHead(call, disk, n - 1)
      case None => None
      case Some(s) => if Attempt(call, s).Again? then Some(Attempt(call, s).session) else None
  }

  // ---------------------------------------------------------------- counter and disk

  ghost predicate CounterAgrees(s: Session) {
    s.bytes > 0 ==> s.disk.partial.Some? && |s.disk.partial.value| == s.bytes
  }

  // The loop runs at most streamRetries + 1 times, and at each head a non-zero counter is the length
  // of the partial.
  lemma {:induction false} EveryLoopHeadAgrees(call: Call, disk: Disk, n: nat)
    ensures var h := LoopHead(call, disk, n);
            h.Some? ==> CounterAgrees(h.value) && h.value.retriesLeft + n == call.streamRetries
  {
    hide Attempt, Start;
    if n > 0 {
      EveryLoopHeadAgrees(call, disk, n - 1);
      var h := LoopHead(call, disk, n - 1);
      if h.Some? && Attempt(call, h.value).Again? {
        AttemptCountsDown(call, h.value);
        AgainAgrees(call, h.value);
      }
    } else {
      StartAgrees(call, disk);
    }
  }

  lemma StartAgrees(call: Call, disk: Disk)
    ensures CounterAgrees(Start(call, disk)) && Start(call, disk).retriesLeft == call.streamRetries
  {
  }

  // Another attempt starts from what is on disk.
  lemma AgainAgrees(call: Call, s: Session)
    requires Attempt(call, s).Again?
    ensures CounterAgrees(Attempt(call, s).session)
  {
    hide Request, Open, Consume;
  }

  lemma RequestKeepsCounter(call: Call, s: Session)
    requires CounterAgrees(s) && Request(call, s).Proceed?
    ensures CounterAgrees(Request(call, s).session)
  {
  }

  function Payload(body: seq<StreamEvent>): seq<Byte> {
    if body == [] then [] else (if body[0].Chunk? then body[0].data else []) + Payload(body[1..])
  }

  // Reading a body appends some prefix of its payload, and counts exactly what it appends.
  lemma {:induction false} ConsumeAppends(s: Session, body: seq<StreamEvent>)
    requires s.disk.partial.Some?
    ensures var c := Consume(s, body).session;
            && c.disk.partial.Some?
            && s.disk.partial.value <= c.disk.partial.value <= s.disk.partial.value + Payload(body)
            && c.bytes - s.bytes == |c.disk.partial.value| - |s.disk.partial.value|
    decreases |body|
  {
    if body != [] {
      match body[0]
      case UserCancels => ConsumeAppends(s.(cancelled := true), body[1..]);
      case Chunk(data) =>
        if !s.cancelled {
          ConsumeAppends(WriteChunk(s, data), body[1..]);
          assert s.disk.partial.value + data + Payload(body[1..]) == s.disk.partial.value + Payload(body);
        }
      case _ =>
    }
  }

  // After each event of a response read at any loop head, counter and file agree - for exactly the
  // replies 200 and 206, and for any other 2xx only when nothing had been downloaded before.
  lemma CounterAgreesAfterEveryChunk(call: Call, disk: Disk, n: nat, i: nat)
    requires LoopHead(call, disk, n).Some?
    requires Request(call, LoopHead(call, disk, n).value).Proceed?
    requires i <= |Request(call, LoopHead(call, disk, n).value).response.body|
    ensures var q := Request(call, LoopHead(call, disk, n).value);
            var c := Consume(Open(q.session, q.response), q.response.body[..i]).session;
            && c.disk.partial.Some?
            && (c.bytes == |c.disk.partial.value|
                <==> q.response.status == 200 || q.response.status == 206 || q.session.bytes == 0)
  {
    EveryLoopHeadAgrees(call, disk, n);
    var s := LoopHead(call, disk, n).value;
    RequestKeepsCounter(call, s);
    var q := Request(call, s);
    ConsumeAppends(Open(q.session, q.response), q.response.body[..i]);
  }

  // ---------------------------------------------------------------- promotion guard

  lemma {:induction false} LoopLeavesFinalAlone(call: Call, s: Session)
    ensures var r := RunLoop(call, s);
            && r.session.disk.final == s.disk.final
            && (r.Complete? ==> r.session.disk.partial.Some?)
    decreases s.retriesLeft
  {
    var q := Request(call, s);
    if q.Proceed? {
      ConsumeFrame(Open(q.session, q.response), q.response.body);
    }
    if Attempt(call, s).Again? {
      AttemptCountsDown(call, s);
      LoopLeavesFinalAlone(call, Attempt(call, s).session);
    }
  }

  // ---------------------------------------------------------------- exit states

  lemma FixedRefusals(r: Response, url: string)
    requires r.status in {401, 403, 404, 416, 429}
    ensures var m := RefusalMessage(r, url); m != "" && m[|m| - 1] == '.'
  {
    if r.status == 401 || r.status == 403 {
      var head := "Access denied (HTTP " + Decimal(r.status) + " " + r.reason;
      assert RefusalMessage(r, url) == head + GATED_HINT;
    }
  }

  lemma OtherRefusals(r: Response, url: string)
    requires r.status !in {401, 403, 404, 416, 429}
    ensures var m := RefusalMessage(r, url); m != "" && m[0] == 'H'
  {
    var tail := Decimal(r.status) + " " + r.reason + " for " + url;
    assert RefusalMessage(r, url) == "HTTP " + tail;
  }

  lemma MessagesAreNotCancellation(r: Response, url: string, attempts: nat, text: string)
    ensures RefusalMessage(r, url) != CANCELLED.message && GaveUpMessage(attempts, text) != CANCELLED.message
  {
    var c := CANCELLED.message;
    assert c[0] == 'D' && c[9] == 'c' && c[|c| - 1] == 'r';
    if r.status in {401, 403, 404, 416, 429} {
      FixedRefusals(r, url);
    } else {
      OtherRefusals(r, url);
    }
    var tail := Decimal(attempts) + " attempts: " + text;
    assert GaveUpMessage(attempts, text) == "Download failed after " + tail;
    assert ("Download failed after " + tail)[9] == 'f';
  }

  lemma RefusalIsNotCancellation(call: Call, offset: nat, attempt: nat, delay: nat, sent: nat)
    requires attempt <= 3
    ensures var r := Send(call, offset, 3, attempt, delay, sent).outcome;
            r.Refused? ==> DownloadError(r.message) != CANCELLED
    decreases 3 - attempt
  {
    if attempt < 3 {
      RefusalIsNotCancellation(call, offset, attempt + 1, 2 * delay, sent + 1);
    }
    match call.server(sent, offset).answer
    case Http(r) => MessagesAreNotCancellation(r, call.url, 4, "");
    case NetworkError(text) => MessagesAreNotCancellation(Response(0, "", None, None, false, []), "", 4, text);
    case KilledWaiting =>
  }

  ghost predicate MetaOnDisk(call: Call, s: Session) {
    s.disk.metaFile == Readable(s.meta) && s.meta.url == call.url
  }

  ghost predicate Removed(disk: Disk) {
    disk.partial == None && disk.metaFile == Absent
  }

  // What an exit from the loop leaves behind.
  ghost predicate ExitState(call: Call, s: Session, exit: Exit) {
    match exit
    case Done => false
    case Killed => MetaOnDisk(call, s) || (call.crash == DuringCleanup && s.disk.metaFile == Absent)
    case Failed(DownloadInterrupted(_)) => MetaOnDisk(call, s) && s.disk.partial.Some?
    case Failed(IntegrityError(_, _)) => false
    case Failed(DownloadError(_)) =>
      if exit.error == CANCELLED then Removed(s.disk) else MetaOnDisk(call, s) || Removed(s.disk)
  }

  lemma RequestExits(call: Call, s: Session)
    requires MetaOnDisk(call, s)
    ensures var q := Request(call, s);
            if q.Stop? then ExitState(call, q.session, q.exit) else MetaOnDisk(call, q.session)
  {
    hide Send, RefusalMessage, ErrorText;
    RefusalIsNotCancellation(call, s.bytes, 0, 2, s.sent);
    var a := Send(call, s.bytes, 3, 0, 2, s.sent);
    RefusalIsNotCancellation(call, 0, 0, 2, a.sent);
  }

  lemma AttemptExits(call: Call, s: Session)
    requires MetaOnDisk(call, s)
    ensures var step := Attempt(call, s);
            if step.Exited? then ExitState(call, step.session, step.exit) else MetaOnDisk(call, step.session)
  {
    hide Request, Consume, AdvertisedTotal;
    if !s.cancelled {
      RequestExits(call, s);
      var q := Request(call, s);
      if q.Proceed? {
        ConsumeFrame(Open(q.session, q.response), q.response.body);
      }
    }
  }

  lemma {:induction false} LoopExits(call: Call, s: Session)
    requires MetaOnDisk(call, s)
    ensures var r := RunLoop(call, s);
            if r.Exited? then ExitState(call, r.session, r.exit) else MetaOnDisk(call, r.session)
    decreases s.retriesLeft
  {
    AttemptExits(call, s);
    if Attempt(call, s).Again? {
      AttemptCountsDown(call, s);
      LoopExits(call, Attempt(call, s).session);
    }
  }

  // Whatever any server answers, the finished file only changes by a promotion; whether or not the
  // process survives it, what is promoted is the whole partial as the loop left it, has the expected
  // checksum, and is at least as long as the last known size.
  lemma PromotionGuard(call: Call, disk: Disk)
    ensures var r := RunCall(call, disk);
            && (r.session.disk.final != disk.final ==>
                  r.exit == Done || (r.exit == Killed && call.crash == AfterRename))
            && (r.exit == Done || r.session.disk.final != disk.final ==>
                  && r.session.disk.final.Some?
                  && RunLoop(call, Start(call, disk)).Complete?
                  && RunLoop(call, Start(call, disk)).session.disk.partial == r.session.disk.final
                  && (call.expectedSha256.Some? ==>
                        ToLower(call.sha256(r.session.disk.final.value)) == ToLower(call.expectedSha256.value))
                  && (r.session.knownTotal.Some? ==>
                        r.session.knownTotal.value <= |r.session.disk.final.value|))
  {
    LoopLeavesFinalAlone(call, Start(call, disk));
    LoopExits(call, Start(call, disk));
  }

  // The files each kind of exit leaves: a finished file and nothing else; a partial and a meta naming
  // this URL; or no trace of the download.
  lemma ExitStates(call: Call, disk: Disk)
    ensures var r := RunCall(call, disk);
            match r.exit
            case Done => Removed(r.session.disk) && r.session.disk.final.Some?
            case Killed =>
              || call.crash == DuringDiscard || call.crash == BeforeMetaWrite || MetaOnDisk(call, r.session)
              || (call.crash == DuringCleanup && r.session.disk.metaFile == Absent
                  && r.session.disk.final == disk.final)
            case Failed(DownloadInterrupted(id)) =>
              && id == call.modelId && r.session.disk.partial.Some? && MetaOnDisk(call, r.session)
              && r.session.disk.final == disk.final
            case Failed(IntegrityError(_, _)) => Removed(r.session.disk) && r.session.disk.final == disk.final
            case Failed(DownloadError(_)) =>
              && r.session.disk.final == disk.final
              && (Removed(r.session.disk) || (r.exit.error != CANCELLED && MetaOnDisk(call, r.session)))
  {
    var s0 := Start(call, disk);
    LoopExits(call, s0);
    LoopLeavesFinalAlone(call, s0);
    LoopInterruptNamesModel(call, s0);
  }

  lemma {:induction false} LoopInterruptNamesModel(call: Call, s: Session)
    ensures var r := RunLoop(call, s);
            r.Exited? && r.exit.Failed? && r.exit.error.DownloadInterrupted? ==> r.exit.error.modelId == call.modelId
    decreases s.retriesLeft
  {
    if Attempt(call, s).Again? {
      AttemptCountsDown(call, s);
      LoopInterruptNamesModel(call, Attempt(call, s).session);
    }
  }

  // ---------------------------------------------------------------- faithful servers

  predicate IsSuccess(status: nat) {
    200 <= status < 300
  }

  // The body is a prefix of the source: of the part from the offset on for a 206 (RFC 9110, section
  // 15.3.7), of the whole source for any other success.
  ghost predicate FaithfulBody(r: Response, offset: nat, source: seq<Byte>) {
    if r.status == 206 then offset <= |source| && Payload(r.body) <= source[offset..]
    else Payload(r.body) <= source
  }

  ghost predicate FaithfulServer(server: Server, source: seq<Byte>) {
    forall k, offset ::
      var a := server(k, offset).answer;
      a.Http? && IsSuccess(a.response.status) ==> FaithfulBody(a.response, offset, source)
  }

  // The response reveals the full size: in Content-Range, or else through Content-Length (RFC 9110,
  // sections 14.4 and 8.6).
  ghost predicate RevealsSize(r: Response, offset: nat, size: nat) {
    if r.status == 206 then
      if r.contentRange.Some? && ParseContentRangeTotal(r.contentRange.value).Some?
      then ParseContentRangeTotal(r.contentRange.value) == Some(size)
      else offset <= size && r.contentLength == Some(size - offset)
    else r.contentLength == Some(size)
  }

  ghost predicate SizedServer(server: Server, size: nat) {
    && size < U64
    && forall k, offset ::
         var a := server(k, offset).answer;
         a.Http? && IsSuccess(a.response.status) ==> RevealsSize(a.response, offset, size)
  }

  lemma SendGot(call: Call, offset: nat, max: nat, attempt: nat, delay: nat, sent: nat) returns (k: nat)
    requires attempt <= max && Send(call, offset, max, attempt, delay, sent).outcome.Got?
    ensures var r := Send(call, offset, max, attempt, delay, sent).outcome.response;
            IsSuccess(r.status) && call.server(k, offset).answer == Http(r)
    decreases max - attempt
  {
    var a := call.server(sent, offset).answer;
    if a.Http? && IsSuccess(a.response.status) {
      k := sent;
    } else {
      k := SendGot(call, offset, max, attempt + 1, 2 * delay, sent + 1);
    }
  }

  // The response that the loop reads is an answer to a request for its current offset.
  lemma RequestGot(call: Call, s: Session) returns (k: nat)
    requires Request(call, s).Proceed?
    ensures var q := Request(call, s);
            && IsSuccess(q.response.status)
            && call.server(k, q.session.bytes).answer == Http(q.response)
            && q.session == s.(disk := q.session.disk, bytes := q.session.bytes, sent := q.session.sent,
                               backoff := q.session.backoff, cancelled := q.session.cancelled)
            && (|| (q.session.bytes == s.bytes && q.session.disk == s.disk)
                || (q.session.bytes == 0 && q.session.disk == s.disk.(partial := None)))
  {
    var a := Send(call, s.bytes, 3, 0, 2, s.sent);
    if a.outcome.Got? {
      k := SendGot(call, s.bytes, 3, 0, 2, s.sent);
    } else {
      k := SendGot(call, 0, 3, 0, 2, a.sent);
    }
  }

  // ---------------------------------------------------------------- resumption

  ghost predicate PartialOf(disk: Disk, source: seq<Byte>) {
    disk.partial.Some? ==> disk.partial.value <= source
  }

  ghost predicate Sound(call: Call, s: Session, source: seq<Byte>) {
    CounterAgrees(s) && PartialOf(s.disk, source) && MetaOnDisk(call, s)
  }

  lemma PrefixExtends(a: seq<Byte>, p: seq<Byte>, source: seq<Byte>)
    requires a <= source && p <= source[|a|..]
    ensures a + p <= source
  {
    assert source == a + source[|a|..];
  }

  // Reading a faithful response keeps the partial a prefix of the source.
  lemma BodyKeepsPrefix(call: Call, s: Session, r: Response, source: seq<Byte>)
    requires Sound(call, s, source) && FaithfulBody(r, s.bytes, source)
    ensures var c := Consume(Open(s, r), r.body).session;
            && c.disk.partial.Some? && c.disk.partial.value <= source
            && MetaOnDisk(call, c)
            && c.knownTotal == Open(s, r).knownTotal
  {
    var o := Open(s, r);
    ConsumeFrame(o, r.body);
    ConsumeAppends(o, r.body);
    assert source[0..] == source;
    PrefixExtends(o.disk.partial.value, Payload(r.body), source);
    var c := Consume(o, r.body).session.disk.partial.value;
    assert c <= o.disk.partial.value + Payload(r.body) <= source;
  }

  // Any response the loop reads keeps the partial a prefix, and a sized one settles the total.
  lemma ResponseSound(call: Call, s: Session, source: seq<Byte>)
    requires Sound(call, s, source) && FaithfulServer(call.server, source) && Request(call, s).Proceed?
    ensures var q := Request(call, s);
            var c := Consume(Open(q.session, q.response), q.response.body).session;
            && c.disk.partial.Some? && c.disk.partial.value <= source
            && MetaOnDisk(call, c)
            && (SizedServer(call.server, |source|) ==> c.knownTotal == Some(|source|))
  {
    hide Consume, Request;
    var q := Request(call, s);
    var k := RequestGot(call, s);
    assert FaithfulBody(call.server(k, q.session.bytes).answer.response, q.session.bytes, source);
    BodyKeepsPrefix(call, q.session, q.response, source);
    if SizedServer(call.server, |source|) {
      assert RevealsSize(call.server(k, q.session.bytes).answer.response, q.session.bytes, |source|);
    }
  }

  // Until a response is opened the partial is kept or removed as a whole.
  lemma UnopenedKeepsPartial(call: Call, s: Session)
    ensures var d := Request(call, s).session.disk; d.partial == s.disk.partial || d.partial == None
    ensures Request(call, s).Proceed? ==>
              Learn(Request(call, s).session, Request(call, s).response).disk.partial
              == Request(call, s).session.disk.partial
  {
    hide Send;
  }

  lemma AttemptSound(call: Call, s: Session, source: seq<Byte>)
    requires Sound(call, s, source) && FaithfulServer(call.server, source)
    ensures var step := Attempt(call, s);
            && PartialOf(step.session.disk, source)
            && (step.Again? ==> Sound(call, step.session, source))
            && (step.Complete? && SizedServer(call.server, |source|) ==> step.session.knownTotal == Some(|source|))
  {
    hide Request, Open, Learn, Consume, FaithfulServer, SizedServer;
    if !s.cancelled {
      UnopenedKeepsPartial(call, s);
      if Request(call, s).Proceed? {
        ResponseSound(call, s, source);
      }
    }
  }

  lemma {:induction false} LoopSound(call: Call, s: Session, source: seq<Byte>)
    requires Sound(call, s, source) && FaithfulServer(call.server, source)
    ensures var r := RunLoop(call, s);
            && PartialOf(r.session.disk, source)
            && (r.Complete? && SizedServer(call.server, |source|) ==> r.session.knownTotal == Some(|source|))
    decreases s.retriesLeft
  {
    AttemptSound(call, s, source);
    if Attempt(call, s).Again? {
      AttemptCountsDown(call, s);
      LoopSound(call, Attempt(call, s).session, source);
    }
  }

  // ---------------------------------------------------------------- provenance over whole histories

  // What every URL serves.
  type Sources = string -> seq<Byte>

  // A non-empty partial has a readable meta, and its bytes are the first bytes of that meta's URL.
  ghost predicate Traceable(disk: Disk, sources: Sources) {
    PartialLen(disk) > 0 ==>
      disk.metaFile.Readable? && disk.partial.value <= sources(disk.metaFile.meta.url)
  }

  // Bytes without a readable meta.
  predicate Bare(disk: Disk) {
    PartialLen(disk) > 0 && !disk.metaFile.Readable?
  }

  // The bytes are the first bytes of the URL that the meta names or, failing a meta, of the given one.
  ghost predicate Suits(disk: Disk, sources: Sources, url: string) {
    PartialLen(disk) > 0 ==>
      disk.partial.value <= sources(if disk.metaFile.Readable? then disk.metaFile.meta.url else url)
  }

  lemma PromoteSound(call: Call, s: Session, source: seq<Byte>)
    requires PartialOf(s.disk, source) && s.disk.partial.Some?
    ensures var (p, exit) := Promote(call, s);
            && PartialOf(p.disk, source)
            && (p.disk.partial.Some? ==>
                  || p.disk.metaFile == s.disk.metaFile
                  || (exit == Killed && call.crash == DuringCleanup && p.disk.metaFile == Absent))
            && (exit == Done ==> s.knownTotal.Some? ==> s.knownTotal.value <= |source|)
            && (exit == Done || p.disk.final != s.disk.final ==> p.disk.final.Some? && p.disk.final.value <= source)
            && (s.knownTotal == Some(|source|) ==>
                  && (p.disk.final == s.disk.final || p.disk.final == Some(source))
                  && (exit == Done ==> p.disk.final == Some(source)))
  {
    var content := s.disk.partial.value;
    assert |content| == |source| ==> content == source;
  }

  // One call, however it ends or dies, leaves bytes of the URL its meta names or, without a meta, of its
  // own; without a meta only if it was killed in a cleanup, or before it could write one. What it
  // finishes is the head of the source of its URL, and if sizes are revealed, exactly that source.
  lemma CallKeepsProvenance(call: Call, disk: Disk, sources: Sources)
    requires Suits(disk, sources, call.url) && FaithfulServer(call.server, sources(call.url))
    ensures var r := RunCall(call, disk);
            && Suits(r.session.disk, sources, call.url)
            && (Bare(r.session.disk) ==> r.exit == Killed && (call.crash == DuringCleanup || Bare(disk)))
            && (r.exit == Done || r.session.disk.final != disk.final ==>
                  r.session.disk.final.Some? && r.session.disk.final.value <= sources(call.url))
            && (SizedServer(call.server, |sources(call.url)|) ==>
                  && (r.session.disk.final == disk.final || r.session.disk.final == Some(sources(call.url)))
                  && (r.exit == Done ==> r.session.disk.final == Some(sources(call.url))))
  {
    hide RunLoop, FaithfulServer, SizedServer;
    var source := sources(call.url);
    var s0 := Start(call, disk);
    assert Sound(call, s0, source);
    LoopSound(call, s0, source);
    LoopExits(call, s0);
    LoopLeavesFinalAlone(call, s0);
    var r := RunLoop(call, s0);
    if r.Complete? {
      PromoteSound(call, r.session, source);
    }
  }

  // Bytes without a meta are bytes of the next URL asked if and only if they are a prefix of its source.
  lemma AdoptionIsSoundIff(call: Call, disk: Disk, sources: Sources)
    requires Bare(disk)
    ensures Traceable(Start(call, disk).disk, sources) <==> disk.partial.value <= sources(call.url)
  {
  }

  // The files after a history of calls.
  function DiskFrom(disk: Disk, calls: seq<Call>): Disk {
    if calls == [] then disk
    else RunCall(calls[|calls| - 1], DiskFrom(disk, calls[..|calls| - 1])).session.disk
  }

  // The same, starting from an empty directory.
  function DiskAfter(calls: seq<Call>): Disk {
    DiskFrom(EMPTY_DISK, calls)
  }

  ghost predicate FaithfulHistory(calls: seq<Call>, sources: Sources) {
    forall i :: 0 <= i < |calls| ==> FaithfulServer(calls[i].server, sources(calls[i].url))
  }

  ghost predicate SizedHistory(calls: seq<Call>, sources: Sources) {
    forall i :: 0 <= i < |calls| ==> SizedServer(calls[i].server, |sources(calls[i].url)|)
  }

  // Bytes found without a meta are the first bytes of the URL asked for.
  ghost predicate AdoptsOwn(calls: seq<Call>, sources: Sources) {
    forall i :: 0 <= i < |calls| && Bare(DiskAfter(calls[..i])) ==>
      DiskAfter(calls[..i]).partial.value <= sources(calls[i].url)
  }

  lemma PrefixAdopts(calls: seq<Call>, sources: Sources, n: nat)
    requires n <= |calls| && AdoptsOwn(calls, sources) && FaithfulHistory(calls, sources)
    ensures AdoptsOwn(calls[..n], sources) && FaithfulHistory(calls[..n], sources)
  {
    hide DiskAfter, FaithfulServer;
    var before := calls[..n];
    forall i | 0 <= i < n && Bare(DiskAfter(before[..i]))
      ensures DiskAfter(before[..i]).partial.value <= sources(before[i].url)
    {
      assert before[..i] == calls[..i];
    }
  }

  // Between calls - for any mix of URLs, interruptions, cancellations and kills, even in a cleanup - the
  // bytes on disk come from the URL the meta names or, where a kill left none, from that of the last call.
  lemma {:induction false} ProvenanceOverHistories(calls: seq<Call>, sources: Sources)
    requires FaithfulHistory(calls, sources) && AdoptsOwn(calls, sources)
    ensures Traceable(DiskAfter(calls), sources) <==> !Bare(DiskAfter(calls))
    ensures calls != [] ==> Suits(DiskAfter(calls), sources, calls[|calls| - 1].url)
    ensures calls == [] ==> DiskAfter(calls) == EMPTY_DISK
    decreases |calls|, 0
  {
    hide RunCall, AdoptsOwn;
    if calls != [] {
      var n := |calls| - 1;
      SuitsNextCall(calls, sources, n);
      CallKeepsProvenance(calls[n], DiskAfter(calls[..n]), sources);
    }
  }

  lemma SuitsNextCall(calls: seq<Call>, sources: Sources, n: nat)
    requires n < |calls| && FaithfulHistory(calls, sources) && AdoptsOwn(calls, sources)
    ensures Suits(DiskAfter(calls[..n]), sources, calls[n].url)
    decreases n, 1
  {
    hide RunCall, DiskAfter;
    PrefixAdopts(calls, sources, n);
    ProvenanceOverHistories(calls[..n], sources);
  }

  // Every call of a faithful history starts from bytes of the URL its meta names, if and only if bytes
  // found without a meta are always of the URL asked for.
  lemma StartsAreTraceableIff(calls: seq<Call>, sources: Sources)
    requires FaithfulHistory(calls, sources)
    ensures (forall n :: 0 <= n < |calls| ==> Traceable(Start(calls[n], DiskAfter(calls[..n])).disk, sources))
            <==> AdoptsOwn(calls, sources)
  {
    hide DiskAfter, FaithfulHistory, Start;
    forall n | 0 <= n < |calls| && Bare(DiskAfter(calls[..n]))
      ensures Traceable(Start(calls[n], DiskAfter(calls[..n])).disk, sources)
              <==> DiskAfter(calls[..n]).partial.value <= sources(calls[n].url)
    {
      AdoptionIsSoundIff(calls[n], DiskAfter(calls[..n]), sources);
    }
    if AdoptsOwn(calls, sources) {
      forall n | 0 <= n < |calls| ensures Traceable(Start(calls[n], DiskAfter(calls[..n])).disk, sources) {
        SuitsNextCall(calls, sources, n);
        SuitsStart(calls[n], DiskAfter(calls[..n]), sources);
      }
    }
  }

  lemma SuitsStart(call: Call, disk: Disk, sources: Sources)
    requires Suits(disk, sources, call.url)
    ensures Traceable(Start(call, disk).disk, sources)
  {
  }

  // Whenever a call leaves bytes without a meta, the next call is for the same URL.
  ghost predicate SameUrlAfterBare(calls: seq<Call>) {
    forall i :: 0 < i < |calls| && Bare(DiskAfter(calls[..i])) ==> calls[i].url == calls[i - 1].url
  }

  // That is enough.
  lemma {:induction false} SameUrlIsEnough(calls: seq<Call>, sources: Sources)
    requires FaithfulHistory(calls, sources) && SameUrlAfterBare(calls)
    ensures AdoptsOwn(calls, sources)
  {
    hide RunCall, DiskAfter, SameUrlAfterBare, Suits, Traceable, Bare;
    if calls != [] {
      var n := |calls| - 1;
      var before := calls[..n];
      SameUrlBefore(calls, n);
      SameUrlIsEnough(before, sources);
      ProvenanceOverHistories(before, sources);
      NothingBare();
      OneMoreAdopts(calls, sources);
    }
  }

  lemma SameUrlBefore(calls: seq<Call>, n: nat)
    requires n <= |calls| && SameUrlAfterBare(calls)
    ensures SameUrlAfterBare(calls[..n])
  {
    hide DiskAfter;
    forall i | 0 < i < n && Bare(DiskAfter(calls[..n][..i])) ensures calls[..n][i].url == calls[..n][i - 1].url {
      assert calls[..n][..i] == calls[..i];
    }
  }

  lemma OneMoreAdopts(calls: seq<Call>, sources: Sources)
    requires calls != [] && !Bare(DiskAfter([]))
    requires var before := calls[..|calls| - 1];
             && AdoptsOwn(before, sources) && SameUrlAfterBare(calls)
             && (before != [] ==> Suits(DiskAfter(before), sources, before[|before| - 1].url))
    ensures AdoptsOwn(calls, sources)
  {
    hide DiskAfter;
    var n := |calls| - 1;
    var before := calls[..n];
    forall i | 0 <= i <= n && Bare(DiskAfter(calls[..i]))
      ensures DiskAfter(calls[..i]).partial.value <= sources(calls[i].url)
    {
      assert i < n ==> before[..i] == calls[..i] && before[i] == calls[i];
    }
  }

  lemma NothingBare()
    ensures !Bare(DiskAfter([]))
  {
  }

  // Without a kill in a cleanup no call ever leaves bytes without a meta.
  lemma {:induction false} BareOnlyAfterCleanupKill(calls: seq<Call>)
    requires forall i :: 0 <= i < |calls| ==> calls[i].crash != DuringCleanup
    ensures !Bare(DiskAfter(calls))
  {
    hide RunCall;
    if calls != [] {
      var n := |calls| - 1;
      BareOnlyAfterCleanupKill(calls[..n]);
      CallLeavesMeta(calls[n], DiskAfter(calls[..n]));
    }
  }

  // So without such kills the condition on the adopted bytes holds by itself.
  lemma NoCleanupKill(calls: seq<Call>, sources: Sources)
    requires forall i :: 0 <= i < |calls| ==> calls[i].crash != DuringCleanup
    ensures AdoptsOwn(calls, sources)
  {
    hide DiskAfter;
    forall i | 0 <= i < |calls| ensures !Bare(DiskAfter(calls[..i])) {
      BareOnlyAfterCleanupKill(calls[..i]);
    }
  }

  lemma CallLeavesMeta(call: Call, disk: Disk)
    requires call.crash != DuringCleanup && !Bare(disk)
    ensures !Bare(RunCall(call, disk).session.disk)
  {
    hide RunLoop;
    LoopExits(call, Start(call, disk));
  }

  // Resume correctness: if every server is faithful and reveals its size, each call of a history
  // that returns Ok promotes exactly the bytes of its URL, and no call ever leaves any other file.
  lemma ResumedDownloadsAreExact(calls: seq<Call>, sources: Sources, n: nat)
    requires n < |calls| && FaithfulHistory(calls, sources) && SizedHistory(calls, sources)
    requires AdoptsOwn(calls, sources)
    ensures var before := DiskAfter(calls[..n]);
            var r := RunCall(calls[n], before);
            && r.session.disk == DiskAfter(calls[..n + 1])
            && (r.exit == Done ==> r.session.disk.final == Some(sources(calls[n].url)))
            && (r.session.disk.final == before.final || r.session.disk.final == Some(sources(calls[n].url)))
  {
    hide RunCall;
    SuitsNextCall(calls, sources, n);
    CallKeepsProvenance(calls[n], DiskAfter(calls[..n]), sources);
    assert calls[..n + 1][..n] == calls[..n];
  }

  // Whether or not sizes are revealed, what a call of a faithful history finishes is the head of the
  // source of its URL.
  lemma FinishedFilesAreHeads(calls: seq<Call>, sources: Sources, n: nat)
    requires n < |calls| && FaithfulHistory(calls, sources) && AdoptsOwn(calls, sources)
    ensures var before := DiskAfter(calls[..n]);
            var r := RunCall(calls[n], before);
            r.exit == Done || r.session.disk.final != before.final ==>
              r.session.disk.final.Some? && r.session.disk.final.value <= sources(calls[n].url)
  {
    hide RunCall, DiskAfter;
    SuitsNextCall(calls, sources, n);
    CallKeepsProvenance(calls[n], DiskAfter(calls[..n]), sources);
  }

  // The plan throws bytes away exactly when a readable meta names another URL.
  lemma BytesDiscardedOnlyForAnotherUrl(call: Call, disk: Disk)
    ensures PartialLen(AfterPlan(call, disk)) < PartialLen(disk)
            <==> PartialLen(disk) > 0 && disk.metaFile.Readable? && disk.metaFile.meta.url != call.url
    ensures PartialLen(AfterPlan(call, disk)) < PartialLen(disk) || AfterPlan(call, disk) == disk
    ensures Start(call, disk).bytes == PartialLen(AfterPlan(call, disk))
  {
  }

  // A 206 that carries the whole rest of the source and reveals the true size.
  ghost predicate RestReply(r: Response, offset: nat, source: seq<Byte>) {
    && offset <= |source| < U64
    && r.status == 206 && !r.killedUnopened && r.body == [Chunk(source[offset..])]
    && RevealsSize(r, offset, |source|)
  }

  lemma RestArrives(s: Session, r: Response, source: seq<Byte>)
    requires 0 < s.bytes && CounterAgrees(s) && !s.cancelled && RestReply(r, s.bytes, source)
    ensures Consume(Open(s, r), r.body) == Consumed(WriteChunk(Open(s, r), source[s.bytes..]), CleanEnd)
    ensures var o := Open(s, r);
            o.knownTotal == Some(|source|) && o.bytes == s.bytes && o.disk.partial == s.disk.partial
  {
    assert r.body[1..] == [];
  }

  lemma RestCompletes(call: Call, s: Session, r: Response, source: seq<Byte>)
    requires 0 < s.bytes && CounterAgrees(s) && !s.cancelled && RestReply(r, s.bytes, source)
    requires call.server(s.sent, s.bytes) == Exchange(false, Http(r))
    ensures var step := Attempt(call, s);
            && step.Complete? && step.session.knownTotal == Some(|source|)
            && step.session.disk.partial == Some(s.disk.partial.value + source[s.bytes..])
            && step.session.sent == s.sent + 1
  {
    var q := Request(call, s);
    assert q.Proceed? && q.response == r && q.session.bytes == s.bytes && q.session.disk == s.disk;
    RestArrives(q.session, r, source);
  }

  // An interrupted download whose server now sends the rest is finished by a single request, whatever
  // the checksum function, as long as the expected checksum is that of the source.
  lemma ResumeTakesOneRequest(call: Call, n: nat, meta: PartialMeta, r: Response, source: seq<Byte>)
    requires 0 < n <= |source| && meta.url == call.url && RestReply(r, n, source)
    requires call.server(0, n) == Exchange(false, Http(r)) && call.crash == Nowhere && !call.cancelledEarly
    requires call.expectedSha256.Some? ==> call.expectedSha256.value == call.sha256(source)
    ensures var result := RunCall(call, Disk(Some(source[..n]), Readable(meta), None));
            result.exit == Done && result.session.disk.final == Some(source) && result.session.sent == 1
  {
    hide Start, Attempt, Promote, RestReply, Consume, Open, Request;
    var disk := Disk(Some(source[..n]), Readable(meta), None);
    StartContinues(call, disk);
    var s0 := Start(call, disk);
    RestCompletes(call, s0, r, source);
    assert source[..n] + source[n..] == source;
    assert RunLoop(call, s0) == Attempt(call, s0);
    PromoteWhole(call, Attempt(call, s0).session, source);
  }

  // Bytes with a meta naming this URL, or with no meta, are continued.
  lemma StartContinues(call: Call, disk: Disk)
    requires PartialLen(disk) > 0
    requires disk.metaFile.Readable? ==> disk.metaFile.meta.url == call.url
    ensures var s := Start(call, disk);
            && s.bytes == PartialLen(disk) && s.disk.partial == disk.partial
            && s.cancelled == call.cancelledEarly && s.sent == 0
  {
  }

  lemma PromoteWhole(call: Call, s: Session, content: seq<Byte>)
    requires s.disk.partial == Some(content) && call.crash == Nowhere
    requires s.knownTotal.Some? ==> s.knownTotal.value <= |content|
    requires call.expectedSha256.Some? ==> call.expectedSha256.value == call.sha256(content)
    ensures var (p, exit) := Promote(call, s);
            exit == Done && p.disk.final == Some(content) && p.sent == s.sent
  {
  }

  lemma RestIsLongEnough(foreign: seq<Byte>, r: Response, source: seq<Byte>)
    requires RestReply(r, |foreign|, source)
    ensures |foreign| <= |source| && |foreign + source[|foreign|..]| == |source|
  {
  }

  // A cancelled call that is killed between the two removals of its cleanup leaves its bytes bare.
  lemma CleanupKillLeavesBare(call: Call, bytes: seq<Byte>, meta: PartialMeta)
    requires bytes != [] && meta.url == call.url && call.cancelledEarly && call.crash == DuringCleanup
    ensures RunCall(call, Disk(Some(bytes), Readable(meta), None)).session.disk == Disk(Some(bytes), Absent, None)
  {
  }

  // A next call for another URL continues them as its own - a faithful reply that reveals the true size
  // then completes a file that starts with the other source's bytes.
  lemma OrphanedPartialIsAdopted(first: Call, meta: PartialMeta, call: Call, foreign: seq<Byte>, r: Response,
                                  source: seq<Byte>)
    requires foreign != [] && meta.url == first.url && first.cancelledEarly && first.crash == DuringCleanup
    requires RestReply(r, |foreign|, source) && call.server(0, |foreign|) == Exchange(false, Http(r))
    requires call.crash == Nowhere && !call.cancelledEarly && call.expectedSha256.None?
    ensures var left := RunCall(first, Disk(Some(foreign), Readable(meta), None)).session.disk;
            var result := RunCall(call, left);
            && result.exit == Done
            && result.session.disk.final == Some(foreign + source[|foreign|..])
  {
    hide RunLoop, Start, Attempt, Promote, RestReply, Consume, Open, Request, RunCall;
    CleanupKillLeavesBare(first, foreign, meta);
    BareBytesAreContinued(call, foreign, r, source);
  }

  lemma BareBytesAreContinued(call: Call, foreign: seq<Byte>, r: Response, source: seq<Byte>)
    requires foreign != []
    requires RestReply(r, |foreign|, source) && call.server(0, |foreign|) == Exchange(false, Http(r))
    requires call.crash == Nowhere && !call.cancelledEarly && call.expectedSha256.None?
    ensures var result := RunCall(call, Disk(Some(foreign), Absent, None));
            && result.exit == Done
            && result.session.disk.final == Some(foreign + source[|foreign|..])
  {
    hide Start, Attempt, Promote, RestReply, Consume, Open, Request;
    var disk := Disk(Some(foreign), Absent, None);
    StartContinues(call, disk);
    var s0 := Start(call, disk);
    RestCompletes(call, s0, r, source);
    RestIsLongEnough(foreign, r, source);
    assert RunLoop(call, s0) == Attempt(call, s0);
    PromoteWhole(call, Attempt(call, s0).session, foreign + source[|foreign|..]);
  }

  // ---------------------------------------------------------------- a complete partial

  // A server that answers ranges as RFC 9110 has it: 200 without a range, 206 with the rest (section
  // 15.3.7), and 416 for a range that starts at or past the end (section 15.5.17).
  function RangeServer(source: seq<Byte>): Server {
    (k: nat, offset: nat) =>
      Exchange(false, Http(
        if offset == 0 then Response(200, "OK", None, Some(|source|), false, [Chunk(source)])
        else if offset < |source| then
          Response(206, "Partial Content", None, Some(|source| - offset), false, [Chunk(source[offset..])])
        else Response(416, "Range Not Satisfiable", None, None, false, [])))
  }

  // A partial that is complete already - left by a kill before the promotion - is not promoted: the
  // request for what follows it is refused, all bytes are dropped, and the file is fetched again.
  lemma CompletePartialIsRefetched(call: Call, meta: PartialMeta, source: seq<Byte>)
    requires source != [] && meta.url == call.url && call.server == RangeServer(source)
    requires call.crash == Nowhere && !call.cancelledEarly
    requires call.expectedSha256.Some? ==> call.expectedSha256.value == call.sha256(source)
    ensures var disk := Disk(Some(source), Readable(meta), None);
            var q := Request(call, Start(call, disk));
            && q.Proceed? && q.session.disk.partial == None && q.session.bytes == 0
            && var r := RunCall(call, disk);
               r.exit == Done && r.session.disk.final == Some(source) && r.session.sent == 2
  {
    hide Start, Promote;
    var disk := Disk(Some(source), Readable(meta), None);
    StartContinues(call, disk);
    var s0 := Start(call, disk);
    RefusedThenWhole(call, s0, source);
    assert RunLoop(call, s0) == Attempt(call, s0);
    PromoteWhole(call, Attempt(call, s0).session, source);
  }

  // The request for the rest drops the bytes if and only if nothing is missing any more.
  lemma RequestDropsIffComplete(call: Call, meta: PartialMeta, source: seq<Byte>, n: nat)
    requires 0 < n <= |source| && meta.url == call.url && call.server == RangeServer(source)
    requires call.crash == Nowhere && !call.cancelledEarly
    ensures var q := Request(call, Start(call, Disk(Some(source[..n]), Readable(meta), None)));
            PartialLen(q.session.disk) < n <==> n == |source|
  {
    hide Start, Contains, ErrorText;
    var disk := Disk(Some(source[..n]), Readable(meta), None);
    StartContinues(call, disk);
    var s0 := Start(call, disk);
    if n == |source| {
      RefusedThenWhole(call, s0, source);
    } else {
      RestIsSent(call, s0, source);
    }
  }

  lemma RestIsSent(call: Call, s: Session, source: seq<Byte>)
    requires 0 < s.bytes < |source| && !s.cancelled && s.sent == 0 && call.server == RangeServer(source)
    ensures Request(call, s).session.disk == s.disk
  {
    var r := Response(206, "Partial Content", None, Some(|source| - s.bytes), false, [Chunk(source[s.bytes..])]);
    assert call.server(0, s.bytes) == Exchange(false, Http(r));
    assert Send(call, s.bytes, 3, 0, 2, 0) == SendResult(1, 0, false, Got(r));
  }

  // Either way the call ends with exactly the source, after two requests or one.
  lemma RangeServerResumes(call: Call, meta: PartialMeta, source: seq<Byte>, n: nat)
    requires 0 < n <= |source| < U64 && meta.url == call.url && call.server == RangeServer(source)
    requires call.crash == Nowhere && !call.cancelledEarly
    requires call.expectedSha256.Some? ==> call.expectedSha256.value == call.sha256(source)
    ensures var r := RunCall(call, Disk(Some(source[..n]), Readable(meta), None));
            r.exit == Done && r.session.disk.final == Some(source) && r.session.sent == if n == |source| then 2 else 1
  {
    hide RunCall;
    if n == |source| {
      assert source[..n] == source;
      CompletePartialIsRefetched(call, meta, source);
    } else {
      var r := Response(206, "Partial Content", None, Some(|source| - n), false, [Chunk(source[n..])]);
      assert call.server(0, n) == Exchange(false, Http(r));
      ResumeTakesOneRequest(call, n, meta, r, source);
    }
  }

  lemma RangeRefusalIsSeen()
    ensures Contains(ErrorText(RANGE_REFUSED), "416")
  {
    var m := ErrorText(RANGE_REFUSED);
    var i := |m| - 5;
    assert m[i..i + 3] == "416";
    assert MatchesAt(m, "416", i);
  }

  lemma RefusedThenWhole(call: Call, s: Session, source: seq<Byte>)
    requires source != [] && s.bytes == |source| && !s.cancelled && s.sent == 0 && call.server == RangeServer(source)
    ensures var q := Request(call, s); q.Proceed? && q.session.disk.partial == None && q.session.bytes == 0
    ensures var step := Attempt(call, s);
            && step.Complete? && step.session.disk.partial == Some(source)
            && step.session.knownTotal == Some(|source|) && step.session.sent == 2
  {
    hide Contains, ErrorText;
    RangeRefusalIsSeen();
    var whole := Response(200, "OK", None, Some(|source|), false, [Chunk(source)]);
    assert call.server(0, |source|).answer == Http(Response(416, "Range Not Satisfiable", None, None, false, []));
    assert call.server(1, 0) == Exchange(false, Http(whole));
    var a := Send(call, |source|, 3, 0, 2, 0);
    assert a == SendResult(1, 0, false, Refused(RANGE_REFUSED));
    var b := Send(call, 0, 3, 0, 2, 1);
    assert b == SendResult(2, 0, false, Got(whole));
    var q := Request(call, s);
    assert q.response == whole;
    assert whole.body[1..] == [] && [] + source == source;
    var o := Open(q.session, whole);
    assert Consume(o, whole.body) == Consumed(WriteChunk(o, source), CleanEnd);
  }

  // ---------------------------------------------------------------- carried-over size

  ghost predicate SilentServer(server: Server) {
    forall k, offset ::
      var a := server(k, offset).answer;
      a.Http? && IsSuccess(a.response.status) ==>
        && a.response.contentLength.None?
        && (a.response.contentRange.Some? ==> ParseContentRangeTotal(a.response.contentRange.value).None?)
  }

  lemma {:induction false} SilentLoopKeepsTotal(call: Call, s: Session)
    requires SilentServer(call.server)
    ensures var r := RunLoop(call, s);
            r.Complete? ==> r.session.knownTotal == s.meta.totalBytes
    decreases s.retriesLeft
  {
    if !s.cancelled {
      var q := Request(call, s);
      if q.Proceed? {
        var k := RequestGot(call, s);
        assert call.server(k, q.session.bytes).answer.response.contentLength.None?;
        ConsumeFrame(Open(q.session, q.response), q.response.body);
      }
      if Attempt(call, s).Again? {
        AttemptCountsDown(call, s);
        SilentLoopKeepsTotal(call, Attempt(call, s).session);
      }
    }
  }

  // The size in a previous meta survives even when that meta named another URL and its bytes were
  // discarded: a faithful server that reveals no size can then never finish a shorter file.
  lemma StaleTotalBlocksPromotion(call: Call, disk: Disk, sources: Sources)
    requires Suits(disk, sources, call.url) && FaithfulServer(call.server, sources(call.url))
    requires SilentServer(call.server)
    requires disk.metaFile.Readable? && disk.metaFile.meta.totalBytes.Some?
    requires |sources(call.url)| < disk.metaFile.meta.totalBytes.value
    ensures RunCall(call, disk).exit != Done
  {
    var s0 := Start(call, disk);
    assert Sound(call, s0, sources(call.url));
    SilentLoopKeepsTotal(call, s0);
    LoopSound(call, s0, sources(call.url));
    LoopExits(call, s0);
    LoopLeavesFinalAlone(call, s0);
    var r := RunLoop(call, s0);
    if r.Complete? {
      PromoteSound(call, r.session, sources(call.url));
    }
  }

  // The size that a call takes over from the meta it finds.
  function CarriedTotal(disk: Disk): Option<nat> {
    if disk.metaFile.Readable? then disk.metaFile.meta.totalBytes else None
  }

  // A 200 without Content-Length that carries the whole source.
  function WholeReply(source: seq<Byte>): Response {
    Response(200, "OK", None, None, false, [Chunk(source)])
  }

  function WholeServer(source: seq<Byte>): Server {
    (k, offset) => Exchange(false, Http(WholeReply(source)))
  }

  lemma WholeServerIsFaithful(source: seq<Byte>)
    ensures FaithfulServer(WholeServer(source), source) && SilentServer(WholeServer(source))
  {
    assert WholeReply(source).body[1..] == [];
    assert Payload(WholeReply(source).body) == source;
  }

  lemma WholeArrives(call: Call, s: Session, source: seq<Byte>)
    requires !s.cancelled && call.server == WholeServer(source)
    requires s.meta.totalBytes.Some? ==> s.meta.totalBytes.value <= |source|
    ensures var step := Attempt(call, s);
            && step.Complete? && step.session.disk.partial == Some(source)
            && step.session.knownTotal == s.meta.totalBytes
  {
    var r := WholeReply(source);
    assert call.server(s.sent, s.bytes) == Exchange(false, Http(r));
    assert Request(call, s).Proceed? && Request(call, s).response == r;
    assert r.body[1..] == [];
    assert [] + source == source;
    var o := Open(Request(call, s).session, r);
    assert Consume(o, r.body) == Consumed(WriteChunk(o, source), CleanEnd);
  }

  lemma WholeFinishes(call: Call, disk: Disk, source: seq<Byte>)
    requires call.crash == Nowhere && !call.cancelledEarly && call.server == WholeServer(source)
    requires call.expectedSha256.Some? ==> call.expectedSha256.value == call.sha256(source)
    requires CarriedTotal(disk).Some? ==> CarriedTotal(disk).value <= |source|
    ensures RunCall(call, disk).exit == Done && RunCall(call, disk).session.disk.final == Some(source)
  {
    hide Attempt, Promote;
    var s0 := Start(call, disk);
    WholeArrives(call, s0, source);
    assert RunLoop(call, s0) == Attempt(call, s0);
    PromoteWhole(call, Attempt(call, s0).session, source);
  }

  // Some faithful server that reveals no size can let the call finish if and only if the size carried
  // over from the meta is absent or at most the true one - whether or not that meta named this URL.
  lemma UnsizedCallFinishesIff(call: Call, disk: Disk, sources: Sources)
    requires Suits(disk, sources, call.url) && call.crash == Nowhere && !call.cancelledEarly
    requires call.expectedSha256.Some? ==> call.expectedSha256.value == call.sha256(sources(call.url))
    ensures (exists server: Server ::
               && FaithfulServer(server, sources(call.url)) && SilentServer(server)
               && RunCall(call.(server := server), disk).exit == Done)
            <==> CarriedTotal(disk).None? || CarriedTotal(disk).value <= |sources(call.url)|
  {
    hide RunCall, Suits, FaithfulServer, SilentServer;
    var source := sources(call.url);
    if CarriedTotal(disk).None? || CarriedTotal(disk).value <= |source| {
      var server := WholeServer(source);
      WholeServerIsFaithful(source);
      WholeFinishes(call.(server := server), disk, source);
    } else {
      forall server: Server | FaithfulServer(server, source) && SilentServer(server)
        ensures RunCall(call.(server := server), disk).exit != Done
      {
        StaleTotalBlocksPromotion(call.(server := server), disk, sources);
      }
    }
  }

  // Nothing on disk but the meta of another download of 5 bytes: a call for a file of 3 bytes fails.
  lemma StaleTotalWitness(call: Call)
    requires call.url != "http://other/" && call.server == WholeServer([1, 2, 3])
    ensures var meta := PartialMeta("http://other/", Some(5), None, call.modelId, call.filename, 0);
            RunCall(call, Disk(None, Readable(meta), None)).exit != Done
  {
    hide RunCall, FaithfulServer, SilentServer;
    var meta := PartialMeta("http://other/", Some(5), None, call.modelId, call.filename, 0);
    WholeServerIsFaithful([1, 2, 3]);
    StaleTotalBlocksPromotion(call, Disk(None, Readable(meta), None), url => [1, 2, 3]);
  }

  // The meta keeps its size in a loop whose server reveals none.
  lemma {:induction false} SilentLoopKeepsMeta(call: Call, s: Session)
    requires SilentServer(call.server)
    ensures RunLoop(call, s).session.meta == s.meta
    decreases s.retriesLeft
  {
    SilentAttemptKeepsMeta(call, s);
    if Attempt(call, s).Again? {
      AttemptCountsDown(call, s);
      SilentLoopKeepsMeta(call, Attempt(call, s).session);
    }
  }

  lemma SilentAttemptKeepsMeta(call: Call, s: Session)
    requires SilentServer(call.server)
    ensures Attempt(call, s).session.meta == s.meta
  {
    hide Request, Consume;
    if !s.cancelled {
      RequestKeepsMeta(call, s);
      var q := Request(call, s);
      if q.Proceed? {
        var k := RequestGot(call, s);
        assert call.server(k, q.session.bytes).answer.response.contentLength.None?;
        ConsumeFrame(Open(q.session, q.response), q.response.body);
      }
    }
  }

  lemma RequestKeepsMeta(call: Call, s: Session)
    ensures Request(call, s).session.meta == s.meta
  {
    hide Send;
  }

  // A call that cannot finish for a carried-over size leaves that size to the next, unless it removes
  // the meta.
  lemma StaleTotalLasts(call: Call, disk: Disk)
    requires SilentServer(call.server) && CarriedTotal(disk).Some?
    ensures var after := RunCall(call, disk).session.disk;
            after.metaFile == Absent || CarriedTotal(after) == CarriedTotal(disk)
  {
    hide RunLoop, Contains, ToLower;
    var s0 := Start(call, disk);
    SilentLoopKeepsMeta(call, s0);
    LoopExits(call, s0);
  }

  // Servers of shorter files that reveal no size.
  ghost predicate Blocking(total: nat, calls: seq<Call>, sources: Sources) {
    forall i :: 0 <= i < |calls| ==>
      && FaithfulServer(calls[i].server, sources(calls[i].url)) && SilentServer(calls[i].server)
      && |sources(calls[i].url)| < total
  }

  // Some prefix of the calls has left no meta.
  ghost predicate MetaRemoved(disk: Disk, calls: seq<Call>) {
    exists k :: 0 <= k <= |calls| && DiskFrom(disk, calls[..k]).metaFile == Absent
  }

  ghost predicate StillBlocked(disk: Disk, calls: seq<Call>, sources: Sources) {
    || MetaRemoved(disk, calls)
    || (Traceable(DiskFrom(disk, calls), sources) && CarriedTotal(DiskFrom(disk, calls)) == CarriedTotal(disk))
  }

  lemma {:induction false} BlockLasts(disk: Disk, calls: seq<Call>, sources: Sources)
    requires Traceable(disk, sources) && CarriedTotal(disk).Some?
    requires Blocking(CarriedTotal(disk).value, calls, sources)
    ensures StillBlocked(disk, calls, sources)
  {
    hide RunCall, SilentServer, FaithfulServer, MetaRemoved;
    if calls != [] {
      var n := |calls| - 1;
      BlockLasts(disk, calls[..n], sources);
      OneMoreBlocked(disk, calls[..n], calls[n], sources);
      assert calls == calls[..n] + [calls[n]];
    }
  }

  // Over any history of such calls - whatever their URLs - none ends Ok before one has removed the meta.
  lemma BlockedUntilMetaIsRemoved(disk: Disk, calls: seq<Call>, sources: Sources, n: nat)
    requires Traceable(disk, sources) && CarriedTotal(disk).Some?
    requires Blocking(CarriedTotal(disk).value, calls, sources)
    requires n < |calls| && RunCall(calls[n], DiskFrom(disk, calls[..n])).exit == Done
    ensures MetaRemoved(disk, calls[..n])
  {
    hide RunCall, SilentServer, FaithfulServer, MetaRemoved;
    BlockLasts(disk, calls[..n], sources);
    OneMoreBlocked(disk, calls[..n], calls[n], sources);
  }

  lemma OneMoreBlocked(disk: Disk, before: seq<Call>, call: Call, sources: Sources)
    requires CarriedTotal(disk).Some? && SilentServer(call.server) && FaithfulServer(call.server, sources(call.url))
    requires |sources(call.url)| < CarriedTotal(disk).value && StillBlocked(disk, before, sources)
    ensures RunCall(call, DiskFrom(disk, before)).exit == Done ==> MetaRemoved(disk, before)
    ensures StillBlocked(disk, before + [call], sources)
  {
    hide RunCall, SilentServer, FaithfulServer;
    var all, n := before + [call], |before|;
    assert all[..n] == before && all[n] == call;
    var mid := DiskFrom(disk, before);
    if MetaRemoved(disk, before) {
      var k :| 0 <= k <= n && DiskFrom(disk, before[..k]).metaFile == Absent;
      assert all[..k] == before[..k];
    } else {
      StaleTotalBlocksPromotion(call, mid, sources);
      StaleTotalLasts(call, mid);
      CallKeepsProvenance(call, mid, sources);
      assert all[..n + 1] == all;
      assert DiskFrom(disk, all) == RunCall(call, mid).session.disk;
    }
  }

  // After 4 bytes, a 204 with one more byte: the file is cut to that byte, the counter says 5.
  lemma OtherSuccessWitness(call: Call, meta: PartialMeta, rest: seq<StreamEvent>)
    requires meta.url == call.url && !call.cancelledEarly
    requires var r := Response(204, "No Content", None, None, false, [Chunk([9])] + rest);
             call.server(0, 4) == Exchange(false, Http(r))
    ensures var disk := Disk(Some([1, 2, 3, 4]), Readable(meta), None);
            var q := Request(call, Start(call, disk));
            && q.Proceed?
            && var c := Consume(Open(q.session, q.response), q.response.body[..1]).session;
               c.bytes == 5 && c.disk.partial == Some([9])
  {
    var s0 := Start(call, Disk(Some([1, 2, 3, 4]), Readable(meta), None));
    var q := Request(call, s0);
    assert q.Proceed? && q.session.bytes == 4;
    var body := q.response.body[..1];
    assert body == [Chunk([9])] && body[1..] == [];
    var o := Open(q.session, q.response);
    assert [] + [9 as Byte] == [9];
    assert Consume(o, body) == Consumed(WriteChunk(o, [9]), CleanEnd);
  }

  // ---------------------------------------------------------------- sizes and refusals

  lemma AfterLastSlash(prefix: string, rest: string)
    requires '/' !in rest
    ensures LastIndexOf(prefix + "/" + rest, '/') == Some(|prefix|)
    ensures (prefix + "/" + rest)[|prefix| + 1..] == rest
  {
    var value := prefix + "/" + rest;
    assert value[|prefix| + 1..] == rest;
    LastIndexOfUnique(value, '/', |prefix|);
  }

  lemma DigitsStandAlone(d: string)
    requires d != "" && AllDigits(d)
    ensures '/' !in d && Trim(d) == d
  {
    hide Trim;
    assert IsDigit(d[0]) && IsDigit(d[|d| - 1]);
    assert forall i :: 0 <= i < |d| ==> IsDigit(d[i]);
  }

  // A well-formed Content-Range value yields its total ...
  lemma ContentRangeRoundTrip(prefix: string, total: nat)
    requires total < U64
    ensures ParseContentRangeTotal(prefix + "/" + Decimal(total)) == Some(total)
  {
    var d := Decimal(total);
    DigitsStandAlone(d);
    AfterLastSlash(prefix, d);
    ParseDecimal(total, U64);
  }

  // Blanks around the total do not matter.
  lemma TotalWithBlanks(prefix: string, front: string, total: nat, back: string)
    requires total < U64
    requires forall i :: 0 <= i < |front| ==> IsWhitespace(front[i])
    requires forall i :: 0 <= i < |back| ==> IsWhitespace(back[i])
    ensures ParseContentRangeTotal(prefix + "/" + (front + Decimal(total) + back)) == Some(total)
  {
    hide Decimal, Trim, IsWhitespace, LastIndexOf;
    var d := Decimal(total);
    DigitsAreNoBlanks(d);
    BlanksAreTrimmed(front, d, back);
    ParseDecimal(total, U64);
    NoSlashes(front, d, back);
    AfterLastSlash(prefix, front + d + back);
  }

  lemma DigitsAreNoBlanks(d: string)
    requires d != "" && AllDigits(d)
    ensures !IsWhitespace(d[0]) && !IsWhitespace(d[|d| - 1])
  {
    assert IsDigit(d[0]) && IsDigit(d[|d| - 1]);
  }

  lemma NoSlashes(front: string, d: string, back: string)
    requires AllDigits(d)
    requires forall i :: 0 <= i < |front| ==> IsWhitespace(front[i])
    requires forall i :: 0 <= i < |back| ==> IsWhitespace(back[i])
    ensures '/' !in front + d + back
  {
    assert forall i :: 0 <= i < |d| ==> IsDigit(d[i]);
  }

  // ... and an unknown total `*` yields none.
  lemma UnknownTotal(prefix: string)
    ensures ParseContentRangeTotal(prefix + "/" + "*") == None
  {
    AfterLastSlash(prefix, "*");
    assert !IsDigit("*"[0]);
  }
}
