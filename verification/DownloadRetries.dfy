// What a call gets done: broken streams are resumed until the file is complete or the retries are used
// up, cancellations take effect, and the checksum decides about the finished file.
module DownloadRetries {
  import opened Wrappers
  import opened Text
  import opened DownloadModel
  import opened DownloadProofs

  // ---------------------------------------------------------------- giving up

  predicate IsInterrupted(exit: Exit) {
    exit.Failed? && exit.error.DownloadInterrupted?
  }

  lemma AttemptGivesUpLast(call: Call, s: Session)
    ensures var step := Attempt(call, s);
            step.Exited? && IsInterrupted(step.exit) ==> step.session.retriesLeft == 0 && s.retriesLeft == 0
  {
    hide Send, Contains, ErrorText, Consume;
    var q := Request(call, s);
    if !s.cancelled && q.Proceed? {
      ConsumeFrame(Open(q.session, q.response), q.response.body);
    }
  }

  // The loop gives a download up as interrupted only with no retries left.
  lemma {:induction false} InterruptedOnlyWithoutRetries(call: Call, s: Session)
    ensures var r := RunLoop(call, s);
            r.Exited? && IsInterrupted(r.exit) ==> r.session.retriesLeft == 0
    decreases s.retriesLeft
  {
    hide Attempt;
    AttemptGivesUpLast(call, s);
    if Attempt(call, s).Again? {
      AttemptCountsDown(call, s);
      InterruptedOnlyWithoutRetries(call, Attempt(call, s).session);
    }
  }

  // That is: after streamRetries + 1 attempts. A whole call may also find, once its loop is done, less
  // on disk than the size it last knew.
  lemma InterruptedAfterAllAttempts(call: Call, disk: Disk)
    requires IsInterrupted(RunCall(call, disk).exit)
    ensures var r := RunLoop(call, Start(call, disk));
            || (r.Exited? && LoopHead(call, disk, call.streamRetries).Some?
                && LoopHead(call, disk, call.streamRetries + 1).None?)
            || (r.Complete? && r.session.knownTotal.Some? && PartialLen(r.session.disk) < r.session.knownTotal.value)
  {
    hide Attempt, ToLower;
    if RunLoop(call, Start(call, disk)).Exited? {
      LastHead(call, disk, 0);
    }
  }

  lemma {:induction false} LastHead(call: Call, disk: Disk, n: nat)
    requires n <= call.streamRetries && LoopHead(call, disk, n).Some?
    requires var r := RunLoop(call, LoopHead(call, disk, n).value); r.Exited? && IsInterrupted(r.exit)
    ensures LoopHead(call, disk, call.streamRetries).Some?
    ensures LoopHead(call, disk, call.streamRetries + 1).None?
    decreases call.streamRetries - n
  {
    hide Attempt, Start;
    EveryLoopHeadAgrees(call, disk, n);
    var s := LoopHead(call, disk, n).value;
    if Attempt(call, s).Again? {
      EveryLoopHeadAgrees(call, disk, n + 1);
      LastHead(call, disk, n + 1);
    } else {
      AttemptGivesUpLast(call, s);
    }
  }

  // ---------------------------------------------------------------- resuming

  predicate OnlyChunks(body: seq<StreamEvent>) {
    forall i :: 0 <= i < |body| ==> body[i].Chunk?
  }

  // The body delivers these bytes and ends cleanly.
  predicate Delivers(body: seq<StreamEvent>, data: seq<Byte>) {
    OnlyChunks(body) && Payload(body) == data
  }

  // It delivers them and breaks.
  predicate BreaksBehind(body: seq<StreamEvent>, data: seq<Byte>) {
    body != [] && body[|body| - 1] == StreamFailure && Delivers(body[..|body| - 1], data)
  }

  // A faithful reply from an offset on: 200 from the start, 206 further on, with the full size.
  ghost predicate RightReply(r: Response, from: nat, source: seq<Byte>) {
    && |source| < U64 && !r.killedUnopened
    && r.status == (if from == 0 then 200 else 206) && RevealsSize(r, from, |source|)
  }

  // Such a reply that brings the download to `upTo` and then breaks, be it behind the last byte, or just
  // ends short of the full size.
  ghost predicate CutReply(r: Response, from: nat, upTo: nat, source: seq<Byte>) {
    && RightReply(r, from, source) && from <= upTo <= |source|
    && (BreaksBehind(r.body, source[from..upTo]) || (upTo < |source| && Delivers(r.body, source[from..upTo])))
  }

  // Such a reply that brings all of the rest.
  ghost predicate FullReply(r: Response, from: nat, source: seq<Byte>) {
    RightReply(r, from, source) && from < |source| && Delivers(r.body, source[from..])
  }

  lemma {:induction false} ConsumeChunks(s: Session, chunks: seq<StreamEvent>, tail: seq<StreamEvent>)
    requires OnlyChunks(chunks) && !s.cancelled && s.disk.partial.Some?
    ensures var written := s.(disk := s.disk.(partial := Some(s.disk.partial.value + Payload(chunks))),
                              bytes := s.bytes + |Payload(chunks)|);
            Consume(s, chunks + tail) == Consume(written, tail)
    decreases |chunks|
  {
    if chunks == [] {
      assert [] + tail == tail;
      assert s.disk.partial.value + [] == s.disk.partial.value;
    } else {
      var data, rest := chunks[0].data, chunks[1..];
      assert (chunks + tail)[1..] == rest + tail;
      ConsumeChunks(WriteChunk(s, data), rest, tail);
      assert s.disk.partial.value + data + Payload(rest) == s.disk.partial.value + (data + Payload(rest));
    }
  }

  // Between attempts the session holds the source up to its counter.
  ghost predicate Holds(s: Session, upTo: nat, source: seq<Byte>) {
    && s.bytes == upTo <= |source| && !s.cancelled
    && (upTo > 0 ==> s.disk.partial == Some(source[..upTo]))
  }

  lemma ReplyOpens(s: Session, r: Response, from: nat, source: seq<Byte>)
    requires Holds(s, from, source) && RightReply(r, from, source)
    ensures var o := Open(s, r);
            && o.disk.partial == Some(source[..from]) && o.bytes == from && o.knownTotal == Some(|source|)
            && o.retriesLeft == s.retriesLeft && !o.cancelled && o.sent == s.sent && o.disk.final == s.disk.final
            && (s.disk.metaFile == Readable(s.meta) ==> o.disk.metaFile == Readable(o.meta))
            && o.meta == s.meta.(totalBytes := Some(|source|))
  {
  }

  lemma DeliveredHolds(o: Session, body: seq<StreamEvent>, tail: seq<StreamEvent>, from: nat, upTo: nat,
                       source: seq<Byte>)
    requires from <= upTo <= |source| && Delivers(body, source[from..upTo])
    requires o.disk.partial == Some(source[..from]) && o.bytes == from && !o.cancelled
    ensures var t := o.(disk := o.disk.(partial := Some(source[..upTo])), bytes := upTo);
            Consume(o, body + tail) == Consume(t, tail)
  {
    ConsumeChunks(o, body, tail);
    assert source[..from] + source[from..upTo] == source[..upTo];
  }

  // The session with the source written up to a byte.
  function Reached(o: Session, upTo: nat, source: seq<Byte>): Session
    requires upTo <= |source|
  {
    o.(disk := o.disk.(partial := Some(source[..upTo])), bytes := upTo)
  }

  lemma CutBody(o: Session, body: seq<StreamEvent>, from: nat, upTo: nat, source: seq<Byte>)
    requires from <= upTo <= |source|
    requires BreaksBehind(body, source[from..upTo]) || (upTo < |source| && Delivers(body, source[from..upTo]))
    requires o.disk.partial == Some(source[..from]) && o.bytes == from && !o.cancelled
    ensures var t := Reached(o, upTo, source);
            || Consume(o, body) == Consumed(t, BrokenEnd)
            || (upTo < |source| && Consume(o, body) == Consumed(t, CleanEnd))
  {
    if BreaksBehind(body, source[from..upTo]) {
      var front := body[..|body| - 1];
      assert body == front + [StreamFailure];
      DeliveredHolds(o, front, [StreamFailure], from, upTo, source);
    } else {
      assert body == body + [];
      DeliveredHolds(o, body, [], from, upTo, source);
    }
  }

  // After a cut there is another attempt, if a retry is left and the pause undisturbed.
  lemma AfterCut(call: Call, o: Session, end: StreamEnd, upTo: nat, source: seq<Byte>)
    requires (end.BrokenEnd? || (end.CleanEnd? && upTo < |source|)) && upTo <= |source| && !o.cancelled
    requires o.knownTotal == Some(|source|) && o.retriesLeft > 0 && call.pause(o.retriesLeft - 1) == Undisturbed
    ensures var step := AfterBody(call, Consumed(Reached(o, upTo, source), end));
            && step.Again? && Holds(step.session, upTo, source) && step.session.sent == o.sent
            && step.session.retriesLeft == o.retriesLeft - 1 && step.session.disk.final == o.disk.final
  {
  }

  // A cut reply costs one retry, and the next attempt goes on where it stopped.
  lemma CutReplyIsResumed(call: Call, s: Session, r: Response, from: nat, upTo: nat, source: seq<Byte>)
    requires Holds(s, from, source) && CutReply(r, from, upTo, source) && s.retriesLeft > 0
    requires call.server(s.sent, from) == Exchange(false, Http(r)) && call.pause(s.retriesLeft - 1) == Undisturbed
    ensures var step := Attempt(call, s);
            && step.Again? && Holds(step.session, upTo, source) && step.session.sent == s.sent + 1
            && step.session.retriesLeft == s.retriesLeft - 1 && step.session.disk.final == s.disk.final
  {
    hide Attempt, Open, Payload, RevealsSize, Consume, BreaksBehind, Delivers, AfterBody, Reached;
    GotAtOnce(call, s, r);
    var next := s.(sent := s.sent + 1);
    ReplyOpens(next, r, from, source);
    var o := Open(next, r);
    CutBody(o, r.body, from, upTo, source);
    AfterCut(call, o, Consume(o, r.body).end, upTo, source);
  }

  // A reply got at once: the attempt is what its body makes of it.
  lemma GotAtOnce(call: Call, s: Session, r: Response)
    requires call.server(s.sent, s.bytes) == Exchange(false, Http(r)) && IsSuccess(r.status)
    requires !s.cancelled && !r.killedUnopened
    ensures Request(call, s) == Proceed(s.(sent := s.sent + 1), r)
    ensures Attempt(call, s) == AfterBody(call, Consume(Open(s.(sent := s.sent + 1), r), r.body))
  {
    hide Consume, Open, AfterBody;
  }

  lemma FullReplyCompletes(call: Call, s: Session, r: Response, from: nat, source: seq<Byte>)
    requires Holds(s, from, source) && FullReply(r, from, source)
    requires call.server(s.sent, from) == Exchange(false, Http(r))
    ensures var step := Attempt(call, s);
            && step.Complete? && step.session.disk.partial == Some(source) && step.session.sent == s.sent + 1
            && step.session.knownTotal == Some(|source|)
  {
    GotAtOnce(call, s, r);
    var next := s.(sent := s.sent + 1);
    ReplyOpens(next, r, from, source);
    var o := Open(next, r);
    hide Attempt, Open, Payload, RightReply;
    assert r.body == r.body + [] && source[..|source|] == source && source[from..|source|] == source[from..];
    DeliveredHolds(o, r.body, [], from, |source|, source);
  }

  // Where the replies to the successive requests of a call stop; the last one brings the rest.
  ghost predicate CutServer(server: Server, cuts: seq<nat>, source: seq<Byte>) {
    && cuts != []
    && (forall k: nat :: k < |cuts| - 1 ==>
          && server(k, cuts[k]).answer.Http? && !server(k, cuts[k]).userCancelled
          && CutReply(server(k, cuts[k]).answer.response, cuts[k], cuts[k + 1], source))
    && var last := server(|cuts| - 1, cuts[|cuts| - 1]);
       last.answer.Http? && !last.userCancelled && FullReply(last.answer.response, cuts[|cuts| - 1], source)
  }

  lemma {:induction false} LoopResumes(call: Call, s: Session, cuts: seq<nat>, source: seq<Byte>)
    requires CutServer(call.server, cuts, source) && s.sent < |cuts| && Holds(s, cuts[s.sent], source)
    requires s.retriesLeft >= |cuts| - 1 - s.sent && forall k :: call.pause(k) == Undisturbed
    ensures var r := RunLoop(call, s);
            && r.Complete? && r.session.disk.partial == Some(source) && r.session.sent == |cuts|
            && r.session.knownTotal == Some(|source|)
    decreases |cuts| - s.sent
  {
    hide Attempt, CutReply, FullReply, Holds;
    var k := s.sent;
    var x := call.server(k, cuts[k]);
    assert x == Exchange(false, Http(x.answer.response));
    if k == |cuts| - 1 {
      FullReplyCompletes(call, s, x.answer.response, cuts[k], source);
    } else {
      CutReplyIsResumed(call, s, x.answer.response, cuts[k], cuts[k + 1], source);
      LoopResumes(call, Attempt(call, s).session, cuts, source);
    }
  }

  // From nothing, or from a part of the file: however often the stream breaks or ends short, as long as
  // there is a retry for each time, the call ends Ok with exactly the source after one more request than
  // breaks.
  lemma BrokenStreamsAreResumed(call: Call, disk: Disk, cuts: seq<nat>, source: seq<Byte>)
    requires CutServer(call.server, cuts, source) && |cuts| - 1 <= call.streamRetries
    requires if cuts[0] == 0 then disk == EMPTY_DISK
             else && cuts[0] <= |source| && disk.partial == Some(source[..cuts[0]])
                  && disk.metaFile.Readable? && disk.metaFile.meta.url == call.url
    requires call.crash == Nowhere && !call.cancelledEarly && forall k :: call.pause(k) == Undisturbed
    requires call.expectedSha256.Some? ==> call.expectedSha256.value == call.sha256(source)
    ensures var r := RunCall(call, disk);
            r.exit == Done && r.session.disk.final == Some(source) && r.session.sent == |cuts|
  {
    var s0 := Start(call, disk);
    assert Holds(s0, cuts[0], source) && s0.sent == 0 && s0.retriesLeft == call.streamRetries;
    hide RunLoop, Promote, CutServer, Start, Holds;
    LoopResumes(call, s0, cuts, source);
    PromoteWhole(call, RunLoop(call, s0).session, source);
  }

  // With one retry too few, the call is interrupted and keeps all bytes it got and the size it learned.
  lemma OneRetryTooFew(call: Call, r: Response, upTo: nat, source: seq<Byte>)
    requires call.streamRetries == 0 && CutReply(r, 0, upTo, source)
    requires call.server(0, 0) == Exchange(false, Http(r)) && call.crash == Nowhere && !call.cancelledEarly
    ensures var result := RunCall(call, EMPTY_DISK);
            && result.exit == Failed(DownloadInterrupted(call.modelId))
            && result.session.disk.partial == Some(source[..upTo]) && result.session.disk.metaFile.Readable?
            && result.session.disk.metaFile.meta.totalBytes == Some(|source|)
  {
    var s := Start(call, EMPTY_DISK);
    assert Holds(s, 0, source);
    GotAtOnce(call, s, r);
    var next := s.(sent := 1);
    ReplyOpens(next, r, 0, source);
    LoopExits(call, s);
    var o := Open(next, r);
    CutBody(o, r.body, 0, upTo, source);
    hide Attempt, Open, Payload, RightReply, Start, Consume, BreaksBehind, Delivers;
  }
}
