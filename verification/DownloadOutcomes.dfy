// What a call answers and leaves behind when it is cancelled, refused or sent the wrong bytes, with the
// texts, delays and fields written out.
module DownloadOutcomes {
  import opened Wrappers
  import opened Text
  import opened DownloadModel
  import opened DownloadProofs
  import opened DownloadRetries

  // ---------------------------------------------------------------- cancellation

  ghost predicate IsCancelled(r: CallResult, disk: Disk) {
    && r.exit == Failed(DownloadError("Download cancelled by user"))
    && r.session.disk == Disk(None, Absent, disk.final)
  }

  // A call cancelled before its loop makes no request and leaves no trace.
  lemma CancelledEarly(call: Call, disk: Disk)
    requires call.cancelledEarly && call.crash == Nowhere
    ensures var r := RunCall(call, disk); IsCancelled(r, disk) && r.session.sent == 0
  {
  }

  // A cancellation takes effect at the next chunk or failure: what was there before is removed and
  // nothing behind it is written.
  lemma CancelledWhileReading(call: Call, r: Response, before: seq<StreamEvent>, after: seq<StreamEvent>,
                              source: seq<Byte>)
    requires call.crash == Nowhere && !call.cancelledEarly && call.server(0, 0) == Exchange(false, Http(r))
    requires RightReply(r, 0, source) && r.body == before + ([UserCancels] + after) && OnlyChunks(before)
    requires after != [] && (after[0].Chunk? || after[0].StreamFailure?)
    ensures var result := RunCall(call, EMPTY_DISK); IsCancelled(result, EMPTY_DISK) && result.session.sent == 1
  {
    var s := Start(call, EMPTY_DISK);
    assert Holds(s, 0, source);
    GotAtOnce(call, s, r);
    var next := s.(sent := 1);
    ReplyOpens(next, r, 0, source);
    var o := Open(next, r);
    StopsAtCancel(o, before, after);
    ConsumeFrame(o, r.body);
    hide Attempt, Open, Payload, RightReply, Start, Consume;
  }

  lemma CancelSeenNext(s: Session, after: seq<StreamEvent>)
    requires after != [] && (after[0].Chunk? || after[0].StreamFailure?)
    ensures Consume(s, [UserCancels] + after) == Consumed(s.(cancelled := true), CancelSeen)
  {
    assert ([UserCancels] + after)[1..] == after;
  }

  lemma StopsAtCancel(o: Session, before: seq<StreamEvent>, after: seq<StreamEvent>)
    requires OnlyChunks(before) && !o.cancelled && o.disk.partial.Some?
    requires after != [] && (after[0].Chunk? || after[0].StreamFailure?)
    ensures Consume(o, before + ([UserCancels] + after)).end == CancelSeen
  {
    hide Payload, Consume;
    ConsumeChunks(o, before, [UserCancels] + after);
    var written := o.(disk := o.disk.(partial := Some(o.disk.partial.value + Payload(before))),
                      bytes := o.bytes + |Payload(before)|);
    CancelSeenNext(written, after);
  }

  // The same for a cancellation while the request is pending.
  lemma CancelledWhilePending(call: Call, r: Response, source: seq<Byte>)
    requires call.crash == Nowhere && !call.cancelledEarly && call.server(0, 0) == Exchange(true, Http(r))
    requires RightReply(r, 0, source) && r.body != [] && (r.body[0].Chunk? || r.body[0].StreamFailure?)
    ensures var result := RunCall(call, EMPTY_DISK); IsCancelled(result, EMPTY_DISK) && result.session.sent == 1
  {
    var s := Start(call, EMPTY_DISK);
    var q := Request(call, s);
    assert q == Proceed(s.(sent := 1, cancelled := true), r);
    var o := Open(q.session, r);
    assert Consume(o, r.body) == Consumed(o, CancelSeen);
    hide Open, RightReply, Start, Consume, Request;
  }

  // A cancellation in the pause between two attempts takes effect before another request.
  lemma CancelledInPause(call: Call, r: Response, upTo: nat, source: seq<Byte>)
    requires call.crash == Nowhere && !call.cancelledEarly && call.server(0, 0) == Exchange(false, Http(r))
    requires CutReply(r, 0, upTo, source) && call.streamRetries > 0
    requires call.pause(call.streamRetries - 1) == CancelledMeanwhile
    ensures var result := RunCall(call, EMPTY_DISK); IsCancelled(result, EMPTY_DISK) && result.session.sent == 1
  {
    var s := Start(call, EMPTY_DISK);
    assert Holds(s, 0, source);
    GotAtOnce(call, s, r);
    var next := s.(sent := 1);
    ReplyOpens(next, r, 0, source);
    var o := Open(next, r);
    CutBody(o, r.body, 0, upTo, source);
    var c := Consume(o, r.body);
    assert c.session == Reached(o, upTo, source);
    CancelledNext(call, c, upTo, source);
    var again := c.session.(retriesLeft := c.session.retriesLeft - 1, cancelled := true);
    AlreadyCancelled(call, again);
    hide Attempt, Open, Payload, RightReply, Start, Consume, BreaksBehind, Delivers, AfterBody, RunLoop, Abandon;
    NextAttempt(call, s, again);
  }

  lemma CancelledNext(call: Call, c: Consumed, upTo: nat, source: seq<Byte>)
    requires c.end.BrokenEnd? || (c.end.CleanEnd? && upTo < |source|)
    requires upTo <= |source| && c.session.disk.partial == Some(source[..upTo]) && c.session.bytes == upTo
    requires c.session.knownTotal == Some(|source|) && c.session.retriesLeft > 0
    requires call.pause(c.session.retriesLeft - 1) == CancelledMeanwhile
    ensures AfterBody(call, c) == Again(c.session.(retriesLeft := c.session.retriesLeft - 1, cancelled := true))
  {
  }

  lemma AlreadyCancelled(call: Call, s: Session)
    requires s.cancelled && call.crash == Nowhere
    ensures RunLoop(call, s)
            == Exited(s.(disk := Disk(None, Absent, s.disk.final)), Failed(DownloadError("Download cancelled by user")))
  {
  }

  lemma NextAttempt(call: Call, s: Session, again: Session)
    requires Attempt(call, s) == Again(again)
    ensures RunLoop(call, s) == RunLoop(call, again)
  {
    hide Attempt;
  }

  // ---------------------------------------------------------------- the checksum

  // Equal but for the case of letters from A to Z.
  predicate SameButForCase(a: string, b: string) {
    |a| == |b| && forall i :: 0 <= i < |a| ==>
      || a[i] == b[i]
      || ('A' <= a[i] <= 'Z' && b[i] as int == a[i] as int + 32)
      || ('A' <= b[i] <= 'Z' && a[i] as int == b[i] as int + 32)
  }

  lemma SameLowerIff(a: string, b: string)
    ensures ToLower(a) == ToLower(b) <==> SameButForCase(a, b)
  {
    if ToLower(a) == ToLower(b) {
      forall i | 0 <= i < |a| ensures LowerChar(a[i]) == LowerChar(b[i]) {
        assert ToLower(a)[i] == ToLower(b)[i];
      }
    }
  }

  // A whole file that arrives is kept if and only if no checksum is expected or it has that one, in
  // whatever case; otherwise everything is removed and both checksums are reported.
  lemma ChecksumDecides(call: Call, source: seq<Byte>)
    requires call.crash == Nowhere && !call.cancelledEarly && call.server == WholeServer(source)
    ensures var r := RunCall(call, EMPTY_DISK);
            var fits := call.expectedSha256.Some? ==>
                          SameButForCase(call.sha256(source), call.expectedSha256.value);
            if fits then r.exit == Done && r.session.disk == Disk(None, Absent, Some(source))
            else && r.exit == Failed(IntegrityError(call.expectedSha256.value, call.sha256(source)))
                 && r.session.disk == EMPTY_DISK
  {
    hide SameButForCase, ToLower, Attempt;
    var s := Start(call, EMPTY_DISK);
    WholeArrives(call, s, source);
    LoopLeavesFinalAlone(call, s);
    if call.expectedSha256.Some? {
      SameLowerIff(call.sha256(source), call.expectedSha256.value);
    }
  }

  // ---------------------------------------------------------------- refusals

  // What the answer to a refused request says.
  predicate SaysWhy(message: string, status: nat, reason: string, url: string) {
    if status == 401 || status == 403 then
      message == "Access denied (HTTP " + Decimal(status) + " " + reason
                 + ("). You may need " + "to set HF_TOKEN " + "for gated models.")
    else if status == 404 then
      message == "File not found (HTTP 404). " + "The model file " + "may have been moved " + "or renamed."
    else if status == 416 then message == "Requested range not satisfiable (HTTP 416)."
    else if status == 429 then
      message == "Rate limited (HTTP 429). " + "Try again in a few " + "minutes, or set " + "HF_TOKEN for "
                 + "higher limits."
    else message == "HTTP " + Decimal(status) + " " + reason + " for " + url
  }

  lemma RefusalSaysWhy(r: Response, url: string)
    ensures SaysWhy(RefusalMessage(r, url), r.status, r.reason, url)
  {
  }

  // An answer from 300 to 499 other than 429 refuses the call at once; from nothing, nothing is left.
  lemma RefusedAtOnce(call: Call, r: Response)
    requires call.crash == Nowhere && !call.cancelledEarly && call.server(0, 0) == Exchange(false, Http(r))
    requires 300 <= r.status <= 499 && r.status != 429
    ensures var result := RunCall(call, EMPTY_DISK);
            && result.session.sent == 1 && result.session.backoff == 0 && result.session.disk == EMPTY_DISK
            && result.exit.Failed? && result.exit.error.DownloadError?
            && SaysWhy(result.exit.error.message, r.status, r.reason, call.url)
  {
    hide SaysWhy, RefusalMessage, Contains, ErrorText;
    RefusalSaysWhy(r, call.url);
  }

  // Four answers of 429 or above 499, or network errors, end the call after delays of 2, 4 and 8 seconds.
  lemma RefusedAfterFour(call: Call)
    requires call.crash == Nowhere && !call.cancelledEarly
    requires forall k: nat :: k < 4 ==> WorthRetrying(call.server(k, 0).answer) && !call.server(k, 0).userCancelled
    ensures var result := RunCall(call, EMPTY_DISK);
            && result.session.sent == 4 && result.session.backoff == 14 && result.session.disk == EMPTY_DISK
            && result.exit.Failed? && result.exit.error.DownloadError?
            && match call.server(3, 0).answer
               case Http(r) => SaysWhy(result.exit.error.message, r.status, r.reason, call.url)
               case NetworkError(text) =>
                 result.exit.error.message == "Download failed after " + Decimal(4) + " attempts: " + text
               case KilledWaiting => false
  {
    hide SaysWhy, RefusalMessage, Contains, ErrorText, Decimal;
    var a := call.server(3, 0).answer;
    if a.Http? {
      RefusalSaysWhy(a.response, call.url);
    }
    LastOfFour(call, 0);
    assert Attempt(call, Start(call, EMPTY_DISK)).Exited?;
  }

  lemma LastOfFour(call: Call, offset: nat)
    requires forall k: nat :: k < 4 ==>
               WorthRetrying(call.server(k, offset).answer) && !call.server(k, offset).userCancelled
    requires WorthRetrying(call.server(3, offset).answer)
    ensures var a := call.server(3, offset).answer;
            Send(call, offset, 3, 0, 2, 0)
            == SendResult(4, 14, false, Refused(if a.Http? then RefusalMessage(a.response, call.url)
                                                else GaveUpMessage(4, a.text)))
  {
    hide RefusalMessage, GaveUpMessage;
    assert Send(call, offset, 3, 3, 16, 3).sent == 4;
    assert Send(call, offset, 3, 2, 8, 2).backoff == 8;
    assert Send(call, offset, 3, 1, 4, 1).backoff == 12;
  }

  // ---------------------------------------------------------------- the meta

  // What a loop does to the meta it started with.
  lemma {:induction false} LoopKeepsMeta(call: Call, s: Session)
    ensures var m := RunLoop(call, s).session.meta; m == s.meta.(totalBytes := m.totalBytes)
    decreases s.retriesLeft
  {
    AttemptKeepsMeta(call, s);
    if Attempt(call, s).Again? {
      AttemptCountsDown(call, s);
      LoopKeepsMeta(call, Attempt(call, s).session);
    }
  }

  lemma AttemptKeepsMeta(call: Call, s: Session)
    ensures var m := Attempt(call, s).session.meta; m == s.meta.(totalBytes := m.totalBytes)
  {
    hide Request, Consume, AdvertisedTotal;
    if !s.cancelled {
      RequestKeepsMeta(call, s);
      var q := Request(call, s);
      if q.Proceed? {
        ConsumeFrame(Open(q.session, q.response), q.response.body);
      }
    }
  }

  // A meta that a call leaves once it has written one names its URL, expected checksum, model and file,
  // and the time of the call that found none.
  lemma MetaDescribesCall(call: Call, disk: Disk)
    requires call.crash != DuringDiscard && call.crash != BeforeMetaWrite
    ensures var left := RunCall(call, disk).session.disk.metaFile;
            left == Absent || (
              && left.Readable?
              && left.meta == PartialMeta(call.url, left.meta.totalBytes, call.expectedSha256, call.modelId,
                                          call.filename,
                                          if disk.metaFile.Readable? then disk.metaFile.meta.startedAt else call.now))
  {
    hide Attempt, ToLower;
    var s := Start(call, disk);
    LoopKeepsMeta(call, s);
    LoopExits(call, s);
  }

  // At every loop head the meta on disk is the one in memory.
  lemma {:induction false} MetaIsOnDisk(call: Call, disk: Disk, n: nat)
    ensures var h := LoopHead(call, disk, n); h.Some? ==> h.value.disk.metaFile == Readable(h.value.meta)
  {
    hide Attempt;
    if n > 0 {
      MetaIsOnDisk(call, disk, n - 1);
      var h := LoopHead(call, disk, n - 1);
      if h.Some? {
        AttemptKeepsMetaOnDisk(call, h.value);
      }
    }
  }

  lemma AttemptKeepsMetaOnDisk(call: Call, s: Session)
    requires s.disk.metaFile == Readable(s.meta)
    ensures var step := Attempt(call, s);
            step.Again? || step.Complete? ==> step.session.disk.metaFile == Readable(step.session.meta)
  {
    hide Request, Consume, AdvertisedTotal;
    if !s.cancelled {
      RequestKeepsMeta(call, s);
      var q := Request(call, s);
      if q.Proceed? {
        ProceedKeepsMetaFile(call, s);
        ConsumeFrame(Open(q.session, q.response), q.response.body);
      }
    }
  }

  lemma ProceedKeepsMetaFile(call: Call, s: Session)
    requires Request(call, s).Proceed?
    ensures Request(call, s).session.disk.metaFile == s.disk.metaFile
  {
    hide Send, Contains, ErrorText;
  }

  // ---------------------------------------------------------------- what is remembered

  // The cancellation of any of its requests is remembered.
  lemma {:induction false} SendRemembersCancel(call: Call, offset: nat, maxRetries: nat, attempt: nat, delay: nat,
                                               sent: nat)
    requires attempt <= maxRetries
    ensures var a := Send(call, offset, maxRetries, attempt, delay, sent);
            a.sent > sent && (a.cancelled <==> CancelledAmong(call, offset, sent, a.sent))
    decreases maxRetries - attempt
  {
    hide RefusalMessage, GaveUpMessage;
    var a := Send(call, offset, maxRetries, attempt, delay, sent);
    if attempt < maxRetries {
      SendRemembersCancel(call, offset, maxRetries, attempt + 1, 2 * delay, sent + 1);
    }
    assert call.server(sent, offset).userCancelled ==> CancelledAmong(call, offset, sent, a.sent);
  }

  // The user cancels while one of these requests, all for the same offset, is pending.
  ghost predicate CancelledAmong(call: Call, offset: nat, from: nat, to: nat) {
    exists k: nat :: from <= k < to && call.server(k, offset).userCancelled
  }

  // The same for the requests of one attempt, the later ones being made from 0 after a restart.
  lemma RequestRemembersCancel(call: Call, s: Session)
    ensures var middle, after := Send(call, s.bytes, 3, 0, 2, s.sent).sent, Request(call, s).session;
            after.cancelled
            <==> || s.cancelled
                 || CancelledAmong(call, s.bytes, s.sent, middle) || CancelledAmong(call, 0, middle, after.sent)
  {
    hide Send, CancelledAmong, Contains, ErrorText;
    var a := Send(call, s.bytes, 3, 0, 2, s.sent);
    SendRemembersCancel(call, s.bytes, 3, 0, 2, s.sent);
    SendRemembersCancel(call, 0, 3, 0, 2, a.sent);
    NobodyCancelled(call, a.sent);
  }

  lemma NobodyCancelled(call: Call, n: nat)
    ensures !CancelledAmong(call, 0, n, n)
  {
  }

  // A request that fails leaves everything as it was, which takes some progress, or removes partial and
  // meta both.
  lemma FailedRequestLeaves(call: Call, s: Session)
    ensures var q := Request(call, s);
            q.Stop? && q.exit.Failed? ==>
              (s.bytes > 0 && q.session.disk == s.disk) || q.session.disk == Disk(None, Absent, s.disk.final)
  {
    hide Send, Contains, ErrorText;
  }

  // ---------------------------------------------------------------- kills

  // Killed before its meta is written, a call has asked for nothing; bytes whose meta names another URL may
  // be gone by then, without or with that meta, and all else is as it was.
  lemma KilledAtStart(call: Call, disk: Disk)
    requires call.crash == DuringDiscard || call.crash == BeforeMetaWrite
    ensures var result := RunCall(call, disk);
            var foreign := && disk.partial.Some? && disk.partial.value != []
                           && disk.metaFile.Readable? && disk.metaFile.meta.url != call.url;
            && result.exit == Killed && result.session.sent == 0
            && result.session.disk
               == if !foreign then disk
                  else Disk(None, if call.crash == DuringDiscard then disk.metaFile else Absent, disk.final)
  {
  }

  // Killed before the file is opened, a call leaves the size it learned.
  lemma KilledOnceSized(call: Call, r: Response, source: seq<Byte>)
    requires call.crash == Nowhere && !call.cancelledEarly && RightReply(r, 0, source)
    requires call.server(0, 0) == Exchange(false, Http(r.(killedUnopened := true)))
    ensures var result := RunCall(call, EMPTY_DISK);
            && result.exit == Killed && result.session.sent == 1 && result.session.disk.partial == None
            && result.session.disk.metaFile.Readable?
            && result.session.disk.metaFile.meta.totalBytes == Some(|source|)
  {
    var s := Start(call, EMPTY_DISK);
    var k := r.(killedUnopened := true);
    assert Request(call, s) == Proceed(s.(sent := 1), k);
    assert Holds(s.(sent := 1), 0, source);
    ReplyOpens(s.(sent := 1), r, 0, source);
    assert Learn(s.(sent := 1), k) == Learn(s.(sent := 1), r);
  }

  // Killed in the pause between two attempts, it leaves all bytes it got.
  lemma KilledInPause(call: Call, r: Response, upTo: nat, source: seq<Byte>)
    requires call.crash == Nowhere && !call.cancelledEarly && call.server(0, 0) == Exchange(false, Http(r))
    requires CutReply(r, 0, upTo, source) && call.streamRetries > 0
    requires call.pause(call.streamRetries - 1) == KilledMeanwhile
    ensures var result := RunCall(call, EMPTY_DISK);
            && result.exit == Killed && result.session.sent == 1
            && result.session.disk.partial == Some(source[..upTo]) && result.session.disk.metaFile.Readable?
  {
    var s := Start(call, EMPTY_DISK);
    assert Holds(s, 0, source);
    GotAtOnce(call, s, r);
    var next := s.(sent := 1);
    ReplyOpens(next, r, 0, source);
    var o := Open(next, r);
    CutBody(o, r.body, 0, upTo, source);
    hide Attempt, Open, Payload, RightReply, Start, Consume, BreaksBehind, Delivers;
  }

  // Killed once the whole file has arrived, it leaves it in the partial; killed between the rename and the
  // removal of the meta, as the finished file.
  lemma KilledAtPromotion(call: Call, source: seq<Byte>)
    requires !call.cancelledEarly && call.server == WholeServer(source) && call.expectedSha256 == None
    requires call.crash == BeforePromotion || call.crash == AfterRename
    ensures var result := RunCall(call, EMPTY_DISK);
            && result.exit == Killed && result.session.disk.metaFile.Readable?
            && (call.crash == BeforePromotion ==>
                  result.session.disk.partial == Some(source) && result.session.disk.final == None)
            && (call.crash == AfterRename ==>
                  result.session.disk.partial == None && result.session.disk.final == Some(source))
  {
    hide Attempt;
    var s := Start(call, EMPTY_DISK);
    WholeArrives(call, s, source);
    LoopLeavesFinalAlone(call, s);
    AttemptKeepsMetaOnDisk(call, s);
  }
}
