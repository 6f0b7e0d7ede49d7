// `DownloadManager` of crates/hivebear-registry/src/download.rs, imperatively: loops, files that
// change step by step, and the map of cancellation senders. Each method is proved equal to the
// pure call of DownloadModel.
module DownloadManagers {
  import opened Wrappers
  import opened Text
  import opened DownloadModel

  class DownloadManager {
    var disk: Disk
    var senders: set<string>    // keys of `cancellations`
    var flagged: set<string>    // ids whose channel has been set to true

    constructor (disk: Disk)
      ensures this.disk == disk && senders == {} && flagged == {}
    {
      this.disk, senders, flagged := disk, {}, {};
    }

    // Removes the sender and raises the flag of that download; nothing else changes.
    method CancelDownload(modelId: string) returns (cancelled: bool)
      modifies this`senders, this`flagged
      ensures cancelled == (modelId in old(senders))
      ensures senders == old(senders) - {modelId}
      ensures flagged == if cancelled then old(flagged) + {modelId} else old(flagged)
    {
      cancelled := false;
      if modelId in senders {
        senders, flagged := senders - {modelId}, flagged + {modelId};
        cancelled := true;
      }
    }

    // While a call runs, its sender is registered exactly until it is flagged.
    ghost predicate Listening(modelId: string, others: set<string>)
      reads this
    {
      senders == if modelId in flagged then others else others + {modelId}
    }

    method SendWithRetry(call: Call, offset: nat, maxRetries: nat, sent: nat, ghost others: set<string>)
      returns (r: SendResult)
      requires Listening(call.modelId, others) && call.modelId !in others
      modifies this`senders, this`flagged
      ensures Listening(call.modelId, others)
      ensures call.modelId in flagged <==> call.modelId in old(flagged) || r.cancelled
      ensures flagged - {call.modelId} == old(flagged) - {call.modelId}
      ensures r == Send(call, offset, maxRetries, 0, 2, sent)
    {
      var delay: nat, attempt: nat, slept: nat := 2, 0, 0;
      var total, cancelled := sent, false;
      while true
        invariant attempt <= maxRetries
        invariant Listening(call.modelId, others)
        invariant call.modelId in flagged <==> call.modelId in old(flagged) || cancelled
        invariant flagged - {call.modelId} == old(flagged) - {call.modelId}
        invariant var rest := Send(call, offset, maxRetries, attempt, delay, total);
                  Send(call, offset, maxRetries, 0, 2, sent)
                  == rest.(backoff := slept + rest.backoff, cancelled := cancelled || rest.cancelled)
        decreases maxRetries - attempt
      {
        var x := call.server(total, offset);
        total := total + 1;
        if x.userCancelled {
          var _ := CancelDownload(call.modelId);
          cancelled := true;
        }
        match x.answer {
          case KilledWaiting => return SendResult(total, slept, cancelled, Died);
          case Http(response) =>
            if 200 <= response.status < 300 {
              return SendResult(total, slept, cancelled, Got(response));
            }
            if !(IsTransient(response.status) && attempt < maxRetries) {
              return SendResult(total, slept, cancelled, Refused(RefusalMessage(response, call.url)));
            }
          case NetworkError(text) =>
            if attempt == maxRetries {
              return SendResult(total, slept, cancelled, Refused(GaveUpMessage(maxRetries + 1, text)));
            }
        }
        slept, delay, attempt := slept + delay, 2 * delay, attempt + 1;
      }
    }

    // Unregisters the sender and, on request, removes meta and partial.
    method CleanupOnExit(modelId: string, deletePartial: bool)
      modifies this`senders, this`disk
      ensures senders == old(senders) - {modelId}
      ensures disk == Cleanup(old(disk), deletePartial)
    {
      senders := senders - {modelId};
      if deletePartial {
        disk := disk.(metaFile := Absent);
        disk := disk.(partial := None);
      }
    }

    // A cleanup that removes the files, which the process may not survive.
    method AbandonDownload(call: Call, s: Session, error: Error) returns (t: Session, exit: Exit)
      requires s.disk == disk
      modifies this`senders, this`disk
      ensures (t, exit) == Abandon(call, s, error) && disk == t.disk
      ensures senders == old(senders) - {call.modelId}
    {
      if call.crash == DuringCleanup {
        senders := senders - {call.modelId};
        disk := disk.(metaFile := Absent);
        return s.(disk := disk), Killed;
      }
      CleanupOnExit(call.modelId, true);
      return s.(disk := disk), Failed(error);
    }

    // The body stream of one response, written chunk by chunk.
    method ReadBody(call: Call, s0: Session, body: seq<StreamEvent>, ghost others: set<string>)
      returns (bytes: nat, end: StreamEnd)
      requires s0.disk == disk && disk.partial.Some?
      requires Listening(call.modelId, others) && call.modelId !in others
      requires s0.cancelled == (call.modelId in flagged)
      modifies this
      ensures Listening(call.modelId, others)
      ensures Consume(s0, body)
              == Consumed(s0.(disk := disk, bytes := bytes, cancelled := call.modelId in flagged), end)
      ensures flagged - {call.modelId} == old(flagged) - {call.modelId}
    {
      bytes, end := s0.bytes, CleanEnd;
      var i := 0;
      while i < |body|
        invariant i <= |body| && disk.partial.Some?
        invariant flagged - {call.modelId} == old(flagged) - {call.modelId}
        invariant Listening(call.modelId, others)
        invariant Consume(s0, body)
                  == Consume(s0.(disk := disk, bytes := bytes, cancelled := call.modelId in flagged), body[i..])
      {
        match body[i] {
          case UserCancels =>
            var _ := CancelDownload(call.modelId);
          case ProcessDies =>
            end := DiedReading;
            return;
          case StreamFailure =>
            end := if call.modelId in flagged then CancelSeen else BrokenEnd;
            return;
          case Chunk(data) =>
            if call.modelId in flagged {
              end := CancelSeen;
              return;
            }
            disk := disk.(partial := Some(disk.partial.value + data));
            bytes := bytes + |data|;
        }
        i := i + 1;
      }
    }

    // Plan, discard and first meta write.
    method Prepare(call: Call) returns (s: Session)
      modifies this`disk
      ensures s == Start(call, old(disk))
      ensures disk == match call.crash
                      case DuringDiscard => HalfDiscarded(call, old(disk))
                      case BeforeMetaWrite => AfterPlan(call, old(disk))
                      case _ => s.disk
    {
      var previous := ReadMeta(disk);
      var plan := PlanResume(LenIfPresent(disk), previous, call.url);
      var bytes: nat := 0;
      var planned := disk;
      match plan {
        case Fresh =>
        case DiscardAndRestart =>
          planned := disk.(partial := None, metaFile := Absent);
          disk := disk.(partial := None);
          if call.crash != DuringDiscard {
            disk := disk.(metaFile := Absent);
          }
        case Continue(offset) => bytes := offset;
      }
      var meta := PartialMeta(call.url,
                              if previous.Some? then previous.value.totalBytes else None,
                              call.expectedSha256, call.modelId, call.filename,
                              if previous.Some? then previous.value.startedAt else call.now);
      s := Session(planned.(metaFile := Readable(meta)), bytes, meta, call.streamRetries, None, call.cancelledEarly,
                   0, 0);
      if call.crash != DuringDiscard && call.crash != BeforeMetaWrite {
        disk := s.disk;
      }
    }

    // The request of one iteration, with the restart from 0 after a 416.
    method RequestResponse(call: Call, s: Session, ghost others: set<string>) returns (q: Requested)
      requires s.disk == disk && s.cancelled == (call.modelId in flagged)
      requires Listening(call.modelId, others) && call.modelId !in others
      modifies this
      ensures q == Request(call, s) && disk == q.session.disk
      ensures q.Proceed? ==> Listening(call.modelId, others) && q.session.cancelled == (call.modelId in flagged)
      ensures q.Stop? && q.exit != Killed ==> senders == others
      ensures flagged - {call.modelId} == old(flagged) - {call.modelId}
    {
      var a := SendWithRetry(call, s.bytes, 3, s.sent, others);
      var s1 := Account(s, a);
      match a.outcome {
        case Died => return Stop(s1, Killed);
        case Got(response) => return Proceed(s1, response);
        case Refused(message) =>
          if !(s.bytes > 0 && Contains(ErrorText(message), "416")) {
            if s.bytes == 0 {
              var t, exit := AbandonDownload(call, s1, DownloadError(message));
              return Stop(t, exit);
            }
            CleanupOnExit(call.modelId, false);
            return Stop(s1, Failed(DownloadError(message)));
          }
      }
      disk := disk.(partial := None);
      s1 := s1.(disk := disk, bytes := 0);
      a := SendWithRetry(call, 0, 3, s1.sent, others);
      s1 := Account(s1, a);
      match a.outcome {
        case Died => return Stop(s1, Killed);
        case Got(response) => return Proceed(s1, response);
        case Refused(message) =>
          var t, exit := AbandonDownload(call, s1, DownloadError(message));
          return Stop(t, exit);
      }
    }

    // Offset reset and size bookkeeping.
    method LearnSize(s: Session, response: Response) returns (r: Session)
      requires s.disk == disk
      modifies this`disk
      ensures r == Learn(s, response) && disk == r.disk
    {
      var bytes, meta := s.bytes, s.meta;
      if response.status == 200 && bytes > 0 {
        bytes := 0;
      }
      var advertised := AdvertisedTotal(response, bytes);
      var knownTotal := if advertised.Some? then advertised else meta.totalBytes;
      if knownTotal.Some? && knownTotal != meta.totalBytes {
        meta := meta.(totalBytes := knownTotal);
        disk := disk.(metaFile := Readable(meta));
      }
      r := s.(disk := disk, bytes := bytes, meta := meta, knownTotal := knownTotal);
    }

    // Opening the partial for append or truncated.
    method OpenPartial(s: Session, response: Response, ghost before: Session) returns (r: Session)
      requires s.disk == disk && s == Learn(before, response)
      modifies this`disk
      ensures r == Open(before, response) && disk == r.disk
    {
      if !(response.status == 206 && s.bytes > 0 && disk.partial.Some?) {
        disk := disk.(partial := Some([]));
      }
      r := s.(disk := disk);
    }

    // One iteration of the loop: cancellation, request, body, and what its end means.
    method RunAttempt(call: Call, head: Session, ghost others: set<string>) returns (step: LoopStep)
      requires head.disk == disk && head.cancelled == (call.modelId in flagged)
      requires Listening(call.modelId, others) && call.modelId !in others
      modifies this
      ensures step == Attempt(call, head) && disk == step.session.disk
      ensures !step.Exited? ==> Listening(call.modelId, others) && step.session.cancelled == (call.modelId in flagged)
      ensures step.Exited? && step.exit != Killed ==> senders == others
      ensures flagged - {call.modelId} == old(flagged) - {call.modelId}
    {
      hide Request, Consume;
      if call.modelId in flagged {
        var t, exit := AbandonDownload(call, head, CANCELLED);
        return Exited(t, exit);
      }
      var q := RequestResponse(call, head, others);
      if q.Stop? {
        return Exited(q.session, q.exit);
      }
      var s := LearnSize(q.session, q.response);
      if q.response.killedUnopened {
        return Exited(s, Killed);
      }
      s := OpenPartial(s, q.response, q.session);
      var bytes, end := ReadBody(call, s, q.response.body, others);
      ConsumeFrame(s, q.response.body);
      s := s.(disk := disk, bytes := bytes, cancelled := call.modelId in flagged);
      if end == DiedReading {
        return Exited(s, Killed);
      }
      if end == CancelSeen {
        var t, exit := AbandonDownload(call, s, CANCELLED);
        return Exited(t, exit);
      }
      if end == CleanEnd && !(s.knownTotal.Some? && bytes < s.knownTotal.value) {
        return Complete(s);
      }
      if s.retriesLeft == 0 {
        CleanupOnExit(call.modelId, false);
        return Exited(s, Failed(DownloadInterrupted(call.modelId)));
      }
      s := s.(retriesLeft := s.retriesLeft - 1, bytes := PartialLen(disk));
      match call.pause(s.retriesLeft) {
        case Undisturbed =>
        case CancelledMeanwhile =>
          var _ := CancelDownload(call.modelId);
          s := s.(cancelled := true);
        case KilledMeanwhile =>
          return Exited(s, Killed);
      }
      return Again(s);
    }

    // The whole call. After every exit but a kill this call's sender is gone and the others are
    // untouched; files, answer and counters are those of the pure call.
    method Download(call: Call) returns (exit: Exit, last: Session)
      modifies this
      ensures CallResult(last, exit) == RunCall(call, old(disk))
      ensures disk == last.disk
      ensures exit != Killed ==> senders == old(senders) - {call.modelId}
      ensures flagged - {call.modelId} == old(flagged) - {call.modelId}
    {
      hide Attempt, Promote;
      ghost var others := senders - {call.modelId};
      senders, flagged := senders + {call.modelId}, flagged - {call.modelId};
      var s := Prepare(call);
      if call.crash == DuringDiscard || call.crash == BeforeMetaWrite {
        return Killed, s.(disk := disk);
      }
      if call.cancelledEarly {
        var _ := CancelDownload(call.modelId);
      }
      while true
        invariant Listening(call.modelId, others)
        invariant flagged - {call.modelId} == old(flagged) - {call.modelId}
        invariant s.disk == disk && s.cancelled == (call.modelId in flagged)
        invariant RunLoop(call, Start(call, old(disk))) == RunLoop(call, s)
        decreases s.retriesLeft
      {
        var step := RunAttempt(call, s, others);
        match step {
          case Again(next) =>
            AttemptCountsDown(call, s);
            s := next;
          case Exited(stopped, reason) =>
            return reason, stopped;
          case Complete(finished) =>
            s := finished;
            break;
        }
      }
      if call.crash == BeforePromotion {
        return Killed, s;
      }
      exit, last := PromotePartial(call, s);
    }

    // Everything after the loop.
    method PromotePartial(call: Call, s: Session) returns (exit: Exit, last: Session)
      requires s.disk == disk
      modifies this`senders, this`disk
      ensures (last, exit) == Promote(call, s) && disk == last.disk
      ensures exit != Killed ==> senders == old(senders) - {call.modelId}
    {
      if s.knownTotal.Some? {
        var onDisk := PartialLen(disk);
        if onDisk < s.knownTotal.value {
          CleanupOnExit(call.modelId, false);
          return Failed(DownloadInterrupted(call.modelId)), s;
        }
      }
      var content := if disk.partial.Some? then disk.partial.value else [];
      if call.expectedSha256.Some? {
        var actual := call.sha256(content);
        if ToLower(actual) != ToLower(call.expectedSha256.value) {
          last, exit := AbandonDownload(call, s, IntegrityError(call.expectedSha256.value, actual));
          return;
        }
      }
      disk := disk.(final := Some(content), partial := None);
      if call.crash == AfterRename {
        return Killed, s.(disk := disk);
      }
      disk := disk.(metaFile := Absent);
      CleanupOnExit(call.modelId, false);
      return Done, s.(disk := disk);
    }
  }
}
