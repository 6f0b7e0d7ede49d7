// The resumable downloader of crates/hivebear-registry/src/download.rs: files, server answers, and
// one call of `download` written as a pure function of the files it finds and the answers it gets.
// DownloadManager.dfy runs the same call imperatively; DownloadProofs.dfy states what it promises.
module DownloadModel {
  import opened Wrappers
  import opened Text

  newtype Byte = b: int | 0 <= b < 256

  // ---------------------------------------------------------------- files

  datatype PartialMeta = PartialMeta(
    url: string,
    totalBytes: Option<nat>,
    sha256Expected: Option<string>,
    modelId: string,
    filename: string,
    startedAt: int)

  datatype MetaFile = Absent | Unreadable | Readable(meta: PartialMeta)

  // The three files of one destination: `.partial`, `.partial.meta` and the finished file.
  datatype Disk = Disk(partial: Option<seq<Byte>>, metaFile: MetaFile, final: Option<seq<Byte>>)

  const EMPTY_DISK := Disk(None, Absent, None)

  function PartialLen(disk: Disk): nat {
    if disk.partial.Some? then |disk.partial.value| else 0
  }

  // ---------------------------------------------------------------- the outside world

  // What the body stream of a response yields. The user may cancel, and the process may be killed,
  // between any two items.
  datatype StreamEvent = Chunk(data: seq<Byte>) | StreamFailure | UserCancels | ProcessDies

  datatype Response = Response(
    status: nat,
    reason: string,                  // canonical phrase of the status
    contentRange: Option<string>,
    contentLength: Option<nat>,
    killedUnopened: bool,            // the process dies once the size is recorded, before the file is opened
    body: seq<StreamEvent>)

  datatype Answer = Http(response: Response) | NetworkError(text: string) | KilledWaiting

  // One request: whether the user cancelled while it was pending, and how it was answered.
  datatype Exchange = Exchange(userCancelled: bool, answer: Answer)

  // Answer to the k-th request of a call, made for the bytes from the given offset on.
  type Server = (nat, nat) -> Exchange

  // Where else the process may be killed.
  datatype CrashPoint = Nowhere | DuringDiscard | BeforeMetaWrite | BeforePromotion | AfterRename | DuringCleanup

  // What happens in the pause before another stream attempt.
  datatype Pause = Undisturbed | CancelledMeanwhile | KilledMeanwhile

  datatype Call = Call(
    url: string,
    filename: string,
    expectedSha256: Option<string>,
    modelId: string,
    now: int,
    streamRetries: nat,
    cancelledEarly: bool,            // the user cancels before the loop is reached
    pause: nat -> Pause,             // the pause after which so many retries are left
    sha256: seq<Byte> -> string,
    server: Server,
    crash: CrashPoint)

  datatype Error = DownloadError(message: string)
                 | DownloadInterrupted(modelId: string)
                 | IntegrityError(expected: string, actual: string)

  datatype Exit = Done | Failed(error: Error) | Killed

  const CANCELLED := DownloadError("Download cancelled by user")

  // Display of RegistryError::DownloadError (error.rs:10).
  function ErrorText(message: string): string {
    "Download failed: " + message
  }

  // ---------------------------------------------------------------- pure pieces

  // Total size named by `Content-Range: bytes <start>-<end>/<total>`.
  function ParseContentRangeTotal(value: string): Option<nat> {
    match LastIndexOf(value, '/')
    case None => None
    case Some(i) => ParseUnsigned(Trim(value[i + 1..]), U64)
  }

  datatype ResumePlan = Fresh | Continue(offset: nat) | DiscardAndRestart

  function PlanResume(partialLen: Option<nat>, meta: Option<PartialMeta>, url: string): ResumePlan {
    if partialLen.None? || partialLen.value == 0 then Fresh
    else match meta
      case Some(m) => if m.url == url then Continue(partialLen.value) else DiscardAndRestart
      case None => Continue(partialLen.value)
  }

  // Texts of more than some 40 characters are put together from pieces: the verifier only looks into
  // a literal character by character when it is short.
  const GATED_HINT := "). You may need " + "to set HF_TOKEN " + "for gated models."
  const NOT_FOUND :=
    "File not found (HTTP 404). " + "The model file " + "may have been moved " + "or renamed."
  const RATE_LIMITED :=
    "Rate limited (HTTP 429). " + "Try again in a few " + "minutes, or set " + "HF_TOKEN for " + "higher limits."
  const RANGE_REFUSED := "Requested range not satisfiable (HTTP 416)."

  function RefusalMessage(r: Response, url: string): string {
    if r.status == 401 || r.status == 403 then
      "Access denied (HTTP " + Decimal(r.status) + " " + r.reason + GATED_HINT
    else if r.status == 404 then
      NOT_FOUND
    else if r.status == 416 then
      RANGE_REFUSED
    else if r.status == 429 then
      RATE_LIMITED
    else
      "HTTP " + Decimal(r.status) + " " + r.reason + " for " + url
  }

  function GaveUpMessage(attempts: nat, text: string): string {
    "Download failed after " + Decimal(attempts) + " attempts: " + text
  }

  // The size a response reveals; the sum wraps like u64 addition in a release build.
  function AdvertisedTotal(r: Response, offset: nat): Option<nat> {
    var rangeTotal := if r.status == 206 && r.contentRange.Some?
                      then ParseContentRangeTotal(r.contentRange.value) else None;
    if rangeTotal.Some? then rangeTotal
    else if r.status == 206 && r.contentLength.Some? then Some((r.contentLength.value + offset) % U64)
    else r.contentLength
  }

  function Cleanup(disk: Disk, deletePartial: bool): Disk {
    if deletePartial then disk.(metaFile := Absent, partial := None) else disk
  }

  // ---------------------------------------------------------------- send_with_retry

  datatype SendOutcome = Got(response: Response) | Refused(message: string) | Died

  datatype SendResult = SendResult(sent: nat, backoff: nat, cancelled: bool, outcome: SendOutcome)

  predicate IsTransient(status: nat) {
    status == 429 || 500 <= status < 600
  }

  // Attempts `attempt..=maxRetries`, `sent` requests of this call having been made before.
  function Send(call: Call, offset: nat, maxRetries: nat, attempt: nat, delay: nat, sent: nat): SendResult
    requires attempt <= maxRetries
    decreases maxRetries - attempt
  {
    var x := call.server(sent, offset);
    match x.answer
    case KilledWaiting => SendResult(sent + 1, 0, x.userCancelled, Died)
    case Http(r) =>
      if 200 <= r.status < 300 then SendResult(sent + 1, 0, x.userCancelled, Got(r))
      else if IsTransient(r.status) && attempt < maxRetries then
        var rest := Send(call, offset, maxRetries, attempt + 1, 2 * delay, sent + 1);
        rest.(backoff := delay + rest.backoff, cancelled := x.userCancelled || rest.cancelled)
      else SendResult(sent + 1, 0, x.userCancelled, Refused(RefusalMessage(r, call.url)))
    case NetworkError(text) =>
      if attempt < maxRetries then
        var rest := Send(call, offset, maxRetries, attempt + 1, 2 * delay, sent + 1);
        rest.(backoff := delay + rest.backoff, cancelled := x.userCancelled || rest.cancelled)
      else SendResult(sent + 1, 0, x.userCancelled, Refused(GaveUpMessage(maxRetries + 1, text)))
  }

  // ---------------------------------------------------------------- download

  // The local variables of a running call, with the files.
  datatype Session = Session(
    disk: Disk,
    bytes: nat,              // bytes_downloaded
    meta: PartialMeta,
    retriesLeft: nat,
    knownTotal: Option<nat>,
    cancelled: bool,
    sent: nat,
    backoff: nat)

  function ReadMeta(disk: Disk): Option<PartialMeta> {
    if disk.metaFile.Readable? then Some(disk.metaFile.meta) else None
  }

  function LenIfPresent(disk: Disk): Option<nat> {
    if disk.partial.Some? then Some(|disk.partial.value|) else None
  }

  function AfterPlan(call: Call, disk: Disk): Disk {
    if PlanResume(LenIfPresent(disk), ReadMeta(disk), call.url).DiscardAndRestart?
    then disk.(partial := None, metaFile := Absent) else disk
  }

  // A discard of which only the first removal was made.
  function HalfDiscarded(call: Call, disk: Disk): Disk {
    if PlanResume(LenIfPresent(disk), ReadMeta(disk), call.url).DiscardAndRestart?
    then disk.(partial := None) else disk
  }

  // Everything up to the loop: plan, discard, write the meta.
  function Start(call: Call, disk: Disk): Session {
    var plan := PlanResume(LenIfPresent(disk), ReadMeta(disk), call.url);
    var previous := ReadMeta(disk);
    var meta := PartialMeta(call.url,
                            if previous.Some? then previous.value.totalBytes else None,
                            call.expectedSha256, call.modelId, call.filename,
                            if previous.Some? then previous.value.startedAt else call.now);
    Session(AfterPlan(call, disk).(metaFile := Readable(meta)),
            if plan.Continue? then plan.offset else 0,
            meta, call.streamRetries, None, call.cancelledEarly, 0, 0)
  }

  // Giving up with a deleting cleanup: the meta is removed, then the partial, then the error returned.
  function Abandon(call: Call, s: Session, error: Error): (Session, Exit) {
    if call.crash == DuringCleanup then (s.(disk := s.disk.(metaFile := Absent)), Killed)
    else (s.(disk := Cleanup(s.disk, true)), Failed(error))
  }

  datatype Requested = Proceed(session: Session, response: Response) | Stop(session: Session, exit: Exit)

  function Account(s: Session, a: SendResult): Session {
    s.(sent := a.sent, backoff := s.backoff + a.backoff, cancelled := s.cancelled || a.cancelled)
  }

  // The request of one loop iteration, with the restart from 0 after a 416.
  function Request(call: Call, s: Session): (q: Requested) {
    var a := Send(call, s.bytes, 3, 0, 2, s.sent);
    var s1 := Account(s, a);
    match a.outcome
    case Died => Stop(s1, Killed)
    case Got(r) => Proceed(s1, r)
    case Refused(message) =>
      if s.bytes > 0 && Contains(ErrorText(message), "416") then Restart(call, s1)
      else if s.bytes == 0 then var (t, exit) := Abandon(call, s1, DownloadError(message)); Stop(t, exit)
      else Stop(s1, Failed(DownloadError(message)))
  }

  function Restart(call: Call, s: Session): Requested {
    var s1 := s.(disk := s.disk.(partial := None), bytes := 0);
    var b := Send(call, 0, 3, 0, 2, s1.sent);
    var s2 := Account(s1, b);
    match b.outcome
    case Died => Stop(s2, Killed)
    case Got(r) => Proceed(s2, r)
    case Refused(message) => var (t, exit) := Abandon(call, s2, DownloadError(message)); Stop(t, exit)
  }

  // Offset, advertised size and meta update.
  function Learn(s: Session, r: Response): Session {
    var bytes := if r.status == 200 && s.bytes > 0 then 0 else s.bytes;
    var advertised := AdvertisedTotal(r, bytes);
    var total := if advertised.Some? then advertised else s.meta.totalBytes;
    var learned := total.Some? && total != s.meta.totalBytes;
    var meta := if learned then s.meta.(totalBytes := total) else s.meta;
    s.(disk := s.disk.(metaFile := if learned then Readable(meta) else s.disk.metaFile),
       bytes := bytes, meta := meta, knownTotal := total)
  }

  // The same with the file opened, for append or truncated, before the body is read.
  function Open(s: Session, r: Response): Session {
    var l := Learn(s, r);
    var partial := if r.status == 206 && l.bytes > 0 && l.disk.partial.Some? then l.disk.partial else Some([]);
    l.(disk := l.disk.(partial := partial))
  }

  datatype StreamEnd = CleanEnd | BrokenEnd | CancelSeen | DiedReading

  datatype Consumed = Consumed(session: Session, end: StreamEnd)

  function WriteChunk(s: Session, data: seq<Byte>): Session {
    var written := if s.disk.partial.Some? then s.disk.partial.value else [];
    s.(disk := s.disk.(partial := Some(written + data)), bytes := s.bytes + |data|)
  }

  function Consume(s: Session, body: seq<StreamEvent>): Consumed
    decreases |body|
  {
    if body == [] then Consumed(s, CleanEnd)
    else match body[0]
      case UserCancels => Consume(s.(cancelled := true), body[1..])
      case ProcessDies => Consumed(s, DiedReading)
      case StreamFailure => Consumed(s, if s.cancelled then CancelSeen else BrokenEnd)
      case Chunk(data) =>
        if s.cancelled then Consumed(s, CancelSeen) else Consume(WriteChunk(s, data), body[1..])
  }

  datatype LoopStep = Again(session: Session) | Complete(session: Session) | Exited(session: Session, exit: Exit)

  // One iteration of the download loop.
  function Attempt(call: Call, s: Session): LoopStep {
    if s.cancelled then var (t, exit) := Abandon(call, s, CANCELLED); Exited(t, exit)
    else match Request(call, s)
      case Stop(s1, exit) => Exited(s1, exit)
      case Proceed(s1, r) =>
        if r.killedUnopened then Exited(Learn(s1, r), Killed)
        else AfterBody(call, Consume(Open(s1, r), r.body))
  }

  function AfterBody(call: Call, c: Consumed): LoopStep {
    var s := c.session;
    if c.end.DiedReading? then Exited(s, Killed)
    else if c.end.CancelSeen? then var (t, exit) := Abandon(call, s, CANCELLED); Exited(t, exit)
    else if c.end.CleanEnd? && !(s.knownTotal.Some? && s.bytes < s.knownTotal.value) then Complete(s)
    else if s.retriesLeft == 0 then Exited(s, Failed(DownloadInterrupted(call.modelId)))
    else Wait(call, s.(retriesLeft := s.retriesLeft - 1, bytes := PartialLen(s.disk)))
  }

  // The pause before the next stream attempt.
  function Wait(call: Call, s: Session): LoopStep {
    match call.pause(s.retriesLeft)
    case Undisturbed => Again(s)
    case CancelledMeanwhile => Again(s.(cancelled := true))
    case KilledMeanwhile => Exited(s, Killed)
  }

  lemma ConsumeFrame(s: Session, body: seq<StreamEvent>)
    ensures var t := Consume(s, body).session;
            t == s.(disk := s.disk.(partial := t.disk.partial), bytes := t.bytes, cancelled := t.cancelled)
    ensures s.disk.partial.Some? ==> Consume(s, body).session.disk.partial.Some?
    ensures s.cancelled ==> Consume(s, body).session.cancelled
    decreases |body|
  {
    if body != [] {
      match body[0]
      case UserCancels => ConsumeFrame(s.(cancelled := true), body[1..]);
      case Chunk(data) => if !s.cancelled { ConsumeFrame(WriteChunk(s, data), body[1..]); }
      case _ =>
    }
  }

  lemma AttemptCountsDown(call: Call, s: Session)
    requires Attempt(call, s).Again?
    ensures s.retriesLeft == Attempt(call, s).session.retriesLeft + 1
  {
    var q := Request(call, s);
    ConsumeFrame(Open(q.session, q.response), q.response.body);
  }

  function RunLoop(call: Call, s: Session): (r: LoopStep)
    ensures !r.Again?
    decreases s.retriesLeft
  {
    var step := Attempt(call, s);
    if step.Again? then
      AttemptCountsDown(call, s);
      RunLoop(call, step.session)
    else step
  }

  // Size guard, checksum and rename.
  function Promote(call: Call, s: Session): (Session, Exit) {
    if s.knownTotal.Some? && PartialLen(s.disk) < s.knownTotal.value then
      (s, Failed(DownloadInterrupted(call.modelId)))
    else
      var content := if s.disk.partial.Some? then s.disk.partial.value else [];
      var actual := call.sha256(content);
      if call.expectedSha256.Some? && ToLower(actual) != ToLower(call.expectedSha256.value) then
        Abandon(call, s, IntegrityError(call.expectedSha256.value, actual))
      else
        var renamed := s.disk.(final := Some(content), partial := None);
        if call.crash == AfterRename then (s.(disk := renamed), Killed)
        else (s.(disk := renamed.(metaFile := Absent)), Done)
  }

  datatype CallResult = CallResult(session: Session, exit: Exit)

  // A whole call of `download`.
  function RunCall(call: Call, disk: Disk): CallResult {
    var s0 := Start(call, disk);
    if call.crash == DuringDiscard then CallResult(s0.(disk := HalfDiscarded(call, disk)), Killed)
    else if call.crash == BeforeMetaWrite then CallResult(s0.(disk := AfterPlan(call, disk)), Killed)
    else match RunLoop(call, s0)
      case Exited(s, exit) => CallResult(s, exit)
      case Complete(s) =>
        if call.crash == BeforePromotion then CallResult(s, Killed)
        else var (t, exit) := Promote(call, s); CallResult(t, exit)
  }
}
