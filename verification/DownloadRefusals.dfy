// When a refused request costs the bytes already downloaded: the loop of
// crates/hivebear-registry/src/download.rs looks for the text "416" in the error message.
module DownloadRefusals {
  import opened Wrappers
  import opened Text
  import opened DownloadModel
  import opened DownloadProofs

  const RANGE := "416"

  lemma StatusDigits(status: nat)
    requires 100 <= status < 1000
    ensures Contains(Decimal(status), "416") <==> status == 416
  {
    var d := Decimal(status);
    assert d == Decimal(status / 10) + [Digit(status % 10)];
    assert Decimal(status / 10) == Decimal(status / 100) + [Digit(status / 10 % 10)];
    assert |d| == 3;
    if Contains(d, "416") {
      var i :| 0 <= i <= |d| && MatchesAt(d, "416", i);
      assert d == d[i..i + 3] == "416";
      assert DigitsValue("416"[..2]) == 41 by {
        assert "416"[..2][..1] == "4";
        assert DigitsValue("4") == 4 by { assert "4"[..0] == ""; }
      }
    }
    if status == 416 {
      assert d == "416";
      assert MatchesAt(d, "416", 0);
    }
  }

  lemma OtherRefusalMentions416(r: Response, url: string)
    requires 100 <= r.status < 1000 && r.status !in {401, 403, 404, 416, 429}
    ensures Contains(RefusalMessage(r, url), RANGE) <==> Contains(r.reason, RANGE) || Contains(url, RANGE)
  {
    var d := Decimal(r.status);
    StatusDigits(r.status);
    var front := "HTTP" + [' '] + d;
    ContainsAcrossSeparator("HTTP", ' ', d, RANGE);
    AbsentWithout("HTTP", RANGE, 2);
    ContainsAcrossSeparator(front, ' ', r.reason, RANGE);
    var middle := front + [' '] + r.reason;
    ContainsAcrossSeparator(middle, ' ', "for", RANGE);
    AbsentWithout("for", RANGE, 2);
    ContainsAcrossSeparator(middle + [' '] + "for", ' ', url, RANGE);
    assert RefusalMessage(r, url) == middle + [' '] + "for" + [' '] + url;
  }

  lemma GatedHintLacksSix()
    ensures '6' !in GATED_HINT
  {
  }

  lemma NotFoundLacksSix()
    ensures '6' !in NOT_FOUND
  {
  }

  lemma RateLimitedLacksSix()
    ensures '6' !in RATE_LIMITED
  {
    var start := "Rate limited (HTTP 429). " + "Try again in a few ";
    var end := "minutes, or set " + "HF_TOKEN for " + "higher limits.";
    assert '6' !in start && '6' !in end;
    assert RATE_LIMITED == start + end;
  }

  lemma AccessRefusalMentions416(r: Response, url: string)
    requires r.status in {401, 403}
    ensures Contains(RefusalMessage(r, url), RANGE) <==> Contains(r.reason, RANGE)
  {
    var front, d, rest := "Access denied (HTTP", Decimal(r.status), GATED_HINT[1..];
    GatedHintLacksSix();
    StatusDigits(r.status);
    ContainsAcrossSeparator(front, ' ', d, RANGE);
    AbsentWithout(front, RANGE, 2);
    ContainsAcrossSeparator(front + [' '] + d, ' ', r.reason, RANGE);
    ContainsAcrossSeparator(front + [' '] + d + [' '] + r.reason, ')', rest, RANGE);
    AbsentWithout(rest, RANGE, 2);
    assert GATED_HINT == [')'] + rest;
    assert front + [' '] == "Access denied (HTTP ";
    AccessShape(front, d, r.reason, rest);
  }

  lemma AccessShape(front: string, d: string, reason: string, rest: string)
    ensures front + [' '] + d + " " + reason + ([')'] + rest) == front + [' '] + d + [' '] + reason + [')'] + rest
  {
  }

  lemma PlainRefusals(r: Response, url: string)
    requires r.status == 404 || r.status == 429
    ensures !Contains(RefusalMessage(r, url), RANGE)
  {
    var m := RefusalMessage(r, url);
    if r.status == 404 {
      NotFoundLacksSix();
    } else {
      RateLimitedLacksSix();
    }
    AbsentWithout(m, RANGE, 2);
  }

  lemma RangeRefusal(r: Response, url: string)
    requires r.status == 416
    ensures Contains(RefusalMessage(r, url), RANGE)
  {
    assert RefusalMessage(r, url) == "Requested range not satisfiable (HTTP" + [' '] + "416).";
    ContainsAcrossSeparator("Requested range not satisfiable (HTTP", ' ', "416).", RANGE);
    assert MatchesAt("416).", RANGE, 0);
  }

  lemma ErrorTextPrefix(m: string)
    ensures Contains(ErrorText(m), RANGE) <==> Contains(m, RANGE)
  {
    assert ErrorText(m) == "Download failed:" + [' '] + m;
    ContainsAcrossSeparator("Download failed:", ' ', m, RANGE);
    AbsentWithout("Download failed:", RANGE, 2);
  }

  // The text test for "416" answers yes to a real 416, and to any other refusal that quotes a reason or
  // a URL containing those digits.
  lemma RefusalMentions416(r: Response, url: string)
    requires 100 <= r.status < 1000
    ensures Contains(ErrorText(RefusalMessage(r, url)), RANGE)
            <==> || r.status == 416
                 || (r.status !in {404, 429} && Contains(r.reason, RANGE))
                 || (r.status !in {401, 403, 404, 429} && Contains(url, RANGE))
  {
    ErrorTextPrefix(RefusalMessage(r, url));
    if r.status in {401, 403} {
      AccessRefusalMentions416(r, url);
    } else if r.status == 404 || r.status == 429 {
      PlainRefusals(r, url);
    } else if r.status == 416 {
      RangeRefusal(r, url);
    } else {
      OtherRefusalMentions416(r, url);
    }
  }

  // So it does when the text of the network error it gave up on contains them.
  lemma GaveUpMentions416(text: string)
    ensures Contains(ErrorText(GaveUpMessage(4, text)), RANGE) <==> Contains(text, RANGE)
  {
    ErrorTextPrefix(GaveUpMessage(4, text));
    var front := "Download failed after 4 attempts:";
    GaveUpForm(text);
    ContainsAcrossSeparator(front, ' ', text, RANGE);
    AbsentWithout(front, RANGE, 1);
  }

  lemma GaveUpForm(text: string)
    ensures GaveUpMessage(4, text) == "Download failed after 4 attempts:" + [' '] + text
  {
    assert Decimal(4) == "4" by { assert Digit(4) == '4'; }
    Assoc("Download failed after 4 attempts:", " ", text);
    assert "Download failed after " + "4" + " attempts: " == "Download failed after 4 attempts:" + " ";
  }

  // A failed request fails with the message of the last answer it got.
  lemma {:induction false} FailsWithLastAnswer(call: Call, offset: nat, attempt: nat, delay: nat, sent: nat)
    requires attempt <= 3
    ensures var r := Send(call, offset, 3, attempt, delay, sent);
            && r.sent > sent
            && (r.outcome.Refused? ==>
                  match call.server(r.sent - 1, offset).answer
                  case Http(x) => r.outcome.message == RefusalMessage(x, call.url)
                  case NetworkError(text) => r.outcome.message == GaveUpMessage(4, text)
                  case KilledWaiting => false)
    decreases 3 - attempt
  {
    hide RefusalMessage, GaveUpMessage;
    if attempt < 3 {
      FailsWithLastAnswer(call, offset, attempt + 1, 2 * delay, sent + 1);
    }
  }

  // Answers after which the text test sees a range refusal.
  predicate LooksLike416(a: Answer, url: string) {
    match a
    case Http(r) =>
      || r.status == 416
      || (r.status !in {404, 429} && Contains(r.reason, RANGE))
      || (r.status !in {401, 403, 404, 429} && Contains(url, RANGE))
    case NetworkError(text) => Contains(text, RANGE)
    case KilledWaiting => false
  }

  // The last answer to the requests made from the session's offset.
  function LastAnswer(call: Call, s: Session): Answer {
    var n := Send(call, s.bytes, 3, 0, 2, s.sent).sent;
    call.server(if n > 0 then n - 1 else 0, s.bytes).answer
  }

  // A failed request throws the downloaded bytes away exactly after those answers.
  lemma ProgressDroppedIff(call: Call, s: Session)
    requires CounterAgrees(s) && s.bytes > 0
    requires Send(call, s.bytes, 3, 0, 2, s.sent).outcome.Refused?
    requires var last := LastAnswer(call, s);
             last.Http? ==> 100 <= last.response.status < 1000
    ensures PartialLen(Request(call, s).session.disk) < PartialLen(s.disk)
            <==> LooksLike416(LastAnswer(call, s), call.url)
  {
    hide Contains, RefusalMessage, GaveUpMessage, ErrorText;
    FailsWithLastAnswer(call, s.bytes, 0, 2, s.sent);
    match LastAnswer(call, s)
    case Http(r) => RefusalMentions416(r, call.url);
    case NetworkError(text) => GaveUpMentions416(text);
    case KilledWaiting =>
  }

  // With 4 bytes of "http://host/416" on disk and a server that keeps answering 500, all 4 are lost.
  lemma UrlDropsProgress(call: Call, meta: PartialMeta)
    requires call.url == "http://host/416" && meta.url == call.url
    requires forall k, offset ::
               call.server(k, offset)
               == Exchange(false, Http(Response(500, "Internal Server Error", None, None, false, [])))
    ensures PartialLen(Request(call, Start(call, Disk(Some([1, 2, 3, 4]), Readable(meta), None))).session.disk) == 0
  {
    hide Contains, RefusalMessage, ErrorText, Restart;
    var s := Start(call, Disk(Some([1, 2, 3, 4]), Readable(meta), None));
    KeptRefusing(call, s);
    UrlHas416(call.url);
    ProgressDroppedIff(call, s);
    UnopenedKeepsPartial(call, s);
  }

  lemma KeptRefusing(call: Call, s: Session)
    requires forall k, offset ::
               call.server(k, offset)
               == Exchange(false, Http(Response(500, "Internal Server Error", None, None, false, [])))
    ensures Send(call, s.bytes, 3, 0, 2, s.sent).outcome.Refused?
    ensures LastAnswer(call, s) == Http(Response(500, "Internal Server Error", None, None, false, []))
  {
    SendStopsAt(call, s.bytes, 3, 0, 2, s.sent, 3);
  }

  lemma UrlHas416(url: string)
    requires url == "http://host/416"
    ensures Contains(url, RANGE)
  {
    assert url[12..15] == "416";
    assert MatchesAt(url, RANGE, 12);
  }
}
