/**
  What a capture records, and what the assessors conclude from it, in terms of the lines of
  the head and the text of the body: from the bytes on the wire to the verdict.
 */
module HeaderEvidence {
  import opened Acquire
  import opened Bytes
  import opened Chunked
  import opened Evidence
  import opened HttpHead
  import opened Recheck
  import opened Response
  import opened Rules
  import opened TruncatedBodies
  import opened WireText
  import opened Wrappers

  // ---------------------------------------------------------------- the flags of a capture

  predicate Challenged(spellings: seq<Spelling>) {
    || HasLine(spellings, "www-authenticate") || HasLine(spellings, "proxy-authenticate")
    || HasLine(spellings, "cf-mitigated")
  }

  /** Every `content-encoding` line says `identity`. */
  predicate Unencoded(spellings: seq<Spelling>) {
    forall i | 0 <= i < |spellings| && Named(spellings[i], "content-encoding") :: Spells(spellings[i].value, "identity")
  }

  /** The record says of a head what its lines say. */
  predicate RecordsLines(c: CapturedResponse, spellings: seq<Spelling>) {
    && c.headersComplete
    && (c.hstsPresent <==> HasLine(spellings, "strict-transport-security"))
    && (c.challengePresent <==> Challenged(spellings))
    && (c.identityEncoding <==> Unencoded(spellings))
  }

  lemma {:induction false} EncodingIs(spellings: seq<Spelling>)
    ensures IdentityEncoding(FieldsOf(spellings)) <==> Unencoded(spellings)
  {
    NamedValues(spellings, "content-encoding");
    var values := ValuesOf(FieldsOf(spellings), CONTENT_ENCODING);
    forall v: seq<Byte>
      ensures Lower(v) == IDENTITY <==> Spells(v, "identity")
    {
      LowerSpells(v, "identity");
    }
    forall i | 0 <= i < |spellings| && Named(spellings[i], "content-encoding")
      ensures spellings[i].value in values
    {
    }
  }

  lemma {:induction false} HstsLines(spellings: seq<Spelling>)
    ensures AnyField(FieldsOf(spellings), STRICT_TRANSPORT_SECURITY) <==> HasLine(spellings, "strict-transport-security")
  {
    NoValues(spellings, "strict-transport-security");
  }

  lemma {:induction false} WwwLines(spellings: seq<Spelling>)
    ensures AnyField(FieldsOf(spellings), WWW_AUTHENTICATE) <==> HasLine(spellings, "www-authenticate")
  {
    NoValues(spellings, "www-authenticate");
  }

  lemma {:induction false} ProxyLines(spellings: seq<Spelling>)
    ensures AnyField(FieldsOf(spellings), PROXY_AUTHENTICATE) <==> HasLine(spellings, "proxy-authenticate")
  {
    NoValues(spellings, "proxy-authenticate");
  }

  lemma {:induction false} MitigatedLines(spellings: seq<Spelling>)
    ensures AnyField(FieldsOf(spellings), CF_MITIGATED) <==> HasLine(spellings, "cf-mitigated")
  {
    NoValues(spellings, "cf-mitigated");
  }

  lemma {:induction false} ChallengeLines(spellings: seq<Spelling>)
    ensures (AnyField(FieldsOf(spellings), WWW_AUTHENTICATE)
             || AnyField(FieldsOf(spellings), PROXY_AUTHENTICATE)
             || AnyField(FieldsOf(spellings), CF_MITIGATED))
            <==> Challenged(spellings)
  {
    WwwLines(spellings);
    ProxyLines(spellings);
    MitigatedLines(spellings);
  }

  lemma {:induction false} CaptureRecords(status: nat, spellings: seq<Spelling>, body: seq<Byte>, complete: bool)
    ensures RecordsLines(Capture(status, FieldsOf(spellings), body, complete), spellings)
  {
    HstsLines(spellings);
    ChallengeLines(spellings);
    EncodingIs(spellings);
  }

  /** The retained bytes begin with a head of the recorded status, and the record says what its lines say. */
  predicate HeadRecorded(r: Reading, c: CapturedResponse, statusLine: seq<Byte>, spellings: seq<Spelling>) {
    && HeadSpelled(statusLine, c.status, spellings) && HeadText(statusLine, spellings) <= r.raw
    && RecordsLines(c, spellings)
  }

  /** Whatever a capture records, complete or truncated, its lines say. */
  lemma CapturedLines(segments: seq<seq<Byte>>, ending: Ending, budget: nat)
    returns (statusLine: seq<Byte>, spellings: seq<Spelling>)
    requires Captured(Read(segments, ending, budget)).Some?
    ensures var r := Read(segments, ending, budget);
            var c := Captured(r).value;
            && HeadRecorded(r, c.response, statusLine, spellings)
            && (c.response.bodyComplete <==> r.status.Completed?) && c.response.bodySha == Sha256(c.body)
  {
    var r := Read(segments, ending, budget);
    CapturedFromHead(segments, ending, budget);
    var head, c := ParseHead(r.raw).value, Captured(r).value;
    statusLine, spellings := AcceptsOnlyHeads(r.raw);
    HeadIs(statusLine, head.status, spellings);
    CaptureRecords(head.status, spellings, c.body, r.status.Completed?);
  }

  // ---------------------------------------------------------------- the body of a capture

  /** A complete capture is a message: its lines and its body are recorded. */
  lemma CapturedMessage(segments: seq<seq<Byte>>, ending: Ending, budget: nat) returns (m: Message)
    requires Read(segments, ending, budget).status.Completed?
    ensures var r := Read(segments, ending, budget);
            && Captured(r).Some?
            && var c := Captured(r).value;
               && MessageSpelled(m, c.response.status) && MessageText(m) == r.raw
               && RecordsLines(c.response, m.spellings) && c.body == DataOf(m.framing)
  {
    var r := Read(segments, ending, budget);
    Retained(segments, 0, ending, budget);
    m := AcceptsOnlyMessages(r.raw);
    var status := StatusOf(m.statusLine);
    MessageIs(m, status);
    BodyIs(m.framing);
    CaptureRecords(status, m.spellings, BodyOf(m.framing), true);
  }

  /** The body bytes that the first `n` bytes after the head carry. */
  function Arrived(framing: Framing, n: nat): seq<Byte>
    requires n <= |BodyText(framing)|
  {
    match framing
    case Sized(body) => body[..n]
    case Chunks(parts, _) => Received(parts, n)
    case NoBody => []
  }

  lemma SizedHasLine(spellings: seq<Spelling>, size: nat)
    requires SizedBy(spellings, size)
    ensures HasLine(spellings, "content-length")
  {
  }

  lemma ChunkedHasLine(spellings: seq<Spelling>)
    requires ChunkedBy(spellings)
    ensures HasLine(spellings, "transfer-encoding")
  {
  }

  /** The field lines say how the body is sent. */
  lemma FramingLines(m: Message, status: nat)
    requires MessageSpelled(m, status)
    ensures AnyField(FieldsOf(m.spellings), TRANSFER_ENCODING) <==> m.framing.Chunks?
    ensures AnyField(FieldsOf(m.spellings), CONTENT_LENGTH) <==> m.framing.Sized?
    ensures m.framing.Chunks? ==> ValidCoding(m.framing.parts, m.framing.last)
  {
    LengthLines(m.spellings);
    EncodingLines(m.spellings);
    match m.framing
    case Sized(body) => SizedHasLine(m.spellings, |body|);
    case Chunks(parts, last) =>
      ChunkedHasLine(m.spellings);
      CodingIs(parts, last);
    case NoBody =>
  }

  /** All that is missing of the body is the end of its last chunk line. */
  predicate EndMissing(framing: Framing, n: nat) {
    framing.Chunks? && n >= |BodyText(framing)| - 2
  }

  lemma RecoverCut(head: Head, framing: Framing, wire: seq<Byte>)
    requires wire < BodyText(framing)
    requires AnyField(head.fields, TRANSFER_ENCODING) <==> framing.Chunks?
    requires AnyField(head.fields, CONTENT_LENGTH) <==> framing.Sized?
    requires framing.Chunks? ==> ValidCoding(framing.parts, framing.last)
    ensures RecoverBody(head, wire) == if EndMissing(framing, |wire|) then None else Some(Arrived(framing, |wire|))
  {
    BodyIs(framing);
    var whole := BodyWire(framing);
    assert wire == whole[..|wire|];
    if framing.Chunks? {
      PartialIsReceived(framing.parts, framing.last, |wire|);
    }
  }

  /** Once its head is read, the rest of a message that is cut short is read as its body. */
  lemma CutAfterHead(m: Message, status: nat, wire: seq<Byte>) returns (head: Head)
    requires MessageSpelled(m, status) && wire < BodyText(m.framing)
    ensures head.status == status && head.fields == FieldsOf(m.spellings)
    ensures IncompleteResponse(HeadText(m.statusLine, m.spellings) + wire) == Recover(head, wire)
  {
    var raw, whole := HeadText(m.statusLine, m.spellings) + wire, MessageText(m);
    HeadIs(m.statusLine, status, m.spellings);
    HeadRoundTrip(m.statusLine, m.spellings, wire);
    TextRoundTrip(m, status);
    assert raw == whole[..|raw|];
    BeforeCompletion(raw, whole);
    head := ParseHead(raw).value;
    assert raw[head.bodyStart..] == wire;
  }

  /** What is recovered of a message, from its head and some of its body. */
  lemma CutInBody(m: Message, status: nat, wire: seq<Byte>)
    requires MessageSpelled(m, status) && wire < BodyText(m.framing)
    ensures var c := IncompleteResponse(HeadText(m.statusLine, m.spellings) + wire);
            && (c.Some? <==> !EndMissing(m.framing, |wire|))
            && (c.Some? ==>
                  && c.value.response.status == status && RecordsLines(c.value.response, m.spellings)
                  && c.value.body == Arrived(m.framing, |wire|))
  {
    var head := CutAfterHead(m, status, wire);
    FramingLines(m, status);
    RecoverCut(head, m.framing, wire);
    CaptureRecords(status, m.spellings, Arrived(m.framing, |wire|), false);
  }

  /** A head is not complete before its end. */
  lemma ShortHead(statusLine: seq<Byte>, spellings: seq<Spelling>, status: nat, raw: seq<Byte>)
    requires HeadSpelled(statusLine, status, spellings) && raw < HeadText(statusLine, spellings)
    ensures !ParseHead(raw).Complete?
  {
    var head := HeadText(statusLine, spellings);
    HeadIs(statusLine, status, spellings);
    HeadRoundTrip(statusLine, spellings, []);
    HeadExtend(raw, head[|raw|..]);
    assert raw + head[|raw|..] == head == head + [];
  }

  /**
    What is recovered of a message that is cut short: nothing before its head is complete, or
    when only the end of its last chunk line is missing; and else its lines, and every body
    byte that arrived.
   */
  lemma CutMessage(m: Message, status: nat, k: nat)
    requires MessageSpelled(m, status) && k < |MessageText(m)|
    ensures var c, head := IncompleteResponse(MessageText(m)[..k]), |HeadText(m.statusLine, m.spellings)|;
            && (c.Some? <==> head <= k && !EndMissing(m.framing, k - head))
            && (c.Some? ==>
                  && c.value.response.status == status && RecordsLines(c.value.response, m.spellings)
                  && c.value.body == Arrived(m.framing, k - head))
  {
    var head, body := HeadText(m.statusLine, m.spellings), BodyText(m.framing);
    var raw := MessageText(m)[..k];
    if |head| <= k {
      var wire := body[..k - |head|];
      assert raw == head + wire;
      CutInBody(m, status, wire);
    } else {
      assert raw == head[..k];
      ShortHead(m.statusLine, m.spellings, status, raw);
    }
  }

  /** From any bytes with a whole head: something is recovered exactly if they are not malformed and the framing can be read. */
  lemma RecoveredExactly(raw: seq<Byte>) returns (statusLine: seq<Byte>, spellings: seq<Spelling>)
    ensures ParseHead(raw).Complete? ==>
              && HeadSpelled(statusLine, ParseHead(raw).value.status, spellings) && HeadText(statusLine, spellings) <= raw
              && var wire := raw[|HeadText(statusLine, spellings)|..];
                 (IncompleteResponse(raw).Some?
                  <==> && !ParseResponse(raw, false).Malformed?
                       && if HasLine(spellings, "transfer-encoding") then Decode(wire, true).Complete?
                          else HasLine(spellings, "content-length"))
    ensures !ParseHead(raw).Complete? ==> IncompleteResponse(raw).None?
  {
    statusLine, spellings := [], [];
    if ParseHead(raw).Complete? {
      statusLine, spellings := AcceptsOnlyHeads(raw);
      HeadIs(statusLine, ParseHead(raw).value.status, spellings);
      LengthLines(spellings);
      EncodingLines(spellings);
    }
  }

  // ---------------------------------------------------------------- from lines to the HSTS verdict

  /** What the HSTS rule says of a reply of an HTTPS hostname, by its status, its lines and its page. */
  predicate HstsSays(a: Assessment, ended: AcquisitionStatus, status: nat, spellings: seq<Spelling>, accessPage: bool) {
    var usable := status == 200 && !Challenged(spellings) && Unencoded(spellings) && !accessPage;
    var redirected := 300 <= status <= 399;
    var refused := !redirected && (Challenged(spellings) || accessPage || status >= 400);
    var present := HasLine(spellings, "strict-transport-security");
    && (a.outcome == SupportedNegative <==> usable && present)
    && (a.outcome == SupportedPositive <==> usable && !present)
    && (a.outcome == SupportedNegative ==> a.reason == HstsHeaderPresent)
    && (a.outcome == SupportedPositive ==> a.reason == HstsHeaderAbsent)
    && (redirected ==> a.reason == RedirectPreventedEvaluation)
    && (refused ==> a.reason == ResponseBlockedOrAmbiguous)
    && (!usable && !redirected && !refused ==> a.reason == if ended.Truncated? then ResponseTruncated else ResponseUnusable)
  }

  /**
    The HSTS verdict on what any connection delivers, complete or truncated, from the bytes:
    the header counts as present, or absent, exactly when a head with status 200, of an HTTPS
    hostname, with nothing in the way, has such a line, or has none.
   */
  lemma HstsVerdict(
    project: string, target: Target, t: Attempt, budget: nat, accessPage: seq<Byte> -> bool)
    returns (statusLine: seq<Byte>, spellings: seq<Spelling>)
    ensures var r := Read(t.segments, t.ending, budget);
            var x := ExchangeOf(target, "/", t, r);
            var a := AssessHsts(project, x, accessPage);
            && (!target.origin.https || target.origin.literalAddress ==>
                  a.outcome == Inconclusive && a.reason == HstsNotApplicable)
            && match x.acquisition.response
               case None =>
                 && a.outcome == Inconclusive
                 && (target.origin.https && !target.origin.literalAddress ==> FailureSays(a.reason, r.status))
               case Some(c) =>
                 && HeadRecorded(r, c, statusLine, spellings)
                 && (target.origin.https && !target.origin.literalAddress ==>
                       HstsSays(a, r.status, c.status, spellings, accessPage(x.body)))
  {
    statusLine, spellings := [], [];
    var r := Read(t.segments, t.ending, budget);
    Retained(t.segments, 0, t.ending, budget);
    var x := ExchangeOf(target, "/", t, r);
    RootIs(x);
    if Captured(r).Some? {
      statusLine, spellings := CapturedLines(t.segments, t.ending, budget);
      HstsOnReply(project, x, spellings, accessPage);
    } else {
      HstsOnNone(project, x, accessPage);
    }
  }

  lemma RootIs(x: Exchange)
    ensures x.acquisition.resource == "/" <==> x.acquisition.resource == ROOT
  {
  }

  lemma HstsOnReply(project: string, x: Exchange, spellings: seq<Spelling>, accessPage: seq<Byte> -> bool)
    requires x.acquisition.resource == ROOT && x.acquisition.response.Some?
    requires x.acquisition.status.Completed? || x.acquisition.status.Truncated?
    requires RecordsLines(x.acquisition.response.value, spellings)
    ensures var a, origin := AssessHsts(project, x, accessPage), x.acquisition.origin;
            && (!origin.https || origin.literalAddress ==> a.outcome == Inconclusive && a.reason == HstsNotApplicable)
            && (origin.https && !origin.literalAddress ==>
                  HstsSays(
                    a, x.acquisition.status, x.acquisition.response.value.status, spellings, accessPage(x.body)))
  {
  }

  lemma HstsOnNone(project: string, x: Exchange, accessPage: seq<Byte> -> bool)
    requires x.acquisition.resource == ROOT && x.acquisition.response.None?
    ensures var a, origin := AssessHsts(project, x, accessPage), x.acquisition.origin;
            && a.outcome == Inconclusive
            && (!origin.https || origin.literalAddress ==> a.reason == HstsNotApplicable)
            && (origin.https && !origin.literalAddress ==> FailureSays(a.reason, x.acquisition.status))
  {
  }

  // ---------------------------------------------------------------- from text to the exposure verdict

  predicate ShowsAt(body: seq<Byte>, text: string, k: nat) {
    k + |text| <= |body| && Reads(body[k..k + |text|], text)
  }

  /** The text stands somewhere in the body. */
  ghost predicate Shows(body: seq<Byte>, text: string) {
    exists k: nat :: ShowsAt(body, text, k)
  }

  predicate Plain(text: string) {
    text != [] && forall i | 0 <= i < |text| :: text[i] < 128 as char
  }

  lemma ReadsIs(s: seq<Byte>, text: string)
    requires Plain(text)
    ensures Reads(s, text) <==> s == Ascii(text)
  {
    if s == Ascii(text) {
      assert forall i | 0 <= i < |s| :: Char(s[i]) == text[i];
    }
    if Reads(s, text) {
      assert forall i | 0 <= i < |s| :: s[i] == Ascii(text)[i];
    }
  }

  lemma ShowsIs(body: seq<Byte>, text: string)
    requires Plain(text)
    ensures Contains(body, Ascii(text)) <==> Shows(body, text)
  {
    if Contains(body, Ascii(text)) {
      var k := Find(body, Ascii(text), 0).value;
      ReadsIs(body[k..k + |text|], text);
      assert ShowsAt(body, text, k);
    }
    if k: nat :| ShowsAt(body, text, k) {
      ReadsIs(body[k..k + |text|], text);
      FindFirst(body, Ascii(text), 0, k);
    }
  }

  /** The page lists a directory. */
  ghost predicate ListsDirectory(body: seq<Byte>) {
    && (Shows(body, "<title>Directory listing for /") || Shows(body, "<title>Index of /"))
    && Shows(body, "href=")
  }

  /** The file is a Git configuration. */
  ghost predicate ListsGitConfig(body: seq<Byte>) {
    Shows(body, "[core]") && Shows(body, "repositoryformatversion")
  }

  lemma MarkersAre(body: seq<Byte>)
    ensures Markers(DirectoryListing, body) <==> ListsDirectory(body)
    ensures Markers(GitConfigExposure, body) <==> ListsGitConfig(body)
  {
    ShowsIs(body, "<title>Directory listing for /");
    ShowsIs(body, "<title>Index of /");
    ShowsIs(body, "href=");
    ShowsIs(body, "[core]");
    ShowsIs(body, "repositoryformatversion");
  }

  /** What is said of a capture without a response to evaluate. */
  predicate FailureSays(reason: Reason, status: AcquisitionStatus) {
    && (status == Timeout ==> reason == RecheckTimedOut)
    && (status == TransportError ==> reason == TransportFailed)
    && (status == Cancelled ==> reason == RecheckCancelled)
    && (status == MalformedReply ==> reason == ResponseMalformed)
    && (status == Truncated ==> reason == ResponseTruncated)
    && (status == NotRun ==> reason == CheckNotRun)
  }

  /** The verdict of an exposure rule on a message, whether the page shows what the rule looks for, or asks for access. */
  predicate ExposureSays(a: Assessment, status: nat, spellings: seq<Spelling>, shows: bool, accessPage: bool) {
    var redirected := 300 <= status <= 399;
    var refused := !redirected && (Challenged(spellings) || accessPage || status in {401, 403, 407, 429} || status >= 500);
    var ambiguous := !redirected && !refused && status !in {200, 404, 410};
    var encoded := !redirected && !refused && !ambiguous && !Unencoded(spellings);
    && (a.outcome == Inconclusive <==> redirected || refused || ambiguous || encoded)
    && (redirected ==> a.reason == RedirectPreventedEvaluation)
    && (refused ==> a.reason == ResponseBlockedOrAmbiguous)
    && (ambiguous ==> a.reason == ResponseStatusAmbiguous)
    && (encoded ==> a.reason == UnsupportedContentEncoding)
    && (a.outcome == SupportedPositive ==> status == 200 && shows && a.reason == ReviewedMarkersPresent)
    && (a.outcome == SupportedNegative ==> !(status == 200 && shows) && a.reason == ReviewedConditionAbsent)
  }

  /** What an exposure rule looks for. */
  ghost predicate Exposes(rule: RuleId, body: seq<Byte>) {
    (rule == DirectoryListing && ListsDirectory(body)) || (rule == GitConfigExposure && ListsGitConfig(body))
  }

  lemma ExposureOnMessage(
    project: string, rule: RuleId, x: Exchange, spellings: seq<Spelling>, accessPage: seq<Byte> -> bool)
    requires AssessExposure(project, rule, x, accessPage).Some?
    requires ExposureClaim(rule, x.acquisition.origin).value.resource == x.acquisition.resource
    requires CompleteReply(x.acquisition) && RecordsLines(x.acquisition.response.value, spellings)
    ensures ExposureSays(
              AssessExposure(project, rule, x, accessPage).value, x.acquisition.response.value.status, spellings,
              Exposes(rule, x.body), accessPage(x.body))
  {
    MarkersAre(x.body);
  }

  lemma ExposureOnFailure(project: string, rule: RuleId, x: Exchange, accessPage: seq<Byte> -> bool)
    requires AssessExposure(project, rule, x, accessPage).Some? && !x.acquisition.status.Completed?
    requires ExposureClaim(rule, x.acquisition.origin).value.resource == x.acquisition.resource
    ensures var a := AssessExposure(project, rule, x, accessPage).value;
            a.outcome == Inconclusive && FailureSays(a.reason, x.acquisition.status)
  {
  }

  lemma OwnResource(rule: RuleId, origin: Origin)
    requires rule == DirectoryListing || rule == GitConfigExposure
    ensures ExposureClaim(rule, origin).Some?
    ensures ExposureClaim(rule, origin).value.resource == if rule == DirectoryListing then "/" else "/.git/config"
  {
  }

  /**
    The exposure verdict at the rule's own resource, from the bytes: on a message, what its
    status, lines and body say; and without a complete message none, for the reason that the
    capture failed.
   */
  lemma ExposureVerdict(
    project: string, rule: RuleId, target: Target, t: Attempt, budget: nat, accessPage: seq<Byte> -> bool)
    returns (m: Message, status: nat)
    requires rule == DirectoryListing || rule == GitConfigExposure
    ensures var r := Read(t.segments, t.ending, budget);
            var x := ExchangeOf(target, if rule == DirectoryListing then "/" else "/.git/config", t, r);
            && AssessExposure(project, rule, x, accessPage).Some?
            && var a := AssessExposure(project, rule, x, accessPage).value;
               && (!r.status.Completed? ==> a.outcome == Inconclusive && FailureSays(a.reason, r.status))
               && (r.status.Completed? ==>
                     && MessageSpelled(m, status) && MessageText(m) == r.raw
                     && ExposureSays(
                          a, status, m.spellings, Exposes(rule, DataOf(m.framing)), accessPage(DataOf(m.framing))))
  {
    m, status := Message([], [], NoBody), 0;
    var r := Read(t.segments, t.ending, budget);
    var x := ExchangeOf(target, if rule == DirectoryListing then "/" else "/.git/config", t, r);
    Retained(t.segments, 0, t.ending, budget);
    OwnResource(rule, target.origin);
    if r.status.Completed? {
      m := CapturedMessage(t.segments, t.ending, budget);
      status := Captured(r).value.response.status;
      ExposureOnMessage(project, rule, x, m.spellings, accessPage);
    } else {
      ExposureOnFailure(project, rule, x, accessPage);
    }
  }

  // ---------------------------------------------------------------- what an assessment rests on

  predicate State(p: Prerequisite, id: PrerequisiteId, met: bool) {
    p == Prerequisite(id, if met then Met else NotMet)
  }

  /** The facts of an exposure assessment: the status of the capture, or what the reply was. */
  predicate ExposureFacts(facts: seq<Fact>, x: Exchange, evaluated: bool, decided: bool, positive: bool) {
    if !evaluated then facts == [Fact(AcquisitionStatusKey, StatusText(x.acquisition.status))]
    else
      && x.acquisition.response.Some?
      && var r := x.acquisition.response.value;
         facts == [Fact(StatusCode, Whole(r.status)), Fact(BodyShaKey, DigestText(r.bodySha)), Fact(BodyCompleteKey, Flag(true))]
                  + if decided then [Fact(MarkersPresent, Flag(positive))] else []
  }

  /** What an exposure assessment is of, what it needed, and the evidence it names. */
  lemma ExposureRests(project: string, rule: RuleId, x: Exchange, accessPage: seq<Byte> -> bool)
    requires (rule == DirectoryListing || rule == GitConfigExposure) && ValidExchange(x)
    ensures AssessExposure(project, rule, x, accessPage).Some?
    ensures var a, q := AssessExposure(project, rule, x, accessPage).value, x.acquisition;
            var own := q.resource == if rule == DirectoryListing then "/" else "/.git/config";
            && a.claim == Claim(rule, "1", q.origin, if rule == DirectoryListing then "/" else "/.git/config")
            && a.id == AssessmentId(project, a.claim)
            && |a.prerequisites| == 3 && State(a.prerequisites[0], AuthorizedTarget, true)
            && State(a.prerequisites[1], IntendedResource, own) && State(a.prerequisites[2], CompleteResponse, q.status.Completed?)
            && (!own ==> a.outcome == Inconclusive && a.reason == WrongResource)
            && |a.uses| == 1 && a.uses[0].FreshRecheck? && a.uses[0].acquisition == q.id
            && ExposureFacts(
                 a.uses[0].facts, x, own && q.status.Completed?, a.outcome != Inconclusive, a.outcome == SupportedPositive)
  {
    OwnResource(rule, x.acquisition.origin);
  }

  /** The same of an HSTS assessment. */
  lemma HstsRests(project: string, x: Exchange, accessPage: seq<Byte> -> bool)
    ensures var a, q := AssessHsts(project, x, accessPage), x.acquisition;
            && a.claim == Claim(HstsMissing, "1", q.origin, "/") && a.id == AssessmentId(project, a.claim)
            && |a.prerequisites| == 5 && State(a.prerequisites[0], HttpsOrigin, q.origin.https)
            && State(a.prerequisites[1], HostnameOrigin, !q.origin.literalAddress)
            && State(a.prerequisites[2], IntendedResource, q.resource == "/")
            && (q.response.Some? ==> State(a.prerequisites[3], CompleteHeaders, q.response.value.headersComplete))
            && (q.response.None? ==> a.prerequisites[3] == Prerequisite(CompleteHeaders, Unknown))
            && (q.origin.https && !q.origin.literalAddress ==>
                  State(a.prerequisites[4], UsableResponse, a.outcome != Inconclusive))
            && (q.origin.https && !q.origin.literalAddress && q.resource != "/" ==> a.reason == WrongResource)
            && |a.uses| == 1 && a.uses[0].FreshRecheck? && a.uses[0].acquisition == q.id
            && (a.outcome == Inconclusive ==>
                  a.uses[0].facts != [] && a.uses[0].facts[0] == Fact(AcquisitionStatusKey, StatusText(q.status)))
            && (a.outcome != Inconclusive ==>
                  a.uses[0].facts == [
                    Fact(StatusCode, Whole(200)), Fact(HeadersCompleteKey, Flag(true)),
                    Fact(BodyCompleteKey, Flag(q.response.value.bodyComplete)),
                    Fact(HstsPresentKey, Flag(a.outcome == SupportedNegative))])
  {
  }

  // ---------------------------------------------------------------- resources that are not visited

  /**
    A resource is left out exactly when the pause before it would reach the deadline, or the
    deadline has passed; nothing is then recorded of it, and no rule draws anything from it.
   */
  lemma NotRunExactly(
    project: string, target: Target, index: nat, v: Visit, deadline: real, delay: real, budget: nat,
    accessPage: seq<Byte> -> bool)
    requires index < 2
    ensures var x := VisitExchange(target, index, v, deadline, delay, budget);
            var q := x.acquisition;
            && (q.status == NotRun <==> (index == 1 && v.considered + delay >= deadline) || v.resumed >= deadline)
            && q.resource == (if index == 0 then "/" else "/.git/config") && q.id == v.attempt.id
            && q.origin == target.origin && q.address == target.address && q.startedAt == v.attempt.startedAt
            && (q.status == NotRun ==>
                  && q.finishedAt.None? && q.evidence.None? && q.response.None? && x.body == []
                  && AssessHsts(project, x, accessPage).outcome == Inconclusive
                  && (target.origin.https && !target.origin.literalAddress && index == 0 ==>
                        AssessHsts(project, x, accessPage).reason == CheckNotRun)
                  && var rule := if index == 0 then DirectoryListing else GitConfigExposure;
                     AssessExposure(project, rule, x, accessPage).Some?
                     && AssessExposure(project, rule, x, accessPage).value.outcome == Inconclusive
                     && AssessExposure(project, rule, x, accessPage).value.reason == CheckNotRun)
            && (q.status != NotRun ==>
                  var r := Read(v.attempt.segments, v.attempt.ending, budget);
                  && q.status == r.status && q.finishedAt == Some(v.attempt.finishedAt)
                  && (q.evidence.Some? <==> r.raw != [])
                  && (q.evidence.Some? ==>
                        q.evidence.value.sha == Sha256(r.raw) && q.evidence.value.size == |r.raw|
                        && q.evidence.value.path == v.attempt.path))
  {
    var k := ReadingExactly(v.attempt.segments, v.attempt.ending, budget);
  }
}
