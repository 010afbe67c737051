/**
  Whole responses, as `recheck._parse_response` and `recheck._incomplete_response` read
  them: the verdict on a growing buffer, the language of messages it accepts, and what a
  truncated capture may still say.
 */
module Response {
  import opened Bytes
  import opened Chunked
  import opened Evidence
  import opened HttpHead
  import opened Wrappers

  const CONTENT_RANGE := Ascii("content-range")
  const CONTENT_LENGTH := Ascii("content-length")
  const TRANSFER_ENCODING := Ascii("transfer-encoding")
  const CONTENT_ENCODING := Ascii("content-encoding")
  const STRICT_TRANSPORT_SECURITY := Ascii("strict-transport-security")
  const WWW_AUTHENTICATE := Ascii("www-authenticate")
  const PROXY_AUTHENTICATE := Ascii("proxy-authenticate")
  const CF_MITIGATED := Ascii("cf-mitigated")
  const CHUNKED := Ascii("chunked")
  const IDENTITY := Ascii("identity")

  /** Python refuses to convert a longer decimal string to an integer. */
  const MAX_INT_DIGITS: nat := 4300

  datatype Wire = Wire(status: nat, fields: seq<Field>, body: seq<Byte>)

  /** Statuses whose responses carry no body. */
  predicate Bodyless(status: nat) {
    status == 204 || status == 304 || 100 <= status < 200
  }

  function ParseChunkedBody(head: Head, body: seq<Byte>): Verdict<Wire> {
    match Decode(body, false)
    case NeedMore => NeedMore
    case Malformed => Malformed
    case Complete(decoded) =>
      if |body| != decoded.consumed then Malformed
      else Complete(Wire(head.status, head.fields, decoded.data))
  }

  function ParseSizedBody(head: Head, length: seq<Byte>, body: seq<Byte>): Verdict<Wire> {
    if !IsDecimal(length) || |length| > MAX_INT_DIGITS || |body| > DecimalValue(length) then Malformed
    else if |body| < DecimalValue(length) then NeedMore
    else Complete(Wire(head.status, head.fields, body))
  }

  function ParseBody(head: Head, body: seq<Byte>, eof: bool): Verdict<Wire> {
    var lengths := ValuesOf(head.fields, CONTENT_LENGTH);
    var encodings := ValuesOf(head.fields, TRANSFER_ENCODING);
    if ValuesOf(head.fields, CONTENT_RANGE) != [] then Malformed
    else if lengths != [] && encodings != [] then Malformed
    else if |lengths| > 1 then Malformed
    else if encodings != [] then
      if |encodings| != 1 || Lower(encodings[0]) != CHUNKED then Malformed
      else ParseChunkedBody(head, body)
    else if lengths != [] then ParseSizedBody(head, lengths[0], body)
    else if Bodyless(head.status) then
      if body != [] then Malformed else Complete(Wire(head.status, head.fields, []))
    else if eof then Malformed
    else NeedMore
  }

  function ParseResponse(raw: seq<Byte>, eof: bool): Verdict<Wire> {
    match ParseHead(raw)
    case NeedMore => NeedMore
    case Malformed => Malformed
    case Complete(head) => ParseBody(head, raw[head.bodyStart..], eof)
  }

  // ---------------------------------------------------------------- growing buffers

  lemma BodyExtend(head: Head, body: seq<Byte>, t: seq<Byte>)
    requires t != []
    ensures ParseBody(head, body, false).Malformed? ==> ParseBody(head, body + t, false).Malformed?
    ensures ParseBody(head, body, false).Complete? ==> ParseBody(head, body + t, false).Malformed?
  {
    DecodeExtend(body, t, 0, []);
  }

  /** A rejected buffer stays rejected; a complete one is spoiled by any further byte. */
  lemma VerdictExtend(raw: seq<Byte>, t: seq<Byte>)
    requires t != []
    ensures ParseResponse(raw, false).Malformed? ==> ParseResponse(raw + t, false).Malformed?
    ensures ParseResponse(raw, false).Complete? ==> ParseResponse(raw + t, false).Malformed?
  {
    HeadExtend(raw, t);
    if ParseHead(raw).Complete? {
      var head := ParseHead(raw).value;
      HeadThenBody(raw, t);
      BodyExtend(head, raw[head.bodyStart..], t);
    }
  }

  /**
    Over the growing prefixes of one stream the verdict is NeedMore, then either Malformed
    for ever or Complete at one single prefix and Malformed for ever after.
   */
  lemma VerdictsProgress(stream: seq<Byte>, i: nat, j: nat)
    requires i < j <= |stream|
    ensures !ParseResponse(stream[..i], false).NeedMore? ==> ParseResponse(stream[..j], false).Malformed?
  {
    assert stream[..j] == stream[..i] + stream[i..j];
    VerdictExtend(stream[..i], stream[i..j]);
  }

  /** Every proper prefix of a complete response is still waiting. */
  lemma BeforeCompletion(early: seq<Byte>, stream: seq<Byte>)
    requires early < stream && ParseResponse(stream, false).Complete?
    ensures ParseResponse(early, false).NeedMore?
  {
    assert stream[..|early|] == early && stream[..|stream|] == stream;
    VerdictsProgress(stream, |early|, |stream|);
  }

  /** At most one prefix of a stream is a complete response. */
  lemma UniqueCompletion(stream: seq<Byte>, i: nat, j: nat)
    requires i <= |stream| && j <= |stream|
    requires ParseResponse(stream[..i], false).Complete? && ParseResponse(stream[..j], false).Complete?
    ensures i == j
  {
    if i < j {
      VerdictsProgress(stream, i, j);
    } else if j < i {
      VerdictsProgress(stream, j, i);
    }
  }

  /**
    End of file completes nothing: the verdict with `eof` differs only by turning the wait
    for a close-delimited body into a rejection.
   */
  lemma EofNeverCompletes(raw: seq<Byte>)
    ensures ParseResponse(raw, true).Complete? <==> ParseResponse(raw, false).Complete?
    ensures ParseResponse(raw, true) == ParseResponse(raw, false)
            || (ParseResponse(raw, false).NeedMore? && ParseResponse(raw, true).Malformed?)
  {
  }

  // ---------------------------------------------------------------- the language of messages

  /** How a message delimits its body. */
  datatype Framing =
    | Sized(body: seq<Byte>)
    | Chunks(parts: seq<Part>, last: seq<Byte>)
    | NoBody

  datatype Message = Message(statusLine: seq<Byte>, spellings: seq<Spelling>, framing: Framing)

  function BodyWire(framing: Framing): seq<Byte> {
    match framing
    case Sized(body) => body
    case Chunks(parts, last) => Encode(parts, last)
    case NoBody => []
  }

  function BodyOf(framing: Framing): seq<Byte> {
    match framing
    case Sized(body) => body
    case Chunks(parts, _) => Payload(parts)
    case NoBody => []
  }

  /** The fields announce exactly this framing, and no partial representation. */
  predicate Announces(status: nat, fields: seq<Field>, framing: Framing) {
    var lengths := ValuesOf(fields, CONTENT_LENGTH);
    var encodings := ValuesOf(fields, TRANSFER_ENCODING);
    && ValuesOf(fields, CONTENT_RANGE) == []
    && match framing
       case Sized(body) =>
         && encodings == [] && |lengths| == 1
         && IsDecimal(lengths[0]) && |lengths[0]| <= MAX_INT_DIGITS && DecimalValue(lengths[0]) == |body|
       case Chunks(parts, last) =>
         lengths == [] && |encodings| == 1 && Lower(encodings[0]) == CHUNKED && ValidCoding(parts, last)
       case NoBody =>
         lengths == [] && encodings == [] && Bodyless(status)
  }

  predicate ValidMessage(m: Message) {
    && ValidHead(m.statusLine, m.spellings)
    && Announces(StatusOf(m.statusLine), FieldsOf(m.spellings), m.framing)
  }

  function MessageWire(m: Message): seq<Byte> {
    HeadWire(m.statusLine, m.spellings) + BodyWire(m.framing)
  }

  /** `w` is what message `m` says. */
  predicate Means(w: Wire, m: Message)
    requires ValidMessage(m)
  {
    w.status == StatusOf(m.statusLine) && w.fields == FieldsOf(m.spellings) && w.body == BodyOf(m.framing)
  }

  /** Every message is accepted and understood as it was meant. */
  lemma MessageRoundTrip(m: Message)
    requires ValidMessage(m)
    ensures ParseResponse(MessageWire(m), false).Complete?
    ensures Means(ParseResponse(MessageWire(m), false).value, m)
  {
    var raw, body := MessageWire(m), BodyWire(m.framing);
    HeadRoundTrip(m.statusLine, m.spellings, body);
    var head := ParseHead(raw).value;
    assert raw[head.bodyStart..] == body;
    if m.framing.Chunks? {
      RoundTrip(m.framing.parts, m.framing.last, [], false);
      assert body + [] == body;
    }
  }

  /** Nothing but a message is accepted. */
  lemma AcceptsOnlyMessages(raw: seq<Byte>) returns (m: Message)
    requires ParseResponse(raw, false).Complete?
    ensures ValidMessage(m) && MessageWire(m) == raw
    ensures Means(ParseResponse(raw, false).value, m)
  {
    var statusLine, spellings := AcceptsOnlyHeads(raw);
    var head := ParseHead(raw).value;
    var body := raw[head.bodyStart..];
    var framing := FramingOf(head, body);
    m := Message(statusLine, spellings, framing);
    assert raw == raw[..head.bodyStart] + body;
  }

  lemma FramingOf(head: Head, body: seq<Byte>) returns (framing: Framing)
    requires ParseBody(head, body, false).Complete?
    ensures Announces(head.status, head.fields, framing)
    ensures BodyWire(framing) == body && BodyOf(framing) == ParseBody(head, body, false).value.body
  {
    if ValuesOf(head.fields, TRANSFER_ENCODING) != [] {
      var parts, last := AcceptsOnlyCodings(body, 0, []);
      framing := Chunks(parts, last);
      assert body[0..|body|] == body;
      assert [] + Payload(parts) == Payload(parts);
    } else if ValuesOf(head.fields, CONTENT_LENGTH) != [] {
      framing := Framing.Sized(body);
    } else {
      framing := NoBody;
    }
  }

  // ---------------------------------------------------------------- what a capture records

  predicate AnyField(fields: seq<Field>, name: seq<Byte>) {
    ValuesOf(fields, name) != []
  }

  predicate IdentityEncoding(fields: seq<Field>) {
    forall value | value in ValuesOf(fields, CONTENT_ENCODING) :: Lower(value) == IDENTITY
  }

  /** The record of a response whose head is complete. */
  function Capture(status: nat, fields: seq<Field>, body: seq<Byte>, bodyComplete: bool): CapturedResponse {
    CapturedResponse(
      status, true, bodyComplete, Sha256(body),
      AnyField(fields, STRICT_TRANSPORT_SECURITY),
      AnyField(fields, WWW_AUTHENTICATE) || AnyField(fields, PROXY_AUTHENTICATE) || AnyField(fields, CF_MITIGATED),
      IdentityEncoding(fields))
  }

  datatype Recovered = Recovered(response: CapturedResponse, body: seq<Byte>)

  /** The body bytes a truncated buffer yields, if its framing says how to read them. */
  function RecoverBody(head: Head, wire: seq<Byte>): Option<seq<Byte>> {
    if AnyField(head.fields, TRANSFER_ENCODING) then
      match Decode(wire, true)
      case Complete(decoded) => Some(decoded.data)
      case _ => None
    else if AnyField(head.fields, CONTENT_LENGTH) then Some(wire)
    else None
  }

  function Recover(head: Head, wire: seq<Byte>): Option<Recovered> {
    match RecoverBody(head, wire)
    case None => None
    case Some(body) => Some(Recovered(Capture(head.status, head.fields, body, false), body))
  }

  /** What can be recovered from a truncated buffer: a complete head, and the body so far. */
  function IncompleteResponse(raw: seq<Byte>): Option<Recovered> {
    if ParseResponse(raw, false).Malformed? || !ParseHead(raw).Complete? then None
    else
      var head := ParseHead(raw).value;
      Recover(head, raw[head.bodyStart..])
  }

  /** `r` says of a response what `full` says, over a prefix of its body. */
  predicate AgreesWith(r: Recovered, full: Wire) {
    r.body <= full.body && r.response == Capture(full.status, full.fields, r.body, false)
  }

  lemma RecoverAgrees(head: Head, wire: seq<Byte>, t: seq<Byte>)
    requires ParseBody(head, wire + t, false).Complete? && Recover(head, wire).Some?
    ensures AgreesWith(Recover(head, wire).value, ParseBody(head, wire + t, false).value)
  {
    if AnyField(head.fields, TRANSFER_ENCODING) {
      PartialIsPrefix(wire, t, 0, []);
    }
  }

  /** Bytes after a complete head go to the body. */
  lemma HeadThenBody(raw: seq<Byte>, t: seq<Byte>)
    requires ParseHead(raw).Complete?
    ensures var head := ParseHead(raw).value;
            ParseResponse(raw + t, false) == ParseBody(head, raw[head.bodyStart..] + t, false)
  {
    HeadExtend(raw, t);
    var head := ParseHead(raw).value;
    assert (raw + t)[head.bodyStart..] == raw[head.bodyStart..] + t;
  }

  /**
    Whatever is recovered from a prefix of a complete message has that message's status
    and header facts, and a prefix of its body.
   */
  lemma RecoveredAgrees(raw: seq<Byte>, t: seq<Byte>)
    requires ParseResponse(raw + t, false).Complete? && IncompleteResponse(raw).Some?
    ensures AgreesWith(IncompleteResponse(raw).value, ParseResponse(raw + t, false).value)
  {
    var head := ParseHead(raw).value;
    HeadThenBody(raw, t);
    RecoverAgrees(head, raw[head.bodyStart..], t);
  }
}
