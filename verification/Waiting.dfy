/**
  When the reader waits for more: exactly which buffers are neither complete nor refused. With
  the language of messages this settles its verdict on every buffer.
 */
module Waiting {
  import opened Bytes
  import opened Chunked
  import opened HttpHead
  import opened Response
  import opened WireText
  import opened Wrappers

  // ---------------------------------------------------------------- chunked bodies

  /** The body is the beginning of an encoding. */
  ghost predicate Begins(body: seq<Byte>) {
    exists parts, last :: BeginsOf(body, parts, last)
  }

  predicate BeginsOf(body: seq<Byte>, parts: seq<Part>, last: seq<Byte>) {
    ValidCoding(parts, last) && body < Encode(parts, last)
  }

  /** What follows the zero size does not end the body, and is not yet seen to be a trailer. */
  predicate Undecided(rest: seq<Byte>) {
    !At(rest, CRLF, 0) && forall k | 0 <= k <= |rest| :: !At(rest, BLANK, k)
  }

  /** The body has its zero size, and what follows is undecided. */
  ghost predicate Trails(body: seq<Byte>) {
    exists parts, last, rest :: TrailsOf(body, parts, last, rest)
  }

  predicate TrailsOf(body: seq<Byte>, parts: seq<Part>, last: seq<Byte>, rest: seq<Byte>) {
    ValidCoding(parts, last) && body == PartsText(parts) + last + END + rest && Undecided(rest)
  }

  lemma AtShift(body: seq<Byte>, start: nat, pat: seq<Byte>, k: nat)
    requires start <= |body|
    ensures At(body[start..], pat, k) <==> At(body, pat, start + k)
  {
    if start + k + |pat| <= |body| {
      assert body[start..][k..k + |pat|] == body[start + k..start + k + |pat|];
    }
  }

  lemma LastWaits(body: seq<Byte>, start: nat)
    requires start <= |body|
    ensures ReadLast(body, start) == Unfinished(None) <==> Undecided(body[start..])
  {
    var rest := body[start..];
    AtShift(body, start, CRLF, 0);
    forall k | 0 <= k <= |rest|
      ensures At(rest, BLANK, k) <==> At(body, BLANK, start + k)
    {
      AtShift(body, start, BLANK, k);
    }
    if k :| 0 <= k <= |rest| && At(rest, BLANK, k) {
      FindFirst(body, BLANK, start, start + k);
    }
    if Find(body, BLANK, start).Some? {
      var k := Find(body, BLANK, start).value - start;
      assert At(rest, BLANK, k);
    }
  }

  /** A size line that is open, or its data cut short, is the beginning of an encoding. */
  lemma FragmentBegins(fragment: seq<Byte>) returns (parts: seq<Part>, last: seq<Byte>)
    requires fragment == [] || OpenSizeLine(fragment)
    ensures BeginsOf(fragment, parts, last)
  {
    var token := if IsHex(fragment) then fragment else if fragment == [] then [48] else fragment[..|fragment| - 1];
    HexOne([48]);
    if HexValue(token) == 0 {
      parts, last := [], token;
      assert Encode(parts, last) == token + BLANK;
      assert fragment == (token + BLANK)[..|fragment|];
    } else {
      var data: seq<Byte> := seq(HexValue(token), i => 0);
      parts, last := LonePart(token, data);
      assert fragment == (token + CRLF)[..|fragment|];
      CutLonger(fragment, token + CRLF, data + CRLF + ([48] + BLANK));
    }
  }

  /** One chunk and the end. */
  lemma LonePart(token: seq<Byte>, data: seq<Byte>) returns (parts: seq<Part>, last: seq<Byte>)
    requires IsHex(token) && HexValue(token) == |data| > 0
    ensures ValidCoding(parts, last)
    ensures Encode(parts, last) == (token + CRLF) + (data + CRLF + ([48] + BLANK))
  {
    HexOne([48]);
    parts, last := [Part(token, data)], [48];
    assert parts[1..] == [];
    assert Encode(parts, last) == PartWire(parts[0]) + ([48] + BLANK);
  }

  lemma CutLonger(fragment: seq<Byte>, line: seq<Byte>, rest: seq<Byte>)
    requires fragment <= line && rest != []
    ensures fragment < line + rest
  {
    assert fragment == (line + rest)[..|fragment|];
  }

  /** Data cut short, after its size line. */
  lemma DataBegins(token: seq<Byte>, some: seq<Byte>) returns (parts: seq<Part>, last: seq<Byte>)
    requires IsHex(token) && 0 < HexValue(token) && |some| < HexValue(token) + 2
    requires |some| == HexValue(token) + 1 ==> some[HexValue(token)] == CR
    ensures BeginsOf(token + CRLF + some, parts, last)
  {
    var size := HexValue(token);
    var data: seq<Byte> := if |some| < size then some + seq(size - |some|, i => 0) else some[..size];
    parts, last := LonePart(token, data);
    var tail := data + CRLF + ([48] + BLANK);
    assert some == tail[..|some|];
    assert token + CRLF + some == (token + CRLF + tail)[..|token| + 2 + |some|];
  }

  /** What is left of the body waits. */
  ghost predicate WaitsHere(rest: seq<Byte>) {
    Begins(rest) || Trails(rest)
  }

  lemma PartThenWaits(p: Part, rest: seq<Byte>)
    requires ValidPart(p) && WaitsHere(rest)
    ensures WaitsHere(PartWire(p) + rest)
  {
    if Begins(rest) {
      var parts, last :| BeginsOf(rest, parts, last);
      var all := Prepend(p, parts, last);
      assert PartWire(p) + rest == (PartWire(p) + Encode(parts, last))[..|PartWire(p) + rest|];
      assert BeginsOf(PartWire(p) + rest, all, last);
    } else {
      var parts, last, after :| TrailsOf(rest, parts, last, after);
      var all := [p] + parts;
      assert all[1..] == parts;
      assert PartsText(all) == PartWire(p) + PartsText(parts);
      assert PartWire(p) + rest == PartsText(all) + last + END + after;
      assert TrailsOf(PartWire(p) + rest, all, last, after);
    }
  }

  lemma {:induction false} WaitingIsOpen(body: seq<Byte>, cursor: nat, decoded: seq<Byte>)
    requires cursor <= |body| && DecodeFrom(body, cursor, decoded, false).NeedMore?
    ensures WaitsHere(body[cursor..])
    decreases |body| - cursor
  {
    match ReadPiece(body, cursor)
    case Chunk(data, next) =>
      var token := PieceSpelling(body, cursor);
      WaitingIsOpen(body, next, decoded + data);
      PartThenWaits(Part(token, data), body[next..]);
      assert body[cursor..] == body[cursor..next] + body[next..];
    case _ => UnfinishedIsOpen(body, cursor);
  }

  lemma UnfinishedIsOpen(body: seq<Byte>, cursor: nat)
    requires cursor <= |body| && ReadPiece(body, cursor).Unfinished?
    ensures WaitsHere(body[cursor..])
  {
    if ReadSize(body, cursor).Open? {
      var parts, last := FragmentBegins(body[cursor..]);
    } else {
      var token := SizeSpelling(body, cursor);
      var start, size := ReadSize(body, cursor).start, ReadSize(body, cursor).size;
      var some := body[start..];
      assert body[cursor..] == body[cursor..start] + some;
      if size > 0 {
        assert |some| == size + 1 ==> some[size] == body[start + size];
        var parts, last := DataBegins(token, some);
      } else {
        LastWaits(body, start);
        assert PartsText([]) + token + END + some == token + CRLF + some;
        assert TrailsOf(body[cursor..], [], token, some);
      }
    }
  }

  lemma {:induction false} TrailingWaits(
    body: seq<Byte>, cursor: nat, decoded: seq<Byte>, parts: seq<Part>, last: seq<Byte>, rest: seq<Byte>)
    requires cursor <= |body| && TrailsOf(body[cursor..], parts, last, rest)
    ensures DecodeFrom(body, cursor, decoded, false).NeedMore?
    decreases |parts|
  {
    if parts == [] {
      assert body[cursor..] == last + CRLF + rest;
      SizeLineRead(body, cursor, last, rest);
      LastWaits(body, cursor + |last| + 2);
    } else {
      var after := PartsText(parts[1..]) + last + END + rest;
      assert body[cursor..] == PartWire(parts[0]) + after;
      var next := PartRead(body, cursor, decoded, parts[0], after, false);
      TrailingWaits(body, next, decoded + parts[0].data, parts[1..], last, rest);
    }
  }

  /**
    When the chunked decoder waits: exactly when the body is the beginning of an encoding, or
    has its zero size and what follows neither ends it nor shows itself a trailer yet.
   */
  lemma ChunksWaitExactly(body: seq<Byte>)
    ensures Decode(body, false).NeedMore? <==> Begins(body) || Trails(body)
  {
    assert body[0..] == body;
    if Decode(body, false).NeedMore? {
      WaitingIsOpen(body, 0, []);
    }
    if Begins(body) {
      var parts, last :| BeginsOf(body, parts, last);
      ProperPrefixWaits(parts, last, |body|);
      assert body == Encode(parts, last)[..|body|];
    }
    if Trails(body) {
      var parts, last, rest :| TrailsOf(body, parts, last, rest);
      TrailingWaits(body, 0, [], parts, last, rest);
    }
  }

  // ---------------------------------------------------------------- heads

  /** The blank line that ends a head starts at `k`. */
  predicate EndsAt(raw: seq<Byte>, k: nat) {
    k + 4 <= |raw| && raw[k] as int == 13 && raw[k + 1] as int == 10 && raw[k + 2] as int == 13 && raw[k + 3] as int == 10
  }

  lemma EndsAtIs(raw: seq<Byte>, k: nat)
    ensures EndsAt(raw, k) <==> At(raw, BLANK, k)
  {
    if k + 4 <= |raw| {
      var four := raw[k..k + 4];
      assert four[0] == raw[k] && four[1] == raw[k + 1] && four[2] == raw[k + 2] && four[3] == raw[k + 3];
    }
  }

  /** The reader waits for a head exactly while there is no blank line and the limit is not reached. */
  lemma HeadWaitsExactly(raw: seq<Byte>)
    ensures ParseHead(raw).NeedMore? <==> |raw| < 32768 && forall k: nat | k <= |raw| :: !EndsAt(raw, k)
  {
    if k: nat :| k <= |raw| && EndsAt(raw, k) {
      EndsAtIs(raw, k);
      FindFirst(raw, BLANK, 0, k);
    }
    if Find(raw, BLANK, 0).Some? {
      EndsAtIs(raw, Find(raw, BLANK, 0).value);
    }
  }

  ghost predicate HeadOf(raw: seq<Byte>, statusLine: seq<Byte>, status: nat, spellings: seq<Spelling>) {
    HeadSpelled(statusLine, status, spellings) && HeadText(statusLine, spellings) <= raw
  }

  /** A head is read exactly when the bytes begin with one, and then with no other. */
  lemma {:induction false} HeadReadExactly(raw: seq<Byte>, statusLine: seq<Byte>, status: nat, spellings: seq<Spelling>)
    requires HeadOf(raw, statusLine, status, spellings)
    ensures ParseHead(raw).Complete?
    ensures var head := ParseHead(raw).value;
            head.status == status && head.fields == FieldsOf(spellings) && head.bodyStart == |HeadText(statusLine, spellings)|
  {
    var head := HeadText(statusLine, spellings);
    HeadIs(statusLine, status, spellings);
    HeadRoundTrip(statusLine, spellings, raw[|head|..]);
    assert raw == head + raw[|head|..];
  }

  // ---------------------------------------------------------------- responses

  /** The body that the lines announce has not all arrived. */
  ghost predicate BodyWaits(status: nat, spellings: seq<Spelling>, wire: seq<Byte>) {
    && !HasLine(spellings, "content-range")
    && if HasLine(spellings, "transfer-encoding") then
         !HasLine(spellings, "content-length") && ChunkedBy(spellings) && (Begins(wire) || Trails(wire))
       else if HasLine(spellings, "content-length") then exists size: nat :: SizedBy(spellings, size) && |wire| < size
       else !(status == 204 || status == 304 || 100 <= status <= 199)
  }

  lemma {:induction false} BodyWaitsIs(status: nat, spellings: seq<Spelling>, wire: seq<Byte>, start: nat)
    ensures ParseBody(Head(status, FieldsOf(spellings), start), wire, false).NeedMore? <==> BodyWaits(status, spellings, wire)
  {
    RangeLines(spellings);
    LengthLines(spellings);
    EncodingLines(spellings);
    ChunkedIs(spellings);
    ChunksWaitExactly(wire);
    forall size
      ensures SizedBy(spellings, size)
              <==> var lengths := ValuesOf(FieldsOf(spellings), CONTENT_LENGTH);
                   && |lengths| == 1 && IsDecimal(lengths[0]) && |lengths[0]| <= MAX_INT_DIGITS
                   && DecimalValue(lengths[0]) == size
    {
      SizedIs(spellings, size);
    }
    SizeKnown(spellings);
  }

  lemma {:induction false} SizeKnown(spellings: seq<Spelling>)
    ensures var lengths := ValuesOf(FieldsOf(spellings), CONTENT_LENGTH);
            |lengths| == 1 && IsDecimal(lengths[0]) && |lengths[0]| <= MAX_INT_DIGITS ==> SizedBy(spellings, DecimalValue(lengths[0]))
  {
    var lengths := ValuesOf(FieldsOf(spellings), CONTENT_LENGTH);
    if |lengths| == 1 && IsDecimal(lengths[0]) {
      SizedIs(spellings, DecimalValue(lengths[0]));
    }
  }

  /** A whole head, and a body of which more is announced. */
  ghost predicate WaitsForBody(raw: seq<Byte>) {
    exists statusLine, status, spellings ::
      HeadOf(raw, statusLine, status, spellings) && BodyWaits(status, spellings, raw[|HeadText(statusLine, spellings)|..])
  }

  /**
    When the reader waits for more of a response: exactly when its head has not ended within the
    limit, or the body that the head announces has not all arrived. Every other buffer is a
    message, or is refused.
   */
  lemma WaitsExactly(raw: seq<Byte>)
    ensures ParseResponse(raw, false).NeedMore?
            <==> (|raw| < 32768 && forall k: nat | k <= |raw| :: !EndsAt(raw, k)) || WaitsForBody(raw)
  {
    HeadWaitsExactly(raw);
    if ParseHead(raw).Complete? {
      var head := ParseHead(raw).value;
      var statusLine, spellings := AcceptsOnlyHeads(raw);
      HeadIs(statusLine, head.status, spellings);
      assert raw[..head.bodyStart] == HeadText(statusLine, spellings);
      assert HeadOf(raw, statusLine, head.status, spellings);
      BodyWaitsIs(head.status, spellings, raw[head.bodyStart..], head.bodyStart);
    }
    if WaitsForBody(raw) {
      var statusLine, status, spellings :|
        HeadOf(raw, statusLine, status, spellings) && BodyWaits(status, spellings, raw[|HeadText(statusLine, spellings)|..]);
      HeadReadExactly(raw, statusLine, status, spellings);
      var start := |HeadText(statusLine, spellings)|;
      BodyWaitsIs(status, spellings, raw[start..], start);
    }
  }
}
