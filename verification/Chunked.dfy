/**
  Chunked transfer coding as `recheck._decode_chunked` reads it: no chunk extensions,
  no trailers. The decoder is re-run on a growing buffer, so the facts that matter
  are about prefixes.
 */
module Chunked {
  import opened Bytes
  import opened Wrappers

  datatype Decoded = Decoded(data: seq<Byte>, consumed: nat)

  /**
    What one size line, with the data it announces, amounts to. `Unfinished` carries the
    data already present when the buffer ends inside a chunk or its size line, and nothing
    when it ends inside the final CRLF.
   */
  datatype Piece =
    | Unfinished(tail: Option<seq<Byte>>)
    | Invalid
    | Last(next: nat)
    | Chunk(data: seq<Byte>, next: nat)

  /** A size line that has not been terminated yet: `[0-9A-Fa-f]+\r?`. */
  predicate OpenSizeLine(fragment: seq<Byte>) {
    || IsHex(fragment)
    || (fragment != [] && fragment[|fragment| - 1] == CR && IsHex(fragment[..|fragment| - 1]))
  }

  /** A size line: still open, unacceptable, or a size with the offset of what follows it. */
  datatype SizeLine = Open | Bad | Sized(size: nat, start: nat)

  function ReadSize(body: seq<Byte>, cursor: nat): (r: SizeLine)
    requires cursor <= |body|
    ensures r.Sized? ==> cursor + 2 < r.start <= |body|
  {
    match Find(body, CRLF, cursor)
    case None =>
      var fragment := body[cursor..];
      if fragment != [] && !OpenSizeLine(fragment) then Bad else Open
    case Some(lineEnd) =>
      var token := body[cursor..lineEnd];
      if IsHex(token) then Sized(HexValue(token), lineEnd + 2) else Bad
  }

  function ReadPiece(body: seq<Byte>, cursor: nat): (r: Piece)
    requires cursor <= |body|
    ensures r.Last? || r.Chunk? ==> cursor < r.next <= |body|
  {
    match ReadSize(body, cursor)
    case Open => Unfinished(Some([]))
    case Bad => Invalid
    case Sized(size, start) => if size == 0 then ReadLast(body, start) else ReadData(body, start, size)
  }

  /** After a zero size: an immediate CRLF ends the body; anything else would be a trailer. */
  function ReadLast(body: seq<Byte>, start: nat): (r: Piece)
    requires start <= |body|
    ensures r.Last? ==> start < r.next <= |body|
    ensures !r.Chunk?
  {
    if At(body, CRLF, start) then Last(start + 2)
    else if Find(body, BLANK, start).None? then Unfinished(None)
    else Invalid
  }

  /** After a positive size: that many bytes, then CRLF. */
  function ReadData(body: seq<Byte>, start: nat, size: nat): (r: Piece)
    requires start <= |body|
    ensures r.Chunk? ==> start < r.next <= |body|
    ensures !r.Last?
  {
    var end := start + size;
    if |body| < end + 2 then
      if |body| == end + 1 && body[end] != CR then Invalid
      else Unfinished(Some(if end <= |body| then body[start..end] else body[start..]))
    else if body[end..end + 2] != CRLF then Invalid
    else Chunk(body[start..end], end + 2)
  }

  /** The decoder resumed at `cursor`, having already produced `decoded`. */
  function DecodeFrom(body: seq<Byte>, cursor: nat, decoded: seq<Byte>, partial: bool): Verdict<Decoded>
    requires cursor <= |body|
    decreases |body| - cursor
  {
    match ReadPiece(body, cursor)
    case Unfinished(tail) =>
      if partial && tail.Some? then Complete(Decoded(decoded + tail.value, |body|)) else NeedMore
    case Invalid => Malformed
    case Last(next) => Complete(Decoded(decoded, next))
    case Chunk(data, next) => DecodeFrom(body, next, decoded + data, partial)
  }

  function Decode(body: seq<Byte>, partial: bool): Verdict<Decoded> {
    DecodeFrom(body, 0, [], partial)
  }

  /** The decoding loop itself: a cursor and a growing buffer. */
  method DecodeChunked(body: seq<Byte>, partial: bool) returns (r: Verdict<Decoded>)
    ensures r == Decode(body, partial)
  {
    var decoded: seq<Byte> := [];
    var cursor := 0;
    while true
      invariant cursor <= |body|
      invariant Decode(body, partial) == DecodeFrom(body, cursor, decoded, partial)
      decreases |body| - cursor
    {
      match ReadPiece(body, cursor) {
        case Unfinished(tail) =>
          return if partial && tail.Some? then Complete(Decoded(decoded + tail.value, |body|)) else NeedMore;
        case Invalid =>
          return Malformed;
        case Last(next) =>
          return Complete(Decoded(decoded, next));
        case Chunk(data, next) =>
          decoded := decoded + data;
          cursor := next;
      }
    }
  }

  // ---------------------------------------------------------------- growing buffers

  /** A finished or rejected element is unaffected by whatever arrives later. */
  lemma PieceExtend(body: seq<Byte>, t: seq<Byte>, cursor: nat)
    requires cursor <= |body|
    ensures !ReadPiece(body, cursor).Unfinished? ==> ReadPiece(body + t, cursor) == ReadPiece(body, cursor)
  {
    SizeExtend(body, t, cursor);
    match ReadSize(body, cursor) {
      case Sized(size, start) =>
        LastExtend(body, t, start);
        DataExtend(body, t, start, size);
      case _ =>
    }
  }

  lemma SizeExtend(body: seq<Byte>, t: seq<Byte>, cursor: nat)
    requires cursor <= |body|
    ensures !ReadSize(body, cursor).Open? ==> ReadSize(body + t, cursor) == ReadSize(body, cursor)
  {
    FindExtend(body, t, CRLF, cursor);
    match Find(body, CRLF, cursor) {
      case None =>
        if ReadSize(body, cursor).Bad? {
          BadFragmentStays(body, t, cursor);
        }
      case Some(lineEnd) =>
        assert (body + t)[cursor..lineEnd] == body[cursor..lineEnd];
    }
  }

  lemma LastExtend(body: seq<Byte>, t: seq<Byte>, start: nat)
    requires start <= |body|
    ensures !ReadLast(body, start).Unfinished? ==> ReadLast(body + t, start) == ReadLast(body, start)
  {
    FindExtend(body, t, BLANK, start);
    if start + 2 <= |body| {
      AtExtend(body, t, CRLF, start);
    }
  }

  lemma DataExtend(body: seq<Byte>, t: seq<Byte>, start: nat, size: nat)
    requires start <= |body|
    ensures !ReadData(body, start, size).Unfinished? ==>
              ReadData(body + t, start, size) == ReadData(body, start, size)
  {
    var end := start + size;
    if end + 2 <= |body| {
      assert (body + t)[start..end] == body[start..end];
      assert (body + t)[end..end + 2] == body[end..end + 2];
    } else if |body| == end + 1 && t != [] {
      assert (body + t)[end..end + 2][0] == body[end];
    }
  }

  /** Bytes that cannot begin a size line still cannot once more bytes follow them. */
  lemma {:induction false} BadFragmentStays(body: seq<Byte>, t: seq<Byte>, cursor: nat)
    requires cursor < |body| && Find(body, CRLF, cursor).None?
    requires !OpenSizeLine(body[cursor..])
    ensures ReadSize(body + t, cursor) == Bad
  {
    var whole := body + t;
    FindExtend(body, t, CRLF, cursor);
    match Find(whole, CRLF, cursor) {
      case None =>
        assert whole[cursor..] == body[cursor..] + t;
        ShorterSizeLine(body[cursor..], t);
      case Some(lineEnd) =>
        if IsHex(whole[cursor..lineEnd]) {
          TerminatedSizeLine(body, t, cursor, lineEnd);
        }
    }
  }

  /** A size line that ends in the new bytes was a good beginning already. */
  lemma TerminatedSizeLine(body: seq<Byte>, t: seq<Byte>, cursor: nat, lineEnd: nat)
    requires cursor < |body| && |body| < lineEnd + 2
    requires cursor <= lineEnd && At(body + t, CRLF, lineEnd)
    requires IsHex((body + t)[cursor..lineEnd])
    ensures OpenSizeLine(body[cursor..])
  {
    var whole := body + t;
    var fragment, token := body[cursor..], whole[cursor..lineEnd];
    if lineEnd == |body| - 1 {
      assert whole[lineEnd..lineEnd + 2][0] == CR;
      assert fragment[..|fragment| - 1] == token;
    } else {
      assert token == fragment + whole[|body|..lineEnd];
      ShorterSizeLine(fragment, whole[|body|..lineEnd]);
    }
  }

  lemma ShorterSizeLine(fragment: seq<Byte>, t: seq<Byte>)
    requires fragment != []
    ensures OpenSizeLine(fragment + t) ==> OpenSizeLine(fragment)
  {
    var longer := fragment + t;
    if t == [] {
      assert longer == fragment;
    } else if OpenSizeLine(longer) {
      forall i | 0 <= i < |fragment|
        ensures IsHexDigit(fragment[i])
      {
        assert fragment[i] == longer[i] == longer[..|longer| - 1][i];
      }
    }
  }

  /** Once the decoder has finished or rejected, later bytes change nothing. */
  lemma {:induction false} DecodeExtend(body: seq<Byte>, t: seq<Byte>, cursor: nat, decoded: seq<Byte>)
    requires cursor <= |body|
    ensures DecodeFrom(body, cursor, decoded, false) != NeedMore ==>
              DecodeFrom(body + t, cursor, decoded, false) == DecodeFrom(body, cursor, decoded, false)
    ensures DecodeFrom(body, cursor, decoded, false).Complete? ==>
              cursor < DecodeFrom(body, cursor, decoded, false).value.consumed <= |body|
    decreases |body| - cursor
  {
    PieceExtend(body, t, cursor);
    match ReadPiece(body, cursor) {
      case Chunk(data, next) => DecodeExtend(body, t, next, decoded + data);
      case _ =>
    }
  }

  /** `Chunk` pieces, and the data a final piece still has to offer, only ever add to what was decoded. */
  lemma {:induction false} DecodedGrows(body: seq<Byte>, cursor: nat, decoded: seq<Byte>, partial: bool)
    requires cursor <= |body|
    ensures DecodeFrom(body, cursor, decoded, partial).Complete? ==>
              decoded <= DecodeFrom(body, cursor, decoded, partial).value.data
    decreases |body| - cursor
  {
    match ReadPiece(body, cursor) {
      case Chunk(data, next) => DecodedGrows(body, next, decoded + data, partial);
      case _ =>
    }
  }

  /** An element cut short offers a prefix of the data it will have when complete. */
  lemma CutPiece(body: seq<Byte>, t: seq<Byte>, cursor: nat)
    requires cursor <= |body| && ReadPiece(body, cursor).Unfinished?
    requires ReadPiece(body, cursor).tail.Some?
    ensures match ReadPiece(body + t, cursor)
            case Chunk(data, _) => ReadPiece(body, cursor).tail.value <= data
            case Last(_) => ReadPiece(body, cursor).tail.value == []
            case _ => true
  {
    SizeExtend(body, t, cursor);
    if ReadSize(body, cursor).Sized? {
      var Sized(size, start) := ReadSize(body, cursor);
      if size > 0 {
        CutData(body, t, start, size);
      }
    }
  }

  lemma CutData(body: seq<Byte>, t: seq<Byte>, start: nat, size: nat)
    requires start <= |body| && ReadData(body, start, size).Unfinished?
    ensures ReadData(body, start, size).tail.Some?
    ensures ReadData(body + t, start, size).Chunk? ==>
              ReadData(body, start, size).tail.value <= ReadData(body + t, start, size).data
  {
    var end := start + size;
    var short := if end <= |body| then body[start..end] else body[start..];
    if end <= |body + t| {
      assert forall i | 0 <= i < |short| :: short[i] == (body + t)[start..end][i];
    }
  }

  /**
    Partial mode on a prefix of a body that decodes: no error, and whatever is
    recovered is a prefix of the data.
   */
  lemma {:induction false} PartialIsPrefix(body: seq<Byte>, t: seq<Byte>, cursor: nat, decoded: seq<Byte>)
    requires cursor <= |body| && DecodeFrom(body + t, cursor, decoded, false).Complete?
    ensures DecodeFrom(body, cursor, decoded, true) != Malformed
    ensures DecodeFrom(body, cursor, decoded, true).Complete? ==>
              DecodeFrom(body, cursor, decoded, true).value.data
              <= DecodeFrom(body + t, cursor, decoded, false).value.data
    decreases |body| - cursor
  {
    PieceExtend(body, t, cursor);
    match ReadPiece(body, cursor) {
      case Chunk(data, next) => PartialIsPrefix(body, t, next, decoded + data);
      case Unfinished(tail) =>
        if tail.Some? {
          CutPiece(body, t, cursor);
          match ReadPiece(body + t, cursor) {
            case Chunk(data, next) => DecodedGrows(body + t, next, decoded + data, false);
            case Last(_) => assert decoded + tail.value == decoded;
            case _ =>
          }
        }
      case _ =>
    }
  }

  // ---------------------------------------------------------------- the coding itself

  /** One encoded chunk: any hexadecimal spelling of its size, and its data. */
  datatype Part = Part(token: seq<Byte>, data: seq<Byte>)

  predicate ValidPart(p: Part) {
    IsHex(p.token) && HexValue(p.token) == |p.data| > 0
  }

  function PartWire(p: Part): seq<Byte> {
    p.token + CRLF + p.data + CRLF
  }

  /** The wire form of a list of chunks closed by a zero size spelled `last`. */
  function Encode(parts: seq<Part>, last: seq<Byte>): seq<Byte> {
    if parts == [] then last + BLANK
    else PartWire(parts[0]) + Encode(parts[1..], last)
  }

  function Payload(parts: seq<Part>): seq<Byte> {
    if parts == [] then [] else parts[0].data + Payload(parts[1..])
  }

  predicate ValidCoding(parts: seq<Part>, last: seq<Byte>) {
    && (forall i | 0 <= i < |parts| :: ValidPart(parts[i]))
    && IsHex(last) && HexValue(last) == 0
  }

  /** A size line is found where it stands: hexadecimal digits hold no CR. */
  lemma {:induction false} SizeLineAt(body: seq<Byte>, cursor: nat, token: seq<Byte>)
    requires cursor + |token| + 2 <= |body| && IsHex(token)
    requires body[cursor..cursor + |token|] == token && At(body, CRLF, cursor + |token|)
    ensures Find(body, CRLF, cursor) == Some(cursor + |token|)
  {
    forall k | cursor <= k < cursor + |token|
      ensures !At(body, CRLF, k)
    {
      assert body[k] == token[k - cursor] && IsHexDigit(token[k - cursor]);
      AtShows(body, CRLF, k, 0);
    }
    FindSkip(body, CRLF, cursor, cursor + |token|);
  }

  lemma SizeLineRead(body: seq<Byte>, cursor: nat, token: seq<Byte>, rest: seq<Byte>)
    requires cursor <= |body| && IsHex(token) && body[cursor..] == token + CRLF + rest
    ensures ReadSize(body, cursor) == Sized(HexValue(token), cursor + |token| + 2)
    ensures body[cursor + |token| + 2..] == rest
  {
    var tail := body[cursor..];
    assert body[cursor..cursor + |token|] == tail[..|token|] == token;
    assert body[cursor + |token|..cursor + |token| + 2] == tail[|token|..|token| + 2] == CRLF;
    assert body[cursor + |token| + 2..] == tail[|token| + 2..] == rest;
    SizeLineAt(body, cursor, token);
  }

  lemma PartRead(body: seq<Byte>, cursor: nat, decoded: seq<Byte>, p: Part, rest: seq<Byte>, partial: bool)
    returns (next: nat)
    requires cursor <= |body| && ValidPart(p) && body[cursor..] == PartWire(p) + rest
    ensures next == cursor + |PartWire(p)| <= |body| && body[next..] == rest
    ensures DecodeFrom(body, cursor, decoded, partial) == DecodeFrom(body, next, decoded + p.data, partial)
  {
    assert body[cursor..] == p.token + CRLF + (p.data + CRLF + rest);
    SizeLineRead(body, cursor, p.token, p.data + CRLF + rest);
    var start := cursor + |p.token| + 2;
    var tail, end := body[start..], start + |p.data|;
    assert body[start..end] == tail[..|p.data|] == p.data;
    assert body[end..end + 2] == tail[|p.data|..|p.data| + 2] == CRLF;
    next := end + 2;
    assert body[next..] == tail[|p.data| + 2..] == rest;
    assert ReadPiece(body, cursor) == Chunk(p.data, next);
  }

  lemma LastRead(body: seq<Byte>, cursor: nat, last: seq<Byte>, rest: seq<Byte>)
    requires cursor <= |body| && IsHex(last) && HexValue(last) == 0 && body[cursor..] == last + BLANK + rest
    ensures ReadPiece(body, cursor) == Last(cursor + |last| + 4)
  {
    assert body[cursor..] == last + CRLF + (CRLF + rest);
    SizeLineRead(body, cursor, last, CRLF + rest);
    var start := cursor + |last| + 2;
    assert body[start..start + 2] == body[start..][..2] == CRLF;
  }

  lemma Associate(a: seq<Byte>, b: seq<Byte>, c: seq<Byte>)
    ensures a + b + c == a + (b + c)
  {
  }

  lemma {:induction false} Unfold(parts: seq<Part>, last: seq<Byte>, rest: seq<Byte>)
    requires ValidCoding(parts, last) && parts != []
    ensures ValidPart(parts[0]) && ValidCoding(parts[1..], last)
    ensures Encode(parts, last) + rest == PartWire(parts[0]) + (Encode(parts[1..], last) + rest)
    ensures |Encode(parts, last)| == |PartWire(parts[0])| + |Encode(parts[1..], last)|
    ensures Payload(parts) == parts[0].data + Payload(parts[1..])
  {
    Associate(PartWire(parts[0]), Encode(parts[1..], last), rest);
  }

  /** Decoding an encoded body gives back its data and stops exactly at its end, whatever follows. */
  lemma {:induction false} RoundTripFrom(
    body: seq<Byte>, cursor: nat, decoded: seq<Byte>, parts: seq<Part>, last: seq<Byte>, rest: seq<Byte>, partial: bool)
    requires cursor <= |body| && ValidCoding(parts, last) && body[cursor..] == Encode(parts, last) + rest
    ensures var v := DecodeFrom(body, cursor, decoded, partial);
            && v.Complete?
            && v.value.data == decoded + Payload(parts)
            && v.value.consumed == cursor + |Encode(parts, last)|
    decreases |parts|
  {
    if parts == [] {
      LastRead(body, cursor, last, rest);
      assert decoded + Payload(parts) == decoded;
    } else {
      var p, tail := parts[0], parts[1..];
      Unfold(parts, last, rest);
      var next := PartRead(body, cursor, decoded, p, Encode(tail, last) + rest, partial);
      RoundTripFrom(body, next, decoded + p.data, tail, last, rest, partial);
      Associate(decoded, p.data, Payload(tail));
    }
  }

  /**
    The chunked round trip. `data` is arbitrary and may contain CRLF; any spelling of the
    sizes is accepted; the bytes after the body play no part.
   */
  lemma {:induction false} RoundTrip(parts: seq<Part>, last: seq<Byte>, rest: seq<Byte>, partial: bool)
    requires ValidCoding(parts, last)
    ensures Decode(Encode(parts, last) + rest, partial)
            == Complete(Decoded(Payload(parts), |Encode(parts, last)|))
  {
    var body := Encode(parts, last) + rest;
    assert body[0..] == body;
    RoundTripFrom(body, 0, [], parts, last, rest, partial);
    assert [] + Payload(parts) == Payload(parts);
  }

  /** A proper prefix of an encoded body waits for more, and partial mode recovers a prefix of the data. */
  lemma {:induction false} ProperPrefixWaits(parts: seq<Part>, last: seq<Byte>, k: nat)
    requires ValidCoding(parts, last) && k < |Encode(parts, last)|
    ensures Decode(Encode(parts, last)[..k], false) == NeedMore
    ensures Decode(Encode(parts, last)[..k], true).NeedMore?
            || (Decode(Encode(parts, last)[..k], true).Complete?
                && Decode(Encode(parts, last)[..k], true).value.data <= Payload(parts))
  {
    var whole := Encode(parts, last);
    var body, t := whole[..k], whole[k..];
    assert body + t == whole == whole + [];
    RoundTrip(parts, last, [], false);
    DecodeExtend(body, t, 0, []);
    PartialIsPrefix(body, t, 0, []);
  }

  /** A size line the decoder reads is spelled exactly as the coding spells it. */
  lemma SizeSpelling(body: seq<Byte>, cursor: nat) returns (token: seq<Byte>)
    requires cursor <= |body| && ReadSize(body, cursor).Sized?
    ensures IsHex(token) && HexValue(token) == ReadSize(body, cursor).size
    ensures cursor <= ReadSize(body, cursor).start <= |body|
    ensures body[cursor..ReadSize(body, cursor).start] == token + CRLF
  {
    var lineEnd := Find(body, CRLF, cursor).value;
    token := body[cursor..lineEnd];
    assert body[cursor..lineEnd + 2] == token + CRLF;
  }

  lemma Slices(body: seq<Byte>, a: nat, b: nat, c: nat)
    requires a <= b <= c <= |body|
    ensures body[a..c] == body[a..b] + body[b..c]
  {
  }

  /** A piece the decoder consumes is spelled exactly as the coding spells it. */
  lemma PieceSpelling(body: seq<Byte>, cursor: nat) returns (token: seq<Byte>)
    requires cursor <= |body| && (ReadPiece(body, cursor).Chunk? || ReadPiece(body, cursor).Last?)
    ensures IsHex(token)
    ensures match ReadPiece(body, cursor)
            case Chunk(data, next) =>
              ValidPart(Part(token, data)) && body[cursor..next] == PartWire(Part(token, data))
            case Last(next) =>
              HexValue(token) == 0 && body[cursor..next] == token + BLANK
            case _ => true
  {
    token := SizeSpelling(body, cursor);
    var start, size := ReadSize(body, cursor).start, ReadSize(body, cursor).size;
    match ReadPiece(body, cursor) {
      case Chunk(data, next) =>
        Slices(body, cursor, start, next);
        Slices(body, start, start + size, next);
      case Last(next) =>
        Slices(body, cursor, start, next);
      case _ =>
    }
  }

  lemma Prepend(p: Part, parts: seq<Part>, last: seq<Byte>) returns (all: seq<Part>)
    requires ValidPart(p) && ValidCoding(parts, last)
    ensures ValidCoding(all, last)
    ensures Encode(all, last) == PartWire(p) + Encode(parts, last)
    ensures Payload(all) == p.data + Payload(parts)
  {
    all := [p] + parts;
    assert all[1..] == parts;
  }

  /**
    The decoder accepts nothing but the coding: what it consumed is the wire form of some
    chunks, and what it produced is their data.
   */
  lemma {:induction false} AcceptsOnlyCodings(body: seq<Byte>, cursor: nat, decoded: seq<Byte>)
    returns (parts: seq<Part>, last: seq<Byte>)
    requires cursor <= |body| && DecodeFrom(body, cursor, decoded, false).Complete?
    ensures ValidCoding(parts, last)
    ensures var d := DecodeFrom(body, cursor, decoded, false).value;
            cursor <= d.consumed <= |body|
            && body[cursor..d.consumed] == Encode(parts, last)
            && d.data == decoded + Payload(parts)
    decreases |body| - cursor
  {
    var token := PieceSpelling(body, cursor);
    match ReadPiece(body, cursor) {
      case Chunk(data, next) =>
        var later, tail := AcceptsOnlyCodings(body, next, decoded + data);
        var consumed := DecodeFrom(body, next, decoded + data, false).value.consumed;
        Slices(body, cursor, next, consumed);
        Associate(decoded, data, Payload(later));
        parts := Prepend(Part(token, data), later, tail);
        last := tail;
      case Last(next) =>
        parts, last := [], token;
      case _ =>
    }
  }
}
