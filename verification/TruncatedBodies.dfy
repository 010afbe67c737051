/** What partial mode recovers of a chunked body that is cut short: every data byte that arrived. */
module TruncatedBodies {
  import opened Bytes
  import opened Chunked
  import opened Wrappers

  /** At most the first `k` bytes of some data. */
  function Clip(data: seq<Byte>, k: int): seq<Byte> {
    if k < 0 then [] else if k <= |data| then data[..k] else data
  }

  /** The data bytes among the first `k` bytes of some encoded chunks. */
  function Received(parts: seq<Part>, k: nat): seq<Byte> {
    if parts == [] then []
    else
      var size, whole := |parts[0].token| + 2, |parts[0].token| + |parts[0].data| + 4;
      if k < whole then Clip(parts[0].data, k - size) else parts[0].data + Received(parts[1..], k - whole)
  }

  /** The body ends within a size line. */
  lemma CutSizeLine(body: seq<Byte>, cursor: nat, token: seq<Byte>)
    requires cursor <= |body| && IsHex(token)
    requires body[cursor..] <= token + CRLF && |body| < cursor + |token| + 2
    ensures ReadSize(body, cursor) == Open
  {
    var fragment := body[cursor..];
    assert forall i | cursor <= i < |body| :: body[i] == fragment[i - cursor] == (token + CRLF)[i - cursor];
    forall j | cursor <= j && j + 2 <= |body|
      ensures !At(body, CRLF, j)
    {
      assert body[j] == token[j - cursor] && IsHexDigit(token[j - cursor]);
      AtShows(body, CRLF, j, 0);
    }
    if fragment != [] {
      if |fragment| <= |token| {
        assert fragment == token[..|fragment|];
        assert IsHex(fragment);
      } else {
        assert fragment[..|fragment| - 1] == token && fragment[|token|] == CR;
      }
    }
  }

  lemma CutPart(body: seq<Byte>, cursor: nat, p: Part)
    requires cursor <= |body| && ValidPart(p)
    requires body[cursor..] <= PartWire(p) && |body| < cursor + |PartWire(p)|
    ensures ReadPiece(body, cursor) == Unfinished(Some(Clip(p.data, |body| - cursor - |p.token| - 2)))
  {
    Associate(p.token + CRLF, p.data, CRLF);
    CutLines(body, cursor, p.token, p.data, body[cursor..], p.token + CRLF, p.data + CRLF);
  }

  lemma CutLines(
    body: seq<Byte>, cursor: nat, token: seq<Byte>, data: seq<Byte>, tail: seq<Byte>, line: seq<Byte>, rest: seq<Byte>)
    requires cursor <= |body| && body[cursor..] == tail && IsHex(token) && HexValue(token) == |data| > 0
    requires line == token + CRLF && rest == data + CRLF && tail <= line + rest && |tail| < |line| + |rest|
    ensures ReadPiece(body, cursor) == Unfinished(Some(Clip(data, |tail| - |line|)))
  {
    if |tail| < |line| {
      CutWithin(tail, line, rest);
      CutSizeLine(body, cursor, token);
    } else {
      CutAfter(tail, line, rest);
      SizeLineRead(body, cursor, token, tail[|line|..]);
      CutInData(body, cursor, cursor + |line|, data, tail[|line|..], rest);
    }
  }

  lemma CutInData(body: seq<Byte>, cursor: nat, start: nat, data: seq<Byte>, rest: seq<Byte>, wire: seq<Byte>)
    requires cursor <= |body| && ReadSize(body, cursor) == Sized(|data|, start) && |data| > 0
    requires body[start..] == rest && rest <= wire == data + CRLF && |rest| < |data| + 2
    ensures ReadPiece(body, cursor) == Unfinished(Some(Clip(data, |rest|)))
  {
    CutDataOf(body, start, data, rest, wire);
  }

  lemma CutWithin(tail: seq<Byte>, line: seq<Byte>, rest: seq<Byte>)
    requires tail <= line + rest && |tail| <= |line|
    ensures tail <= line
  {
    assert tail == (line + rest)[..|tail|] == line[..|tail|];
  }

  lemma CutAfter(tail: seq<Byte>, line: seq<Byte>, rest: seq<Byte>)
    requires tail <= line + rest && |line| <= |tail|
    ensures tail == line + tail[|line|..] && tail[|line|..] <= rest
  {
    assert tail == (line + rest)[..|tail|];
  }

  lemma CutDataOf(body: seq<Byte>, start: nat, data: seq<Byte>, rest: seq<Byte>, wire: seq<Byte>)
    requires start <= |body| && body[start..] == rest && rest <= wire == data + CRLF && |rest| < |data| + 2
    ensures ReadData(body, start, |data|) == Unfinished(Some(Clip(data, |rest|)))
  {
    var end := start + |data|;
    if |rest| <= |data| {
      CutWithin(rest, data, CRLF);
      assert rest == data[..|rest|];
      assert end <= |body| ==> body[start..end] == rest;
    } else {
      CutAfter(rest, data, CRLF);
      assert body[start..end] == rest[..|data|] == data;
      assert body[end] == rest[|data|] == wire[|data|] == CR;
    }
  }

  lemma CutLast(body: seq<Byte>, cursor: nat, last: seq<Byte>)
    requires cursor <= |body| && IsHex(last) && HexValue(last) == 0
    requires body[cursor..] <= last + BLANK && |body| < cursor + |last| + 4
    ensures ReadPiece(body, cursor) == if |body| < cursor + |last| + 2 then Unfinished(Some([])) else Unfinished(None)
  {
    var k, tail := |body| - cursor, body[cursor..];
    assert last + BLANK == (last + CRLF) + CRLF;
    assert tail == (last + BLANK)[..k];
    if k < |last| + 2 {
      assert tail <= last + CRLF by {
        assert tail == (last + CRLF)[..k];
      }
      CutSizeLine(body, cursor, last);
    } else {
      CutAfter(tail, last + CRLF, CRLF);
      SizeLineRead(body, cursor, last, tail[|last| + 2..]);
    }
  }

  /** The body ends within the first of some parts. */
  lemma {:induction false} CutInFirst(
    body: seq<Byte>, cursor: nat, decoded: seq<Byte>, parts: seq<Part>, tail: seq<Byte>, wire: seq<Byte>, more: seq<Byte>)
    requires cursor <= |body| && body[cursor..] == tail && parts != [] && ValidPart(parts[0])
    requires wire == PartWire(parts[0]) && tail <= wire + more && |tail| < |wire|
    ensures DecodeFrom(body, cursor, decoded, true)
            == Complete(Decoded(decoded + Received(parts, |tail|), |body|))
  {
    CutWithin(tail, wire, more);
    CutPart(body, cursor, parts[0]);
  }

  /** The first of some parts is whole. */
  lemma PastFirst(
    body: seq<Byte>, cursor: nat, decoded: seq<Byte>, parts: seq<Part>, tail: seq<Byte>, wire: seq<Byte>, more: seq<Byte>)
    returns (next: nat, rest: seq<Byte>)
    requires cursor <= |body| && body[cursor..] == tail && parts != [] && ValidPart(parts[0])
    requires wire == PartWire(parts[0]) && tail <= wire + more && |wire| <= |tail|
    ensures next == cursor + |wire| <= |body| && body[next..] == rest <= more && |rest| == |tail| - |wire|
    ensures DecodeFrom(body, cursor, decoded, true) == DecodeFrom(body, next, decoded + parts[0].data, true)
    ensures decoded + Received(parts, |tail|) == decoded + parts[0].data + Received(parts[1..], |rest|)
  {
    rest := tail[|wire|..];
    CutAfter(tail, wire, more);
    next := PartRead(body, cursor, decoded, parts[0], rest, true);
    Associate(decoded, parts[0].data, Received(parts[1..], |rest|));
  }

  lemma {:induction false} CutFrom(
    body: seq<Byte>, cursor: nat, decoded: seq<Byte>, parts: seq<Part>, last: seq<Byte>, tail: seq<Byte>)
    requires cursor <= |body| && body[cursor..] == tail && ValidCoding(parts, last)
    requires tail <= Encode(parts, last) && |tail| < |Encode(parts, last)|
    ensures DecodeFrom(body, cursor, decoded, true)
            == if |tail| < |Encode(parts, last)| - 2 then Complete(Decoded(decoded + Received(parts, |tail|), |body|))
               else NeedMore
    decreases |parts|
  {
    if parts == [] {
      CutLast(body, cursor, last);
    } else {
      var wire, more := PartWire(parts[0]), Encode(parts[1..], last);
      Longer(parts[1..], last);
      assert Encode(parts, last) == wire + more;
      if |tail| < |wire| {
        CutInFirst(body, cursor, decoded, parts, tail, wire, more);
      } else {
        var next, rest := PastFirst(body, cursor, decoded, parts, tail, wire, more);
        CutFrom(body, next, decoded + parts[0].data, parts[1..], last, rest);
      }
    }
  }

  lemma {:induction false} Longer(parts: seq<Part>, last: seq<Byte>)
    ensures |Encode(parts, last)| >= 4
  {
  }

  /**
    Of a proper prefix of an encoded body, partial mode recovers exactly the data bytes that
    arrived, until the zero size has been read; then it waits for the final line end.
   */
  lemma {:induction false} PartialIsReceived(parts: seq<Part>, last: seq<Byte>, k: nat)
    requires ValidCoding(parts, last) && k < |Encode(parts, last)|
    ensures Decode(Encode(parts, last)[..k], true)
            == if k < |Encode(parts, last)| - 2 then Complete(Decoded(Received(parts, k), k)) else NeedMore
  {
    var body := Encode(parts, last)[..k];
    assert body[0..] == body;
    CutFrom(body, 0, [], parts, last, body);
    assert [] + Received(parts, k) == Received(parts, k);
  }
}
