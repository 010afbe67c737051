/**
  The status line and header fields of an HTTP/1.1 response, as `recheck._parse_headers`
  reads them from a growing buffer.
 */
module HttpHead {
  import opened Bytes
  import opened Wrappers

  const HEADER_LIMIT: nat := 32 * 1024

  datatype Field = Field(name: seq<Byte>, value: seq<Byte>)

  datatype Head = Head(status: nat, fields: seq<Field>, bodyStart: nat)

  /** `b"HTTP/1."` */
  const VERSION: seq<Byte> := [72, 84, 84, 80, 47, 49, 46]
  const COLON: seq<Byte> := [58]

  /** The characters the reader's field-name expression lists. */
  predicate IsTokenByte(b: Byte) {
    || b == 33 || 35 <= b <= 39 || b == 42 || b == 43 || b == 45 || b == 46
    || IsDigit(b) || 65 <= b <= 90 || 94 <= b <= 122 || b == 124 || b == 126
  }

  predicate IsToken(s: seq<Byte>) {
    s != [] && forall i | 0 <= i < |s| :: IsTokenByte(s[i])
  }

  predicate NoControls(s: seq<Byte>) {
    forall i | 0 <= i < |s| :: !IsControl(s[i])
  }

  /** `HTTP/1.0` or `HTTP/1.1`, a three-digit status from 100 to 599, and perhaps a reason. */
  predicate IsStatusLine(line: seq<Byte>) {
    && |line| >= 12
    && line[..7] == VERSION && (line[7] == 48 || line[7] == 49) && line[8] == SPACE
    && 49 <= line[9] <= 53 && IsDigit(line[10]) && IsDigit(line[11])
    && (|line| > 12 ==> IsBlank(line[12]))
    && NoControls(line)
  }

  function StatusOf(line: seq<Byte>): (r: nat)
    requires IsStatusLine(line)
    ensures 100 <= r <= 599
  {
    (line[9] as int - 48) * 100 + (line[10] as int - 48) * 10 + (line[11] as int - 48)
  }

  function ParseField(line: seq<Byte>): Option<Field> {
    if line == [] || IsBlank(line[0]) then None
    else
      match Find(line, COLON, 0)
      case None => None
      case Some(i) =>
        var name, value := line[..i], Strip(line[i + 1..]);
        if IsToken(name) && NoControls(value) then Some(Field(Lower(name), value)) else None
  }

  /** The fields on `lines[i..]`, appended to those already read; `None` if a line is not a field. */
  function ParseFieldsFrom(lines: seq<seq<Byte>>, i: nat, fields: seq<Field>): Option<seq<Field>>
    requires i <= |lines|
    decreases |lines| - i
  {
    if i == |lines| then Some(fields)
    else
      match ParseField(lines[i])
      case None => None
      case Some(f) => ParseFieldsFrom(lines, i + 1, fields + [f])
  }

  /** `text.split(b"\r\n")` */
  function SplitLines(text: seq<Byte>): (lines: seq<seq<Byte>>)
    ensures lines != []
    decreases |text|
  {
    match Find(text, CRLF, 0)
    case None => [text]
    case Some(i) => [text[..i]] + SplitLines(text[i + 2..])
  }

  function ReadHead(lines: seq<seq<Byte>>, bodyStart: nat): Verdict<Head>
    requires lines != []
  {
    if !IsStatusLine(lines[0]) then Malformed
    else
      match ParseFieldsFrom(lines, 1, [])
      case None => Malformed
      case Some(fields) => Complete(Head(StatusOf(lines[0]), fields, bodyStart))
  }

  function ParseHead(raw: seq<Byte>): (r: Verdict<Head>)
    ensures r.Complete? ==> 4 <= r.value.bodyStart <= |raw|
  {
    match Find(raw, BLANK, 0)
    case None => if |raw| >= HEADER_LIMIT then Malformed else NeedMore
    case Some(boundary) =>
      if boundary + 4 > HEADER_LIMIT then Malformed
      else ReadHead(SplitLines(raw[..boundary]), boundary + 4)
  }

  /** The header loop itself, appending one field at a time. */
  method ParseHeaders(raw: seq<Byte>) returns (r: Verdict<Head>)
    ensures r == ParseHead(raw)
  {
    var boundary := Find(raw, BLANK, 0);
    if boundary.None? {
      return if |raw| >= HEADER_LIMIT then Malformed else NeedMore;
    }
    if boundary.value + 4 > HEADER_LIMIT {
      return Malformed;
    }
    var lines := SplitLines(raw[..boundary.value]);
    if !IsStatusLine(lines[0]) {
      return Malformed;
    }
    var fields: seq<Field> := [];
    for i := 1 to |lines|
      invariant ParseFieldsFrom(lines, 1, []) == ParseFieldsFrom(lines, i, fields)
    {
      var field := ParseField(lines[i]);
      if field.None? {
        return Malformed;
      }
      fields := fields + [field.value];
    }
    return Complete(Head(StatusOf(lines[0]), fields, boundary.value + 4));
  }

  /** The values of every field of one name, in order. */
  function ValuesOf(fields: seq<Field>, name: seq<Byte>): seq<seq<Byte>> {
    if fields == [] then []
    else (if fields[0].name == name then [fields[0].value] else []) + ValuesOf(fields[1..], name)
  }

  /** Once the head is read or refused, later bytes change nothing. */
  lemma HeadExtend(raw: seq<Byte>, t: seq<Byte>)
    ensures ParseHead(raw) != NeedMore ==> ParseHead(raw + t) == ParseHead(raw)
  {
    FindExtend(raw, t, BLANK, 0);
    match Find(raw, BLANK, 0) {
      case None =>
      case Some(boundary) => assert (raw + t)[..boundary] == raw[..boundary];
    }
  }

  // ---------------------------------------------------------------- the spelling of a head

  /** One field line: a name in any case, and a value between optional blanks. */
  datatype Spelling = Spelling(name: seq<Byte>, before: seq<Byte>, value: seq<Byte>, after: seq<Byte>)

  predicate AllBlank(s: seq<Byte>) {
    forall i | 0 <= i < |s| :: IsBlank(s[i])
  }

  predicate ValidSpelling(s: Spelling) {
    && IsToken(s.name) && AllBlank(s.before) && AllBlank(s.after) && NoControls(s.value)
    && (s.value != [] ==> !IsBlank(s.value[0]) && !IsBlank(s.value[|s.value| - 1]))
  }

  function FieldLine(s: Spelling): seq<Byte> {
    s.name + COLON + (s.before + s.value + s.after)
  }

  function FieldOf(s: Spelling): Field {
    Field(Lower(s.name), s.value)
  }

  lemma {:induction false} StripAfter(value: seq<Byte>, after: seq<Byte>)
    requires AllBlank(after) && (value != [] ==> !IsBlank(value[0]) && !IsBlank(value[|value| - 1]))
    ensures Strip(value + after) == value
    decreases |after|
  {
    var s := value + after;
    if after == [] {
      assert s == value;
    } else if value == [] {
      assert s == after && s[1..] == value + after[1..];
      StripAfter(value, after[1..]);
    } else {
      assert s[..|s| - 1] == value + after[..|after| - 1];
      StripAfter(value, after[..|after| - 1]);
    }
  }

  lemma {:induction false} StripBefore(before: seq<Byte>, rest: seq<Byte>)
    requires AllBlank(before)
    ensures Strip(before + rest) == Strip(rest)
    decreases |before|
  {
    if before == [] {
      assert before + rest == rest;
    } else {
      assert (before + rest)[1..] == before[1..] + rest;
      StripBefore(before[1..], rest);
    }
  }

  /** The first colon of a field line is the one after its name. */
  lemma {:induction false} ColonAfterName(name: seq<Byte>, rest: seq<Byte>)
    requires IsToken(name)
    ensures Find(name + COLON + rest, COLON, 0) == Some(|name|)
  {
    var line := name + COLON + rest;
    forall k | 0 <= k < |name|
      ensures !At(line, COLON, k)
    {
      assert line[k] == name[k] && IsTokenByte(name[k]);
      AtShows(line, COLON, k, 0);
    }
    FindSkip(line, COLON, 0, |name|);
    assert line[|name|..|name| + 1] == COLON;
  }

  lemma {:induction false} ParsedField(name: seq<Byte>, rest: seq<Byte>)
    requires IsToken(name) && NoControls(Strip(rest))
    ensures ParseField(name + COLON + rest) == Some(Field(Lower(name), Strip(rest)))
  {
    var line := name + COLON + rest;
    ColonAfterName(name, rest);
    assert line[..|name|] == name && line[|name| + 1..] == rest;
    assert line[0] == name[0] && IsTokenByte(name[0]);
  }

  /** A spelled field is read back, with its name lowered and its blanks dropped. */
  lemma FieldRoundTrip(s: Spelling)
    requires ValidSpelling(s)
    ensures ParseField(FieldLine(s)) == Some(FieldOf(s))
  {
    assert s.before + s.value + s.after == s.before + (s.value + s.after);
    StripBefore(s.before, s.value + s.after);
    StripAfter(s.value, s.after);
    ParsedField(s.name, s.before + s.value + s.after);
  }

  /** Lines joined by CRLF. */
  function Join(lines: seq<seq<Byte>>): seq<Byte>
    requires lines != []
  {
    if |lines| == 1 then lines[0] else lines[0] + CRLF + Join(lines[1..])
  }

  /** A line as it can stand in a head: not empty, and without a CR. */
  predicate PlainLine(line: seq<Byte>) {
    line != [] && forall i | 0 <= i < |line| :: line[i] != CR
  }

  predicate PlainLines(lines: seq<seq<Byte>>) {
    forall i | 0 <= i < |lines| :: PlainLine(lines[i])
  }

  /** No pattern that begins with a CR starts inside a plain line. */
  lemma NotInLine(s: seq<Byte>, pat: seq<Byte>, from: nat, line: seq<Byte>)
    requires from + |line| <= |s| && s[from..from + |line|] == line && PlainLine(line)
    requires pat != [] && pat[0] == CR
    ensures Find(s, pat, from) == Find(s, pat, from + |line|)
  {
    forall k | from <= k < from + |line|
      ensures !At(s, pat, k)
    {
      assert s[k] == line[k - from];
      AtShows(s, pat, k, 0);
    }
    FindSkip(s, pat, from, from + |line|);
  }

  /** Splitting undoes joining. */
  lemma {:induction false} SplitJoin(lines: seq<seq<Byte>>)
    requires lines != [] && PlainLines(lines)
    ensures SplitLines(Join(lines)) == lines
    decreases |lines|
  {
    var text, n := Join(lines), |lines[0]|;
    assert PlainLine(lines[0]);
    assert text[0..n] == lines[0];
    NotInLine(text, CRLF, 0, lines[0]);
    if |lines| > 1 {
      SplitJoin(lines[1..]);
      assert text[n..n + 2] == CRLF;
      assert text[..n] == lines[0];
      assert text[n + 2..] == Join(lines[1..]);
    } else {
      assert text == lines[0];
    }
  }

  lemma SkipLine(s: seq<Byte>, from: nat, line: seq<Byte>, rest: seq<Byte>)
    requires from <= |s| && s[from..] == line + rest && PlainLine(line)
    ensures from + |line| <= |s| && s[from + |line|..] == rest
    ensures Find(s, BLANK, from) == Find(s, BLANK, from + |line|)
  {
    var tail := s[from..];
    assert s[from..from + |line|] == tail[..|line|] == line;
    assert s[from + |line|..] == tail[|line|..] == rest;
    NotInLine(s, BLANK, from, line);
  }

  lemma Associate(a: seq<Byte>, b: seq<Byte>, c: seq<Byte>)
    ensures a + b + c == a + (b + c)
  {
  }

  lemma {:induction false} JoinUnfolds(lines: seq<seq<Byte>>, rest: seq<Byte>)
    requires |lines| > 1
    ensures Join(lines) + rest == lines[0] + (CRLF + (Join(lines[1..]) + rest))
    ensures |Join(lines)| == |lines[0]| + 2 + |Join(lines[1..])|
  {
    Associate(lines[0] + CRLF, Join(lines[1..]), rest);
    Associate(lines[0], CRLF, Join(lines[1..]) + rest);
  }

  lemma {:induction false} JoinStarts(lines: seq<seq<Byte>>, rest: seq<Byte>)
    requires lines != [] && PlainLines(lines)
    ensures |Join(lines)| > 0 && (Join(lines) + rest)[0] == Join(lines)[0] != CR
  {
    assert PlainLine(lines[0]);
  }

  /** A line end followed by a plain line is not a blank line. */
  lemma SkipLineEnd(s: seq<Byte>, k: nat, later: seq<Byte>)
    requires k <= |s| && s[k..] == CRLF + later && later != [] && later[0] != CR
    ensures k + 2 <= |s| && s[k + 2..] == later
    ensures Find(s, BLANK, k) == Find(s, BLANK, k + 2)
  {
    var tail := s[k..];
    assert s[k + 1] == tail[1] == LF && s[k + 2] == tail[2] == later[0];
    AtShows(s, BLANK, k, 2);
    AtShows(s, BLANK, k + 1, 0);
    FindSkip(s, BLANK, k, k + 2);
  }

  /** No blank line begins before the second of several lines. */
  lemma SkipFirst(s: seq<Byte>, from: nat, first: seq<Byte>, others: seq<seq<Byte>>, rest: seq<Byte>)
    requires PlainLine(first) && others != [] && PlainLines(others) && from <= |s|
    requires s[from..] == first + (CRLF + (Join(others) + rest))
    ensures var next := from + |first| + 2;
            && next <= |s| && s[next..] == Join(others) + rest
            && Find(s, BLANK, from) == Find(s, BLANK, next)
  {
    var later := Join(others) + rest;
    SkipLine(s, from, first, CRLF + later);
    JoinStarts(others, rest);
    SkipLineEnd(s, from + |first|, later);
  }

  lemma {:induction false} BlankHere(s: seq<Byte>, from: nat, line: seq<Byte>, rest: seq<Byte>)
    requires PlainLine(line) && from <= |s| && s[from..] == line + rest && BLANK <= rest
    ensures Find(s, BLANK, from) == Some(from + |line|)
  {
    var stop := from + |line|;
    SkipLine(s, from, line, rest);
    assert s[stop..][..4] == s[stop..stop + 4];
  }

  /** The first blank line after joined lines is the one that was put there. */
  lemma {:induction false} BlankAfter(s: seq<Byte>, from: nat, lines: seq<seq<Byte>>, rest: seq<Byte>)
    requires lines != [] && PlainLines(lines) && from <= |s|
    requires s[from..] == Join(lines) + rest && BLANK <= rest
    ensures Find(s, BLANK, from).Some? && Find(s, BLANK, from).value == from + |Join(lines)|
    decreases |lines|
  {
    var first := lines[0];
    assert PlainLine(first);
    if |lines| == 1 {
      BlankHere(s, from, first, rest);
    } else {
      var others := lines[1..];
      JoinUnfolds(lines, rest);
      SkipFirst(s, from, first, others, rest);
      BlankAfter(s, from + |first| + 2, others, rest);
    }
  }

  function FieldLines(spellings: seq<Spelling>): (lines: seq<seq<Byte>>)
    ensures |lines| == |spellings|
    ensures forall i | 0 <= i < |lines| :: lines[i] == FieldLine(spellings[i])
  {
    if spellings == [] then [] else [FieldLine(spellings[0])] + FieldLines(spellings[1..])
  }

  function FieldsOf(spellings: seq<Spelling>): seq<Field> {
    if spellings == [] then [] else [FieldOf(spellings[0])] + FieldsOf(spellings[1..])
  }

  /** A status line, field lines, and the blank line that ends the head. */
  function HeadWire(statusLine: seq<Byte>, spellings: seq<Spelling>): seq<Byte> {
    Join([statusLine] + FieldLines(spellings)) + BLANK
  }

  predicate ValidHead(statusLine: seq<Byte>, spellings: seq<Spelling>) {
    && IsStatusLine(statusLine)
    && (forall i | 0 <= i < |spellings| :: ValidSpelling(spellings[i]))
    && |HeadWire(statusLine, spellings)| <= HEADER_LIMIT
  }

  lemma FieldLineIsPlain(s: Spelling)
    requires ValidSpelling(s)
    ensures PlainLine(FieldLine(s))
  {
    var line, tail := FieldLine(s), s.before + s.value + s.after;
    forall i | 0 <= i < |tail|
      ensures tail[i] != CR
    {
      if i < |s.before| {
        assert IsBlank(s.before[i]);
      } else if i < |s.before| + |s.value| {
        assert !IsControl(s.value[i - |s.before|]);
      } else {
        assert IsBlank(s.after[i - |s.before| - |s.value|]);
      }
    }
    forall i | 0 <= i < |line|
      ensures line[i] != CR
    {
      if i < |s.name| {
        assert IsTokenByte(s.name[i]);
      } else if i > |s.name| {
        assert line[i] == tail[i - |s.name| - 1];
      }
    }
  }

  lemma {:induction false} FieldsOfCons(fields: seq<Field>, spellings: seq<Spelling>)
    requires spellings != []
    ensures fields + [FieldOf(spellings[0])] + FieldsOf(spellings[1..]) == fields + FieldsOf(spellings)
  {
  }

  lemma {:induction false} FieldLinesCons(lines: seq<seq<Byte>>, i: nat, s: Spelling, rest: seq<Spelling>)
    requires i < |lines| && lines[i] == FieldLine(s) && lines[i + 1..] == FieldLines(rest)
    ensures lines[i..] == FieldLines([s] + rest)
  {
    assert ([s] + rest)[1..] == rest;
    assert lines[i..] == [lines[i]] + lines[i + 1..];
  }

  lemma {:induction false} ReadFields(lines: seq<seq<Byte>>, i: nat, fields: seq<Field>, spellings: seq<Spelling>)
    requires i <= |lines| && lines[i..] == FieldLines(spellings)
    requires forall j | 0 <= j < |spellings| :: ValidSpelling(spellings[j])
    ensures ParseFieldsFrom(lines, i, fields).Some?
    ensures ParseFieldsFrom(lines, i, fields).value == fields + FieldsOf(spellings)
    decreases |spellings|
  {
    if spellings == [] {
      assert fields + FieldsOf(spellings) == fields;
    } else {
      var s, others := spellings[0], spellings[1..];
      assert lines[i] == lines[i..][0] == FieldLine(s);
      FieldRoundTrip(s);
      assert lines[i + 1..] == lines[i..][1..] == FieldLines(others);
      ReadFields(lines, i + 1, fields + [FieldOf(s)], others);
      FieldsOfCons(fields, spellings);
    }
  }

  /** A head within the limit is read back exactly, whatever bytes follow it. */
  lemma {:induction false} HeadRoundTrip(statusLine: seq<Byte>, spellings: seq<Spelling>, rest: seq<Byte>)
    requires ValidHead(statusLine, spellings)
    ensures var v := ParseHead(HeadWire(statusLine, spellings) + rest);
            && v.Complete?
            && v.value.status == StatusOf(statusLine)
            && v.value.fields == FieldsOf(spellings)
            && v.value.bodyStart == |HeadWire(statusLine, spellings)|
  {
    var lines := [statusLine] + FieldLines(spellings);
    var text := Join(lines);
    var raw := HeadWire(statusLine, spellings) + rest;
    forall i | 0 <= i < |lines|
      ensures PlainLine(lines[i])
    {
      if i > 0 {
        FieldLineIsPlain(spellings[i - 1]);
      }
    }
    Associate(text, BLANK, rest);
    assert raw[0..] == raw;
    BlankAfter(raw, 0, lines, BLANK + rest);
    assert raw[..|text|] == text;
    SplitJoin(lines);
    assert lines[1..] == FieldLines(spellings);
    ReadFields(lines, 1, [], spellings);
    assert [] + FieldsOf(spellings) == FieldsOf(spellings);
  }

  // ---------------------------------------------------------------- only heads are accepted

  lemma {:induction false} StripSpelling(s: seq<Byte>) returns (before: seq<Byte>, after: seq<Byte>)
    ensures AllBlank(before) && AllBlank(after) && s == before + Strip(s) + after
    decreases |s|
  {
    before, after := [], [];
    if s != [] && IsBlank(s[0]) {
      var first, rest := s[0], s[1..];
      before, after := StripSpelling(rest);
      assert s == [first] + rest;
      Surround([first], before, Strip(rest), after, []);
      before := [first] + before;
    } else if s != [] && IsBlank(s[|s| - 1]) {
      var last, rest := s[|s| - 1], s[..|s| - 1];
      before, after := StripSpelling(rest);
      assert s == rest + [last];
      Surround([], before, Strip(rest), after, [last]);
      after := after + [last];
    }
  }

  lemma Surround(a: seq<Byte>, before: seq<Byte>, middle: seq<Byte>, after: seq<Byte>, b: seq<Byte>)
    ensures a + (before + middle + after) + b == (a + before) + middle + (after + b)
    ensures a == [] ==> a + before == before && a + (before + middle + after) + b == (before + middle + after) + b
    ensures b == [] ==> after + b == after && a + (before + middle + after) + b == a + (before + middle + after)
  {
  }

  lemma FieldSpelling(line: seq<Byte>) returns (s: Spelling)
    requires ParseField(line).Some?
    ensures ValidSpelling(s) && FieldLine(s) == line && FieldOf(s) == ParseField(line).value
  {
    var i := Find(line, COLON, 0).value;
    var tail := line[i + 1..];
    var before, after := StripSpelling(tail);
    s := Spelling(line[..i], before, Strip(tail), after);
    assert line[i..i + 1] == COLON;
    assert line == line[..i] + line[i..i + 1] + line[i + 1..];
  }

  lemma {:induction false} FieldSpellings(lines: seq<seq<Byte>>, i: nat, fields: seq<Field>) returns (spellings: seq<Spelling>)
    requires i <= |lines| && ParseFieldsFrom(lines, i, fields).Some?
    ensures forall j | 0 <= j < |spellings| :: ValidSpelling(spellings[j])
    ensures FieldLines(spellings) == lines[i..]
    ensures ParseFieldsFrom(lines, i, fields).value == fields + FieldsOf(spellings)
    decreases |lines| - i
  {
    spellings := [];
    if i < |lines| {
      var s := FieldSpelling(lines[i]);
      var rest := FieldSpellings(lines, i + 1, fields + [FieldOf(s)]);
      FieldLinesCons(lines, i, s, rest);
      spellings := [s] + rest;
      FieldsOfCons(fields, spellings);
      assert spellings[1..] == rest;
    }
  }

  lemma {:induction false} JoinSplit(text: seq<Byte>)
    ensures Join(SplitLines(text)) == text
    decreases |text|
  {
    match Find(text, CRLF, 0) {
      case None =>
      case Some(i) =>
        JoinSplit(text[i + 2..]);
        var others := SplitLines(text[i + 2..]);
        assert SplitLines(text)[1..] == others;
        assert text == text[..i] + text[i..i + 2] + text[i + 2..];
    }
  }

  /** The reader accepts nothing but heads: what it read is one, and it consumed exactly that. */
  lemma AcceptsOnlyHeads(raw: seq<Byte>) returns (statusLine: seq<Byte>, spellings: seq<Spelling>)
    requires ParseHead(raw).Complete?
    ensures ValidHead(statusLine, spellings)
    ensures var head := ParseHead(raw).value;
            && head.bodyStart <= |raw|
            && raw[..head.bodyStart] == HeadWire(statusLine, spellings)
            && head.status == StatusOf(statusLine)
            && head.fields == FieldsOf(spellings)
  {
    var boundary := Find(raw, BLANK, 0).value;
    var text := raw[..boundary];
    var lines := SplitLines(text);
    JoinSplit(text);
    statusLine := lines[0];
    spellings := FieldSpellings(lines, 1, []);
    assert lines == [statusLine] + FieldLines(spellings);
    assert raw[..boundary + 4] == text + raw[boundary..boundary + 4];
    assert [] + FieldsOf(spellings) == FieldsOf(spellings);
  }
}
