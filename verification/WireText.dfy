/**
  The messages the reader accepts, written down in text literals and numerals alone. Nothing
  here is defined through the reader: what a length, a status, a name or a line end is, is
  said again, and the language is proved to be the reader's.
 */
module WireText {
  import opened Bytes
  import opened Chunked
  import opened HttpHead
  import opened Response

  // ---------------------------------------------------------------- letters

  function Char(b: Byte): char {
    b as int as char
  }

  predicate OneOf(b: Byte, text: string) {
    Char(b) in text
  }

  /** The byte is the character, or the capital of that small letter. */
  predicate AnyCase(b: Byte, c: char) {
    Char(b) == c || ('a' <= c <= 'z' && b as int == c as int - 32)
  }

  /** The bytes spell the text, which is in small letters, case aside. */
  predicate Spells(s: seq<Byte>, text: string) {
    |s| == |text| && forall i | 0 <= i < |s| :: AnyCase(s[i], text[i])
  }

  /** The bytes are exactly the text. */
  predicate Reads(s: seq<Byte>, text: string) {
    |s| == |text| && forall i | 0 <= i < |s| :: Char(s[i]) == text[i]
  }

  /** Text in small letters. */
  predicate Small(text: string) {
    forall i | 0 <= i < |text| :: text[i] < 128 as char && !('A' <= text[i] <= 'Z')
  }

  lemma LowerSpells(s: seq<Byte>, text: string)
    requires Small(text)
    ensures Lower(s) == Ascii(text) <==> Spells(s, text)
  {
    if Lower(s) == Ascii(text) {
      forall i | 0 <= i < |s|
        ensures AnyCase(s[i], text[i])
      {
        assert Lower(s)[i] == Ascii(text)[i];
      }
    }
  }

  /** `b` is `a` with a capital made small. */
  predicate LowerOf(a: Byte, b: Byte) {
    b as int == if OneOf(a, "ABCDEFGHIJKLMNOPQRSTUVWXYZ") then a as int + 32 else a as int
  }

  lemma LowerByteIs(a: Byte)
    ensures LowerOf(a, LowerByte(a))
  {
  }

  // ---------------------------------------------------------------- numerals

  const DIGITS: string := "0123456789abcdef"

  /** The bytes are digits of `n` to the base, the last worth `n % base`, any number of zeros in front. */
  predicate Numeral(s: seq<Byte>, n: nat, base: nat)
    requires base == 10 || base == 16
  {
    && s != []
    && AnyCase(s[|s| - 1], DIGITS[n % base])
    && if |s| == 1 then n < base else Numeral(s[..|s| - 1], n / base, base)
  }

  lemma DigitIs(b: Byte, d: nat)
    requires d < 16
    ensures IsHexDigit(b) && HexDigit(b) == d <==> AnyCase(b, DIGITS[d])
    ensures d < 10 ==> (IsDigit(b) && b as int == 48 + d <==> AnyCase(b, DIGITS[d]))
  {
    assert DIGITS[d] as int == if d < 10 then 48 + d else 87 + d;
  }

  lemma Quotient(n: nat, q: nat, d: nat, base: nat)
    requires base == 10 || base == 16
    requires d < base
    ensures n == base * q + d <==> n / base == q && n % base == d
  {
  }

  lemma {:induction false} DecimalShorter(s: seq<Byte>, t: seq<Byte>, n: nat)
    requires n <= |s| && forall i | 0 <= i < |s + t| :: IsDigit((s + t)[i])
    ensures forall i | 0 <= i < |s| :: IsDigit(s[i])
    ensures DecimalPrefix(s + t, n) == DecimalPrefix(s, n)
  {
    assert forall i | 0 <= i < |s| :: s[i] == (s + t)[i];
    if n > 0 {
      DecimalShorter(s, t, n - 1);
    }
  }

  lemma {:induction false} HexShorter(s: seq<Byte>, t: seq<Byte>, n: nat)
    requires n <= |s| && forall i | 0 <= i < |s + t| :: IsHexDigit((s + t)[i])
    ensures forall i | 0 <= i < |s| :: IsHexDigit(s[i])
    ensures HexPrefix(s + t, n) == HexPrefix(s, n)
  {
    assert forall i | 0 <= i < |s| :: s[i] == (s + t)[i];
    if n > 0 {
      HexShorter(s, t, n - 1);
    }
  }

  /** The last digit of a longer numeral, and what the others are worth. */
  lemma DecimalLast(s: seq<Byte>)
    requires |s| > 1
    ensures IsDecimal(s) <==> IsDecimal(s[..|s| - 1]) && IsDigit(s[|s| - 1])
    ensures IsDecimal(s) ==> DecimalValue(s) == 10 * DecimalValue(s[..|s| - 1]) + (s[|s| - 1] as int - 48)
  {
    var rest, last := s[..|s| - 1], s[|s| - 1];
    assert s == rest + [last];
    if IsDecimal(s) {
      DecimalShorter(rest, [last], |rest|);
    }
  }

  lemma HexLast(s: seq<Byte>)
    requires |s| > 1
    ensures IsHex(s) <==> IsHex(s[..|s| - 1]) && IsHexDigit(s[|s| - 1])
    ensures IsHex(s) ==> HexValue(s) == 16 * HexValue(s[..|s| - 1]) + HexDigit(s[|s| - 1])
  {
    var rest, last := s[..|s| - 1], s[|s| - 1];
    assert s == rest + [last];
    if IsHex(s) {
      HexShorter(rest, [last], |rest|);
    }
  }

  /** What `int(s)` takes a text for, exactly. */
  lemma {:induction false} DecimalExactly(s: seq<Byte>, n: nat)
    ensures IsDecimal(s) && DecimalValue(s) == n <==> Numeral(s, n, 10)
    decreases |s|
  {
    if s != [] {
      var last := s[|s| - 1];
      DigitIs(last, n % 10);
      if |s| == 1 {
        DecimalOne(s);
      } else {
        DecimalLast(s);
        DecimalExactly(s[..|s| - 1], n / 10);
        if IsDecimal(s) {
          Quotient(n, DecimalValue(s[..|s| - 1]), last as int - 48, 10);
        }
      }
    }
  }

  lemma DecimalOne(s: seq<Byte>)
    requires |s| == 1
    ensures IsDecimal(s) <==> IsDigit(s[0])
    ensures IsDecimal(s) ==> DecimalValue(s) == s[0] as int - 48
  {
    if IsDecimal(s) {
      assert DecimalPrefix(s, 0) == 0;
    }
  }

  lemma HexOne(s: seq<Byte>)
    requires |s| == 1
    ensures IsHex(s) <==> IsHexDigit(s[0])
    ensures IsHex(s) ==> HexValue(s) == HexDigit(s[0])
  {
    if IsHex(s) {
      assert HexPrefix(s, 0) == 0;
    }
  }

  /** What `int(s, 16)` takes a text for, exactly, in either case. */
  lemma {:induction false} HexExactly(s: seq<Byte>, n: nat)
    ensures IsHex(s) && HexValue(s) == n <==> Numeral(s, n, 16)
    decreases |s|
  {
    if s != [] {
      var last := s[|s| - 1];
      DigitIs(last, n % 16);
      if |s| == 1 {
        HexOne(s);
      } else {
        HexLast(s);
        HexExactly(s[..|s| - 1], n / 16);
        if IsHex(s) {
          Quotient(n, HexValue(s[..|s| - 1]), HexDigit(last), 16);
        }
      }
    }
  }

  /** The shortest decimal digits of a number. */
  function Digits(n: nat): seq<Byte> {
    if n < 10 then [(48 + n) as Byte] else Digits(n / 10) + [(48 + n % 10) as Byte]
  }

  function Zeros(k: nat): seq<Byte> {
    seq(k, i => 48)
  }

  /** A number in digits, zeros in front or not, is read as that number. */
  lemma {:induction false} DigitsAreRead(k: nat, n: nat)
    ensures IsDecimal(Zeros(k) + Digits(n)) && DecimalValue(Zeros(k) + Digits(n)) == n
    decreases n, k
  {
    var s := Zeros(k) + Digits(n);
    if n >= 10 {
      DigitsAreRead(k, n / 10);
      assert s[..|s| - 1] == Zeros(k) + Digits(n / 10);
      DecimalLast(s);
    } else if k > 0 {
      DigitsAreRead(k - 1, 0);
      assert s[..|s| - 1] == Zeros(k) == Zeros(k - 1) + Digits(0);
      DecimalLast(s);
    } else {
      DecimalOne(s);
    }
  }

  // ---------------------------------------------------------------- heads

  const END: seq<Byte> := ['\r' as int as Byte, '\n' as int as Byte]

  /** A byte that may stand in a status line or a field value. */
  predicate Printable(s: seq<Byte>) {
    forall i | 0 <= i < |s| :: Char(s[i]) == '\t' || (s[i] as int >= 32 && s[i] as int != 127)
  }

  predicate Blank(b: Byte) {
    OneOf(b, " \t")
  }

  /** A byte of a field name. */
  predicate NameByte(b: Byte) {
    || OneOf(b, "!#$%&'*+-.^_`|~") || OneOf(b, "0123456789")
    || OneOf(b, "abcdefghijklmnopqrstuvwxyz") || OneOf(b, "ABCDEFGHIJKLMNOPQRSTUVWXYZ")
  }

  /** The line opens a response of that status. */
  predicate Opens(line: seq<Byte>, status: nat) {
    && |line| >= 12
    && Reads(line[..7], "HTTP/1.") && OneOf(line[7], "01") && Char(line[8]) == ' '
    && 100 <= status <= 599 && Numeral(line[9..12], status, 10)
    && (|line| > 12 ==> Blank(line[12]))
    && Printable(line)
  }

  predicate FieldSpelled(s: Spelling) {
    && s.name != [] && (forall i | 0 <= i < |s.name| :: NameByte(s.name[i]))
    && (forall i | 0 <= i < |s.before| :: Blank(s.before[i]))
    && (forall i | 0 <= i < |s.after| :: Blank(s.after[i]))
    && Printable(s.value)
    && (s.value != [] ==> !Blank(s.value[0]) && !Blank(s.value[|s.value| - 1]))
  }

  function FieldsText(spellings: seq<Spelling>): seq<Byte> {
    if spellings == [] then []
    else
      var s := spellings[0];
      s.name + [':' as int as Byte] + s.before + s.value + s.after + END + FieldsText(spellings[1..])
  }

  /** The status line, the field lines and an empty line. */
  function HeadText(statusLine: seq<Byte>, spellings: seq<Spelling>): seq<Byte> {
    statusLine + END + FieldsText(spellings) + END
  }

  predicate HeadSpelled(statusLine: seq<Byte>, status: nat, spellings: seq<Spelling>) {
    && Opens(statusLine, status)
    && (forall i | 0 <= i < |spellings| :: FieldSpelled(spellings[i]))
    && |HeadText(statusLine, spellings)| <= 32768
  }

  // ---------------------------------------------------------------- the same heads

  lemma NameByteIs(b: Byte)
    ensures IsTokenByte(b) <==> NameByte(b)
  {
  }

  lemma {:induction false} StatusIs(s: seq<Byte>, status: nat)
    requires |s| == 3
    ensures Numeral(s, status, 10) && 100 <= status <= 599
            <==> 49 <= s[0] <= 53 && IsDigit(s[1]) && IsDigit(s[2])
                 && status == (s[0] as int - 48) * 100 + (s[1] as int - 48) * 10 + (s[2] as int - 48)
  {
    DecimalExactly(s, status);
    var two := s[..2];
    DecimalLast(s);
    DecimalLast(two);
    assert two[..1] == s[..1];
    DecimalOne(s[..1]);
  }

  lemma OpensIs(line: seq<Byte>, status: nat)
    ensures IsStatusLine(line) && StatusOf(line) == status <==> Opens(line, status)
  {
    if |line| >= 12 {
      StatusIs(line[9..12], status);
      VersionIs(line[..7]);
    }
  }

  lemma VersionIs(start: seq<Byte>)
    requires |start| == 7
    ensures start == VERSION <==> Reads(start, "HTTP/1.")
  {
  }

  lemma FieldIs(s: Spelling)
    ensures ValidSpelling(s) <==> FieldSpelled(s)
  {
    forall b
      ensures IsTokenByte(b) <==> NameByte(b)
    {
      NameByteIs(b);
    }
  }

  lemma {:induction false} JoinIs(line: seq<Byte>, spellings: seq<Spelling>)
    ensures Join([line] + FieldLines(spellings)) + BLANK == HeadText(line, spellings)
    decreases |spellings|
  {
    var lines := [line] + FieldLines(spellings);
    if spellings == [] {
      assert lines == [line];
    } else {
      var s, rest := spellings[0], spellings[1..];
      assert lines[1..] == [FieldLine(s)] + FieldLines(rest);
      JoinIs(FieldLine(s), rest);
      var tail := FieldsText(rest) + END;
      assert Join(lines) + BLANK == line + CRLF + (Join(lines[1..]) + BLANK);
      assert HeadText(FieldLine(s), rest) == FieldLine(s) + END + tail;
      assert FieldsText(spellings) + END == FieldLine(s) + END + tail;
    }
  }

  lemma HeadIs(statusLine: seq<Byte>, status: nat, spellings: seq<Spelling>)
    ensures HeadWire(statusLine, spellings) == HeadText(statusLine, spellings)
    ensures ValidHead(statusLine, spellings) && StatusOf(statusLine) == status
            <==> HeadSpelled(statusLine, status, spellings)
  {
    JoinIs(statusLine, spellings);
    OpensIs(statusLine, status);
    forall i | 0 <= i < |spellings|
      ensures ValidSpelling(spellings[i]) <==> FieldSpelled(spellings[i])
    {
      FieldIs(spellings[i]);
    }
  }

  // ---------------------------------------------------------------- lines by name

  /** The line is a field of that name, case aside. */
  predicate Named(s: Spelling, name: string) {
    Spells(s.name, name)
  }

  predicate HasLine(spellings: seq<Spelling>, name: string) {
    exists i :: 0 <= i < |spellings| && Named(spellings[i], name)
  }

  /** Line `i` is the only one of that name. */
  predicate OnlyLine(spellings: seq<Spelling>, name: string, i: nat) {
    && i < |spellings| && Named(spellings[i], name)
    && forall j | 0 <= j < |spellings| && Named(spellings[j], name) :: j == i
  }

  lemma {:induction false} NamedValues(spellings: seq<Spelling>, name: string)
    requires Small(name)
    ensures forall v :: v in ValuesOf(FieldsOf(spellings), Ascii(name))
              <==> exists i :: 0 <= i < |spellings| && Named(spellings[i], name) && spellings[i].value == v
  {
    if spellings != [] {
      var first, rest := spellings[0], spellings[1..];
      NamedValues(rest, name);
      LowerSpells(first.name, name);
      FieldsTail(spellings);
      forall v
        ensures v in ValuesOf(FieldsOf(spellings), Ascii(name))
                <==> exists i :: 0 <= i < |spellings| && Named(spellings[i], name) && spellings[i].value == v
      {
        if i :| 0 <= i < |spellings| && Named(spellings[i], name) && spellings[i].value == v {
          assert i > 0 ==> rest[i - 1] == spellings[i];
        }
        if i :| 0 <= i < |rest| && Named(rest[i], name) && rest[i].value == v {
          assert spellings[i + 1] == rest[i];
        }
      }
    }
  }

  lemma {:induction false} FieldsTail(spellings: seq<Spelling>)
    requires spellings != []
    ensures FieldsOf(spellings)[0] == FieldOf(spellings[0]) && FieldsOf(spellings)[1..] == FieldsOf(spellings[1..])
  {
  }

  /** No value is listed under a name exactly when no line bears it. */
  lemma {:induction false} NoValues(spellings: seq<Spelling>, name: string)
    requires Small(name)
    ensures ValuesOf(FieldsOf(spellings), Ascii(name)) == [] <==> !HasLine(spellings, name)
  {
    NamedValues(spellings, name);
    var values := ValuesOf(FieldsOf(spellings), Ascii(name));
    assert values != [] ==> values[0] in values;
    if i :| 0 <= i < |spellings| && Named(spellings[i], name) {
      assert spellings[i].value in values;
    }
  }

  /** One value is listed under a name exactly when one line bears it. */
  lemma {:induction false} OneValue(spellings: seq<Spelling>, name: string)
    requires Small(name)
    ensures |ValuesOf(FieldsOf(spellings), Ascii(name))| == 1 <==> exists i: nat :: OnlyLine(spellings, name, i)
    ensures forall i: nat | OnlyLine(spellings, name, i) ::
              ValuesOf(FieldsOf(spellings), Ascii(name)) == [spellings[i].value]
  {
    if spellings != [] {
      var first, rest := spellings[0], spellings[1..];
      OneValue(rest, name);
      NoValues(rest, name);
      LowerSpells(first.name, name);
      FieldsTail(spellings);
      OnlyLineTail(spellings, name);
      forall i: nat | OnlyLine(spellings, name, i)
        ensures ValuesOf(FieldsOf(spellings), Ascii(name)) == [spellings[i].value]
      {
        assert i > 0 ==> OnlyLine(rest, name, i - 1);
      }
    }
  }

  lemma OnlyLineTail(spellings: seq<Spelling>, name: string)
    requires spellings != []
    ensures forall i: nat | i > 0 :: OnlyLine(spellings, name, i) <==> !Named(spellings[0], name) && OnlyLine(spellings[1..], name, i - 1)
    ensures OnlyLine(spellings, name, 0) <==> Named(spellings[0], name) && !HasLine(spellings[1..], name)
    ensures (exists i: nat :: OnlyLine(spellings, name, i))
            <==> if Named(spellings[0], name) then !HasLine(spellings[1..], name)
                 else exists i: nat :: OnlyLine(spellings[1..], name, i)
  {
    var rest := spellings[1..];
    assert forall j | 0 <= j < |rest| :: rest[j] == spellings[j + 1];
    assert forall j | 0 < j < |spellings| :: spellings[j] == rest[j - 1];
    forall i: nat | i > 0
      ensures OnlyLine(spellings, name, i) <==> !Named(spellings[0], name) && OnlyLine(rest, name, i - 1)
    {
      if OnlyLine(rest, name, i - 1) && !Named(spellings[0], name) {
        forall j | 0 <= j < |spellings| && Named(spellings[j], name)
          ensures j == i
        {
          assert rest[j - 1] == spellings[j];
        }
      }
    }
    if HasLine(rest, name) {
      var j :| 0 <= j < |rest| && Named(rest[j], name);
      assert Named(spellings[j + 1], name);
    }
    if OnlyLine(spellings, name, 0) {
      assert forall j | 0 <= j < |rest| :: !Named(rest[j], name);
    } else if Named(spellings[0], name) && !HasLine(rest, name) {
      assert forall j | 0 < j < |spellings| :: !Named(spellings[j], name);
    }
    if i: nat :| OnlyLine(rest, name, i) {
      assert !Named(spellings[0], name) ==> OnlyLine(spellings, name, i + 1);
    }
    if i: nat :| OnlyLine(spellings, name, i) {
      assert i == 0 || OnlyLine(rest, name, i - 1);
    }
  }

  // ---------------------------------------------------------------- messages

  /** A single `content-length` line announces that many bytes. */
  ghost predicate SizedBy(spellings: seq<Spelling>, size: nat) {
    exists i: nat :: OnlyLine(spellings, "content-length", i)
                     && Numeral(spellings[i].value, size, 10) && |spellings[i].value| <= 4300
  }

  /** A single `transfer-encoding` line says `chunked`. */
  ghost predicate ChunkedBy(spellings: seq<Spelling>) {
    exists i: nat :: OnlyLine(spellings, "transfer-encoding", i) && Spells(spellings[i].value, "chunked")
  }

  /** How the body of a message is sent, by the lines that announce it. */
  ghost predicate Announced(status: nat, spellings: seq<Spelling>, framing: Framing) {
    && !HasLine(spellings, "content-range")
    && match framing
       case Sized(body) =>
         && !HasLine(spellings, "transfer-encoding")
         && SizedBy(spellings, |body|)
       case Chunks(parts, last) =>
         && !HasLine(spellings, "content-length")
         && ChunkedBy(spellings)
         && (forall i | 0 <= i < |parts| :: parts[i].data != [] && Numeral(parts[i].token, |parts[i].data|, 16))
         && Numeral(last, 0, 16)
       case NoBody =>
         && !HasLine(spellings, "content-length") && !HasLine(spellings, "transfer-encoding")
         && (status == 204 || status == 304 || 100 <= status <= 199)
  }

  function PartsText(parts: seq<Part>): seq<Byte> {
    if parts == [] then [] else parts[0].token + END + parts[0].data + END + PartsText(parts[1..])
  }

  function BodyText(framing: Framing): seq<Byte> {
    match framing
    case Sized(body) => body
    case Chunks(parts, last) => PartsText(parts) + last + END + END
    case NoBody => []
  }

  ghost predicate MessageSpelled(m: Message, status: nat) {
    HeadSpelled(m.statusLine, status, m.spellings) && Announced(status, m.spellings, m.framing)
  }

  function MessageText(m: Message): seq<Byte> {
    HeadText(m.statusLine, m.spellings) + BodyText(m.framing)
  }

  /** The field is the line with its name in small letters and its blanks dropped. */
  predicate FieldRead(f: Field, s: Spelling) {
    f.value == s.value && |f.name| == |s.name| && forall i | 0 <= i < |f.name| :: LowerOf(s.name[i], f.name[i])
  }

  predicate FieldsRead(fields: seq<Field>, spellings: seq<Spelling>) {
    |fields| == |spellings| && forall i | 0 <= i < |fields| :: FieldRead(fields[i], spellings[i])
  }

  function DataOf(framing: Framing): seq<Byte> {
    match framing
    case Sized(body) => body
    case Chunks(parts, _) => Concat(seq(|parts|, i requires 0 <= i < |parts| => parts[i].data))
    case NoBody => []
  }

  function Concat(pieces: seq<seq<Byte>>): seq<Byte> {
    if pieces == [] then [] else Concat(pieces[..|pieces| - 1]) + pieces[|pieces| - 1]
  }

  /** The response is the message: its status, its lines, its body. */
  predicate MessageRead(w: Wire, m: Message, status: nat) {
    w.status == status && FieldsRead(w.fields, m.spellings) && w.body == DataOf(m.framing)
  }

  // ---------------------------------------------------------------- the same messages

  lemma {:induction false} ConcatCons(first: seq<Byte>, rest: seq<seq<Byte>>)
    ensures Concat([first] + rest) == first + Concat(rest)
    decreases |rest|
  {
    var all := [first] + rest;
    if rest == [] {
      assert all[..0] == [];
    } else {
      var n := |rest| - 1;
      ConcatCons(first, rest[..n]);
      assert all[..|all| - 1] == [first] + rest[..n];
    }
  }

  lemma {:induction false} DataIs(parts: seq<Part>)
    ensures Payload(parts) == DataOf(Chunks(parts, []))
  {
    if parts != [] {
      var rest := parts[1..];
      DataIs(rest);
      var pieces := seq(|parts|, i requires 0 <= i < |parts| => parts[i].data);
      var others := seq(|rest|, i requires 0 <= i < |rest| => rest[i].data);
      assert pieces == [parts[0].data] + others;
      ConcatCons(parts[0].data, others);
    }
  }

  lemma {:induction false} PartsAre(parts: seq<Part>, last: seq<Byte>)
    ensures Encode(parts, last) == PartsText(parts) + last + END + END
  {
    if parts == [] {
      assert last + BLANK == last + END + END;
    } else {
      PartsAre(parts[1..], last);
      assert Encode(parts, last) == PartWire(parts[0]) + Encode(parts[1..], last);
    }
  }

  lemma BodyIs(framing: Framing)
    ensures BodyWire(framing) == BodyText(framing) && BodyOf(framing) == DataOf(framing)
  {
    if framing.Chunks? {
      PartsAre(framing.parts, framing.last);
      DataIs(framing.parts);
    }
  }

  lemma {:induction false} CodingIs(parts: seq<Part>, last: seq<Byte>)
    ensures ValidCoding(parts, last)
            <==> (forall i | 0 <= i < |parts| :: parts[i].data != [] && Numeral(parts[i].token, |parts[i].data|, 16))
                 && Numeral(last, 0, 16)
  {
    HexExactly(last, 0);
    forall i | 0 <= i < |parts|
      ensures ValidPart(parts[i]) <==> parts[i].data != [] && Numeral(parts[i].token, |parts[i].data|, 16)
    {
      HexExactly(parts[i].token, |parts[i].data|);
    }
  }

  lemma {:induction false} SizedIs(spellings: seq<Spelling>, size: nat)
    ensures SizedBy(spellings, size)
            <==> var lengths := ValuesOf(FieldsOf(spellings), CONTENT_LENGTH);
                 && |lengths| == 1 && IsDecimal(lengths[0]) && |lengths[0]| <= MAX_INT_DIGITS
                 && DecimalValue(lengths[0]) == size
  {
    OneValue(spellings, "content-length");
    var lengths := ValuesOf(FieldsOf(spellings), CONTENT_LENGTH);
    if |lengths| == 1 {
      DecimalExactly(lengths[0], size);
    }
  }

  lemma {:induction false} ChunkedIs(spellings: seq<Spelling>)
    ensures ChunkedBy(spellings)
            <==> var encodings := ValuesOf(FieldsOf(spellings), TRANSFER_ENCODING);
                 |encodings| == 1 && Lower(encodings[0]) == CHUNKED
  {
    OneValue(spellings, "transfer-encoding");
    var encodings := ValuesOf(FieldsOf(spellings), TRANSFER_ENCODING);
    if |encodings| == 1 {
      LowerSpells(encodings[0], "chunked");
    }
  }

  lemma {:induction false} RangeLines(spellings: seq<Spelling>)
    ensures ValuesOf(FieldsOf(spellings), CONTENT_RANGE) == [] <==> !HasLine(spellings, "content-range")
  {
    NoValues(spellings, "content-range");
  }

  lemma {:induction false} LengthLines(spellings: seq<Spelling>)
    ensures ValuesOf(FieldsOf(spellings), CONTENT_LENGTH) == [] <==> !HasLine(spellings, "content-length")
  {
    NoValues(spellings, "content-length");
  }

  lemma {:induction false} EncodingLines(spellings: seq<Spelling>)
    ensures ValuesOf(FieldsOf(spellings), TRANSFER_ENCODING) == [] <==> !HasLine(spellings, "transfer-encoding")
  {
    NoValues(spellings, "transfer-encoding");
  }

  lemma {:induction false} AnnouncedIs(status: nat, spellings: seq<Spelling>, framing: Framing)
    ensures Announces(status, FieldsOf(spellings), framing) <==> Announced(status, spellings, framing)
  {
    RangeLines(spellings);
    LengthLines(spellings);
    EncodingLines(spellings);
    match framing
    case Sized(body) => SizedIs(spellings, |body|);
    case Chunks(parts, last) =>
      CodingIs(parts, last);
      ChunkedIs(spellings);
    case NoBody =>
  }

  lemma MessageIs(m: Message, status: nat)
    ensures MessageWire(m) == MessageText(m)
    ensures ValidMessage(m) && StatusOf(m.statusLine) == status <==> MessageSpelled(m, status)
  {
    HeadIs(m.statusLine, status, m.spellings);
    AnnouncedIs(status, m.spellings, m.framing);
    BodyIs(m.framing);
  }

  lemma {:induction false} FieldsAreRead(spellings: seq<Spelling>)
    ensures FieldsRead(FieldsOf(spellings), spellings)
  {
    if spellings != [] {
      FieldsAreRead(spellings[1..]);
      var name := spellings[0].name;
      forall i | 0 <= i < |name|
        ensures LowerOf(name[i], Lower(name)[i])
      {
        LowerByteIs(name[i]);
      }
    }
  }

  /** A message so spelled is complete, and is read as what it says. */
  lemma TextRoundTrip(m: Message, status: nat)
    requires MessageSpelled(m, status)
    ensures ParseResponse(MessageText(m), false).Complete?
    ensures MessageRead(ParseResponse(MessageText(m), false).value, m, status)
  {
    MessageIs(m, status);
    MessageRoundTrip(m);
    BodyIs(m.framing);
    FieldsAreRead(m.spellings);
  }

  /** Nothing but such a message is complete. */
  lemma AcceptsOnlyText(raw: seq<Byte>) returns (m: Message, status: nat)
    requires ParseResponse(raw, false).Complete?
    ensures MessageSpelled(m, status) && MessageText(m) == raw
    ensures MessageRead(ParseResponse(raw, false).value, m, status)
  {
    m := AcceptsOnlyMessages(raw);
    status := StatusOf(m.statusLine);
    MessageIs(m, status);
    BodyIs(m.framing);
    FieldsAreRead(m.spellings);
  }
}
