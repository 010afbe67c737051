/** Byte strings, and the few operations on them that the response reader uses. */
module Bytes {
  import opened Wrappers

  newtype Byte = x: int | 0 <= x < 256

  const CR: Byte := 13
  const LF: Byte := 10
  const TAB: Byte := 9
  const SPACE: Byte := 32
  const CRLF: seq<Byte> := [13, 10]
  const BLANK: seq<Byte> := [13, 10, 13, 10]

  /** `pat` occurs in `s` at offset `i`. */
  predicate At(s: seq<Byte>, pat: seq<Byte>, i: nat) {
    i + |pat| <= |s| && s[i..i + |pat|] == pat
  }

  /** The first occurrence of `pat` at or after `from`, as `bytes.find` reports it. */
  function Find(s: seq<Byte>, pat: seq<Byte>, from: nat): (r: Option<nat>)
    requires from <= |s|
    ensures r.Some? ==> from <= r.value && r.value + |pat| <= |s| && At(s, pat, r.value)
    decreases |s| - from
  {
    if from + |pat| > |s| then None
    else if s[from..from + |pat|] == pat then Some(from)
    else if from == |s| then None
    else Find(s, pat, from + 1)
  }

  /** `Find` misses nothing: no occurrence precedes the one it reports. */
  lemma {:induction false} FindFirst(s: seq<Byte>, pat: seq<Byte>, from: nat, k: nat)
    requires from <= k && from <= |s| && pat != [] && At(s, pat, k)
    ensures Find(s, pat, from).Some? && Find(s, pat, from).value <= k
    decreases |s| - from
  {
    if from < k {
      FindFirst(s, pat, from + 1, k);
    }
  }

  lemma AtExtend(s: seq<Byte>, t: seq<Byte>, pat: seq<Byte>, i: nat)
    requires i + |pat| <= |s|
    ensures At(s + t, pat, i) <==> At(s, pat, i)
  {
    assert (s + t)[i..i + |pat|] == s[i..i + |pat|];
  }

  /** A first occurrence is pinned down by the bytes before it, so a longer string finds the same one. */
  lemma {:induction false} FindExtend(s: seq<Byte>, t: seq<Byte>, pat: seq<Byte>, from: nat)
    requires from <= |s| && pat != []
    ensures Find(s, pat, from).Some? ==> Find(s + t, pat, from) == Find(s, pat, from)
    ensures Find(s, pat, from).None? && Find(s + t, pat, from).Some? ==>
              |s| < Find(s + t, pat, from).value + |pat|
    decreases |s| - from
  {
    if from + |pat| <= |s| {
      AtExtend(s, t, pat, from);
      FindExtend(s, t, pat, from + 1);
    }
  }

  /** A stretch without occurrences can be skipped. */
  lemma {:induction false} FindSkip(s: seq<Byte>, pat: seq<Byte>, from: nat, to: nat)
    requires from <= to <= |s| && pat != []
    requires forall k | from <= k < to :: !At(s, pat, k)
    ensures Find(s, pat, from) == Find(s, pat, to)
    decreases |s| - from
  {
    if from < to {
      assert !At(s, pat, from);
      FindSkip(s, pat, from + 1, to);
    }
  }

  /** An occurrence of a pattern shows each of its bytes. */
  lemma AtShows(s: seq<Byte>, pat: seq<Byte>, k: nat, j: nat)
    requires j < |pat| && k + j < |s|
    ensures At(s, pat, k) ==> s[k + j] == pat[j]
  {
    if At(s, pat, k) {
      assert s[k..k + |pat|][j] == s[k + j];
    }
  }

  predicate IsDigit(b: Byte) {
    48 <= b <= 57
  }

  predicate IsHexDigit(b: Byte) {
    IsDigit(b) || 65 <= b <= 70 || 97 <= b <= 102
  }

  /** One or more hexadecimal digits. */
  predicate IsHex(s: seq<Byte>) {
    s != [] && forall i | 0 <= i < |s| :: IsHexDigit(s[i])
  }

  /** One or more decimal digits. */
  predicate IsDecimal(s: seq<Byte>) {
    s != [] && forall i | 0 <= i < |s| :: IsDigit(s[i])
  }

  function HexDigit(b: Byte): nat
    requires IsHexDigit(b)
  {
    if b <= 57 then b as int - 48 else if b <= 70 then b as int - 55 else b as int - 87
  }

  /** The number that the first `n` hexadecimal digits of `s` denote. */
  function HexPrefix(s: seq<Byte>, n: nat): nat
    requires n <= |s| && forall i | 0 <= i < |s| :: IsHexDigit(s[i])
  {
    if n == 0 then 0 else 16 * HexPrefix(s, n - 1) + HexDigit(s[n - 1])
  }

  /** `int(s, 16)`. */
  function HexValue(s: seq<Byte>): nat
    requires IsHex(s)
  {
    HexPrefix(s, |s|)
  }

  /** The number that the first `n` decimal digits of `s` denote. */
  function DecimalPrefix(s: seq<Byte>, n: nat): nat
    requires n <= |s| && forall i | 0 <= i < |s| :: IsDigit(s[i])
  {
    if n == 0 then 0
    else
      assert IsDigit(s[n - 1]);
      10 * DecimalPrefix(s, n - 1) + (s[n - 1] as int - 48)
  }

  /** `int(s)`. */
  function DecimalValue(s: seq<Byte>): nat
    requires IsDecimal(s)
  {
    DecimalPrefix(s, |s|)
  }

  function LowerByte(b: Byte): Byte {
    if 65 <= b <= 90 then b + 32 else b
  }

  /** `bytes.lower`. */
  function Lower(s: seq<Byte>): (r: seq<Byte>)
    ensures |r| == |s|
  {
    seq(|s|, i requires 0 <= i < |s| => LowerByte(s[i]))
  }

  /** A control byte, other than a tab, that the reader refuses in a head. */
  predicate IsControl(b: Byte) {
    (b < 32 && b != TAB) || b == 127
  }

  predicate IsBlank(b: Byte) {
    b == SPACE || b == TAB
  }

  /** `bytes.strip(b" \t")`. */
  function Strip(s: seq<Byte>): (r: seq<Byte>)
    ensures |r| <= |s|
    ensures s == [] || (!IsBlank(s[0]) && !IsBlank(s[|s| - 1])) ==> r == s
    ensures r != [] ==> !IsBlank(r[0]) && !IsBlank(r[|r| - 1])
  {
    if s == [] then []
    else if IsBlank(s[0]) then Strip(s[1..])
    else if IsBlank(s[|s| - 1]) then Strip(s[..|s| - 1])
    else s
  }

  /** A byte literal, written as text. */
  function Ascii(text: string): (r: seq<Byte>)
    requires forall i | 0 <= i < |text| :: text[i] < 128 as char
    ensures |r| == |text|
  {
    seq(|text|, i requires 0 <= i < |text| => text[i] as int as Byte)
  }
}
