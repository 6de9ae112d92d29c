/** Byte strings as the binding sees them: Rust `String`s and C strings are
    sequences of bytes, a Rust `String` must be well-formed UTF-8, and a C
    string ends at its first NUL byte. Also the decimal rendering that the
    binding's `format!` error messages use for counts. */
module Text {

  newtype byte = x: int | 0 <= x < 256

  type Bytes = seq<byte>

  /** Index of the first NUL byte of `s`, or `|s|` when `s` has none. */
  function FirstNul(s: Bytes): (k: nat)
    ensures k <= |s|
    ensures forall i :: 0 <= i < k ==> s[i] != 0
    ensures k < |s| ==> s[k] == 0
  {
    if s == [] then 0
    else if s[0] == 0 then 0
    else 1 + FirstNul(s[1..])
  }

  predicate HasNul(s: Bytes) {
    0 in s
  }

  lemma {:induction false} FirstNulFindsNul(s: Bytes)
    ensures HasNul(s) <==> FirstNul(s) < |s|
  {
    if HasNul(s) {
      var i :| 0 <= i < |s| && s[i] == 0;
      assert FirstNul(s) <= i;
    }
  }

  // ---------------------------------------------------------------------
  // UTF-8 well-formedness, as section 4 of RFC 3629 defines it and as Rust's
  // `String::from_utf8` checks it.

  predicate IsContinuation(b: byte) {
    0x80 <= b <= 0xBF
  }

  /** Length of the well-formed UTF-8 sequence that starts `s`, or 0 when `s`
      does not start with one. */
  function SequenceLength(s: Bytes): (n: nat)
    ensures n <= 4 && n <= |s|
  {
    if |s| == 0 then 0
    else
      var b := s[0];
      if b <= 0x7F then 1
      else if 0xC2 <= b <= 0xDF then
        (if |s| >= 2 && IsContinuation(s[1]) then 2 else 0)
      else if b == 0xE0 then
        (if |s| >= 3 && 0xA0 <= s[1] <= 0xBF && IsContinuation(s[2]) then 3 else 0)
      else if 0xE1 <= b <= 0xEC || 0xEE <= b <= 0xEF then
        (if |s| >= 3 && IsContinuation(s[1]) && IsContinuation(s[2]) then 3 else 0)
      else if b == 0xED then
        (if |s| >= 3 && 0x80 <= s[1] <= 0x9F && IsContinuation(s[2]) then 3 else 0)
      else if b == 0xF0 then
        (if |s| >= 4 && 0x90 <= s[1] <= 0xBF && IsContinuation(s[2]) && IsContinuation(s[3]) then 4 else 0)
      else if 0xF1 <= b <= 0xF3 then
        (if |s| >= 4 && IsContinuation(s[1]) && IsContinuation(s[2]) && IsContinuation(s[3]) then 4 else 0)
      else if b == 0xF4 then
        (if |s| >= 4 && 0x80 <= s[1] <= 0x8F && IsContinuation(s[2]) && IsContinuation(s[3]) then 4 else 0)
      else 0
  }

  predicate ValidUtf8(s: Bytes)
    decreases |s|
  {
    s == [] || (SequenceLength(s) > 0 && ValidUtf8(s[SequenceLength(s)..]))
  }

  /** The first sequence of `s` is decided by its first bytes alone. */
  lemma SequenceLengthOfPrefix(s: Bytes, m: nat)
    requires SequenceLength(s) <= m <= |s|
    ensures SequenceLength(s[..m]) == SequenceLength(s)
  {
    var p := s[..m];
    assert forall i :: 0 <= i < m ==> p[i] == s[i];
  }

  /** Length of the longest prefix of `s` made of whole well-formed sequences:
      what Rust reports as `valid_up_to` when `from_utf8` rejects `s`. */
  function ValidUpTo(s: Bytes): (k: nat)
    ensures k <= |s|
    ensures ValidUtf8(s[..k])
    ensures k == |s| <==> ValidUtf8(s)
    decreases |s|
  {
    if s == [] then 0
    else
      var n := SequenceLength(s);
      if n == 0 then 0
      else
        var rest := ValidUpTo(s[n..]);
        var k := n + rest;
        SequenceLengthOfPrefix(s, k);
        assert s[..k][n..] == s[n..][..rest];
        k
  }

  /** Every byte below 0x80 is a sequence of its own: ASCII text is UTF-8. */
  lemma {:induction false} AsciiIsValidUtf8(s: Bytes)
    requires forall i :: 0 <= i < |s| ==> s[i] < 0x80
    ensures ValidUtf8(s)
  {
    if s != [] {
      assert SequenceLength(s) == 1;
      AsciiIsValidUtf8(s[1..]);
    }
  }

  // ---------------------------------------------------------------------
  // Decimal rendering of counts, as `format!("{}", n)` prints them.

  predicate IsDigit(c: char) {
    '0' <= c <= '9'
  }

  function DigitChar(d: nat): (c: char)
    requires d < 10
    ensures IsDigit(c) && c as int - '0' as int == d
  {
    "0123456789"[d]
  }

  function NatToString(n: nat): (s: string)
    ensures |s| >= 1
    ensures forall i :: 0 <= i < |s| ==> IsDigit(s[i])
  {
    if n < 10 then [DigitChar(n)]
    else NatToString(n / 10) + [DigitChar(n % 10)]
  }

  /** Reads a string of decimal digits back as a number. */
  function ParseDecimal(s: string): nat
    requires forall i :: 0 <= i < |s| ==> IsDigit(s[i])
  {
    if s == [] then 0
    else
      assert IsDigit(s[|s| - 1]);
      10 * ParseDecimal(s[..|s| - 1]) + (s[|s| - 1] as int - '0' as int)
  }

  /** The rendering is faithful: it reads back as the number rendered. */
  lemma {:induction false} NatToStringReadsBack(n: nat)
    ensures ParseDecimal(NatToString(n)) == n
  {
    if n >= 10 {
      var s := NatToString(n);
      assert s[..|s| - 1] == NatToString(n / 10);
      NatToStringReadsBack(n / 10);
    }
  }
}
