/**
 * String helpers with JavaScript's meaning: the whitespace class `\s` (which is
 * also what `String.prototype.trim` strips), `trim`, decimal digits, and the
 * radix-10 `parseInt` used for `data-reveal-delay`.
 */
module Text {
  import opened Wrappers

  /** JavaScript's WhiteSpace and LineTerminator code points. */
  predicate IsWhitespace(c: char) {
    || c == '\t' || c == '\n' || c == '\U{000B}' || c == '\U{000C}' || c == '\r'
    || c == ' ' || c == '\U{00A0}' || c == '\U{1680}'
    || ('\U{2000}' <= c <= '\U{200A}')
    || c == '\U{2028}' || c == '\U{2029}' || c == '\U{202F}' || c == '\U{205F}'
    || c == '\U{3000}' || c == '\U{FEFF}'
  }

  predicate NoWhitespace(s: string) {
    forall i :: 0 <= i < |s| ==> !IsWhitespace(s[i])
  }

  predicate AllWhitespace(s: string) {
    forall i :: 0 <= i < |s| ==> IsWhitespace(s[i])
  }

  /** Neither the first nor the last character is whitespace. */
  predicate Trimmed(s: string) {
    s == [] || (!IsWhitespace(s[0]) && !IsWhitespace(s[|s| - 1]))
  }

  /** Drops leading whitespace: the result is a suffix, and everything dropped is whitespace. */
  function TrimStart(s: string): (r: string)
    ensures |r| <= |s| && r == s[|s| - |r|..]
    ensures r == [] || !IsWhitespace(r[0])
    ensures forall i :: 0 <= i < |s| - |r| ==> IsWhitespace(s[i])
    ensures r == [] <==> AllWhitespace(s)
  {
    if s != [] && IsWhitespace(s[0]) then TrimStart(s[1..]) else s
  }

  /** Drops trailing whitespace: the result is a prefix, and everything dropped is whitespace. */
  function TrimEnd(s: string): (r: string)
    ensures |r| <= |s| && r == s[..|r|]
    ensures r == [] || !IsWhitespace(r[|r| - 1])
    ensures forall i :: |r| <= i < |s| ==> IsWhitespace(s[i])
    ensures r == [] <==> AllWhitespace(s)
  {
    if s != [] && IsWhitespace(s[|s| - 1]) then TrimEnd(s[..|s| - 1]) else s
  }

  /** `r` occurs in `s` at offset `a`, and everything around it is whitespace. */
  predicate PaddedAt(s: string, a: int, r: string) {
    0 <= a <= |s| - |r| && r == s[a..a + |r|] &&
    forall i :: 0 <= i < |s| && (i < a || a + |r| <= i) ==> IsWhitespace(s[i])
  }

  /** `String.prototype.trim`: the input with the whitespace at both ends removed. */
  function Trim(s: string): (r: string)
    ensures |r| <= |s| && Trimmed(r)
    ensures exists a :: PaddedAt(s, a, r)
    ensures r == [] <==> AllWhitespace(s)
    ensures Trimmed(s) ==> r == s
  {
    var t := TrimStart(s);
    assert AllWhitespace(t) ==> t == [];
    var r := TrimEnd(t);
    assert r != [] ==> r[0] == t[0];
    PaddedBetween(s, t, r);
    r
  }

  /** Whitespace cut from the front and then from the back leaves the rest padded in place. */
  lemma PaddedBetween(s: string, t: string, r: string)
    requires |t| <= |s| && t == s[|s| - |t|..]
    requires forall i :: 0 <= i < |s| - |t| ==> IsWhitespace(s[i])
    requires |r| <= |t| && r == t[..|r|]
    requires forall i :: |r| <= i < |t| ==> IsWhitespace(t[i])
    ensures PaddedAt(s, |s| - |t|, r)
  {
    var a := |s| - |t|;
    assert forall i :: a <= i < |s| ==> s[i] == t[i - a];
  }

  lemma TrimIdempotent(s: string)
    ensures Trim(Trim(s)) == Trim(s)
  {
  }

  predicate IsDigit(c: char) {
    '0' <= c <= '9'
  }

  predicate AllDigits(s: string) {
    forall i :: 0 <= i < |s| ==> IsDigit(s[i])
  }

  function DigitValue(c: char): (d: nat)
    requires IsDigit(c)
    ensures d < 10
  {
    c as int - '0' as int
  }

  function DigitChar(d: nat): (c: char)
    requires d < 10
    ensures IsDigit(c) && DigitValue(c) == d
  {
    ('0' as int + d) as char
  }

  /** The number a string of decimal digits denotes (most significant digit first). */
  function DecimalValue(s: string): nat
    requires AllDigits(s)
  {
    if s == [] then 0 else 10 * DecimalValue(s[..|s| - 1]) + DigitValue(s[|s| - 1])
  }

  /** The shortest decimal numeral of `n`, as `String(n)` writes it. */
  function NatToString(n: nat): (r: string)
    ensures |r| > 0 && AllDigits(r)
    ensures r[0] == '0' ==> n == 0
  {
    if n < 10 then [DigitChar(n)] else NatToString(n / 10) + [DigitChar(n % 10)]
  }

  /** `String(i)` for an integer. */
  function IntToString(i: int): string {
    if i < 0 then "-" + NatToString(-i) else NatToString(i)
  }

  lemma {:induction false} DecimalRoundTrip(n: nat)
    ensures DecimalValue(NatToString(n)) == n
  {
    if n >= 10 {
      var s := NatToString(n);
      assert s[..|s| - 1] == NatToString(n / 10);
      DecimalRoundTrip(n / 10);
    }
  }

  /** The longest prefix of `s` made of decimal digits. */
  function DigitPrefix(s: string): (r: string)
    ensures AllDigits(r) && |r| <= |s| && r == s[..|r|]
    ensures |r| < |s| ==> !IsDigit(s[|r|])
  {
    if s != [] && IsDigit(s[0]) then [s[0]] + DigitPrefix(s[1..]) else []
  }

  /**
   * `parseInt(s, 10)`: `None` stands for `NaN`. Leading whitespace is skipped,
   * an optional sign is read, then the longest run of digits; whatever follows
   * it is ignored.
   */
  function ParseInt(s: string): (r: Option<int>)
    ensures AllWhitespace(s) ==> r.None?
  {
    if s != [] && IsWhitespace(s[0]) then ParseInt(s[1..]) else ParseSigned(s)
  }

  /** `parseInt` once the leading whitespace is gone: an optional sign, then at least one digit. */
  function ParseSigned(t: string): (r: Option<int>)
    ensures r.None? <==> DigitPrefix(SignlessPart(t)) == []
  {
    var d := DigitPrefix(SignlessPart(t));
    if d == [] then None
    else if |t| > 0 && t[0] == '-' then Some(0 - DecimalValue(d) as int)
    else Some(DecimalValue(d))
  }

  /** Skipping whitespace one character at a time is the same as trimming it first. */
  lemma {:induction false} ParseIntTrimsStart(s: string)
    ensures ParseInt(s) == ParseSigned(TrimStart(s))
  {
    if s != [] && IsWhitespace(s[0]) {
      ParseIntTrimsStart(s[1..]);
    }
  }

  /** What follows an optional leading sign. */
  function SignlessPart(t: string): string {
    if |t| > 0 && (t[0] == '-' || t[0] == '+') then t[1..] else t
  }

  /** `parseInt` reads back every numeral `String(n)` writes, and any suffix after it is ignored. */
  lemma ParseIntOfNumeral(n: nat, rest: string)
    requires rest == [] || !IsDigit(rest[0])
    ensures ParseInt(NatToString(n) + rest) == Some(n)
  {
    var s := NatToString(n) + rest;
    assert s[0] == NatToString(n)[0];
    assert SignlessPart(s) == s;
    DigitPrefixOfNumeral(NatToString(n), rest);
    DecimalRoundTrip(n);
  }

  /** The default `'0'` the scripts fall back on parses to zero. */
  lemma ParseZero()
    ensures ParseInt("0") == Some(0)
  {
    ParseIntOfNumeral(0, "");
    assert NatToString(0) + "" == "0";
  }

  lemma {:induction false} DigitPrefixOfNumeral(d: string, rest: string)
    requires AllDigits(d)
    requires rest == [] || !IsDigit(rest[0])
    ensures DigitPrefix(d + rest) == d
  {
    if d != [] {
      assert (d + rest)[1..] == d[1..] + rest;
      DigitPrefixOfNumeral(d[1..], rest);
    } else {
      assert d + rest == rest;
    }
  }
}
