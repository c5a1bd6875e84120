/** The textual encodings that are hashed: `%d`, `%s|%s|...` and hexadecimal,
    each with the inverse that shows it loses nothing. */
module Encoding {

  predicate NoBar(s: string) {
    '|' !in s
  }

  // ----- decimal integers (%d)

  function Digit(d: int): char
    requires 0 <= d < 10
  {
    '0' + d as char
  }

  function Decimal(n: nat): (s: string)
    ensures |s| > 0
    ensures forall i | 0 <= i < |s| :: '0' <= s[i] <= '9'
  {
    if n < 10 then [Digit(n)] else Decimal(n / 10) + [Digit(n % 10)]
  }

  function Signed(n: int): (s: string)
    ensures |s| > 0 && NoBar(s)
  {
    if n < 0 then ['-'] + Decimal(-n) else Decimal(n)
  }

  function ParseDecimal(s: string): int {
    if s == [] then 0 else 10 * ParseDecimal(s[..|s| - 1]) + (s[|s| - 1] as int - '0' as int)
  }

  function ParseSigned(s: string): int {
    if s != [] && s[0] == '-' then -ParseDecimal(s[1..]) else ParseDecimal(s)
  }

  lemma {:induction false} ParseDecimalInvertsDecimal(n: nat)
    ensures ParseDecimal(Decimal(n)) == n
  {
    if n >= 10 {
      ParseDecimalInvertsDecimal(n / 10);
      assert Decimal(n)[..|Decimal(n)| - 1] == Decimal(n / 10);
    }
  }

  lemma ParseSignedInvertsSigned(n: int)
    ensures ParseSigned(Signed(n)) == n
  {
    if n < 0 {
      ParseDecimalInvertsDecimal(-n);
      assert Signed(n)[1..] == Decimal(-n);
    } else {
      ParseDecimalInvertsDecimal(n);
      assert Decimal(n)[0] != '-';
    }
  }

  // ----- fields separated by '|'

  function Field(first: string, rest: string): string {
    first + ['|'] + rest
  }

  /** Cuts a text at its first '|'. */
  function Cut(s: string): (string, string) {
    if s == [] then ([], [])
    else if s[0] == '|' then ([], s[1..])
    else
      var (a, b) := Cut(s[1..]);
      ([s[0]] + a, b)
  }

  lemma {:induction false} CutInvertsField(first: string, rest: string)
    requires NoBar(first)
    ensures Cut(Field(first, rest)) == (first, rest)
  {
    var s := Field(first, rest);
    if first == [] {
      assert s[1..] == rest;
    } else {
      assert s[0] == first[0] != '|';
      assert s[1..] == Field(first[1..], rest);
      CutInvertsField(first[1..], rest);
      assert first == [first[0]] + first[1..];
    }
  }

  /** How many separators a text holds. */
  function Bars(s: string): nat {
    if s == [] then 0 else (if s[0] == '|' then 1 else 0) + Bars(s[1..])
  }

  lemma {:induction false} NoBarIffNoBars(s: string)
    ensures NoBar(s) <==> Bars(s) == 0
  {
    if s != [] {
      NoBarIffNoBars(s[1..]);
      assert forall c :: c in s <==> c == s[0] || c in s[1..];
    }
  }

  lemma {:induction false} BarsConcat(s: string, t: string)
    ensures Bars(s + t) == Bars(s) + Bars(t)
  {
    if s == [] {
      assert s + t == t;
    } else {
      assert (s + t)[1..] == s[1..] + t;
      BarsConcat(s[1..], t);
    }
  }

  lemma BarsOfField(first: string, rest: string)
    ensures Bars(Field(first, rest)) == Bars(first) + 1 + Bars(rest)
  {
    BarsConcat(first + ['|'], rest);
    BarsConcat(first, ['|']);
  }

  /** A text with a separator can be cut there. */
  lemma SplitAtBar(s: string) returns (first: string, rest: string)
    requires !NoBar(s)
    ensures s == Field(first, rest)
  {
    var i :| 0 <= i < |s| && s[i] == '|';
    first, rest := s[..i], s[i + 1..];
  }

  // ----- hexadecimal

  /** A raw byte string: every character is one byte. */
  predicate IsBytes(s: string) {
    forall i | 0 <= i < |s| :: s[i] as int < 256
  }

  const HEX_DIGITS := "0123456789abcdef"

  function Hex(s: string): (r: string)
    requires IsBytes(s)
    ensures |r| == 2 * |s| && NoBar(r)
  {
    if s == [] then []
    else
      var b := s[0] as int;
      [HEX_DIGITS[b / 16], HEX_DIGITS[b % 16]] + Hex(s[1..])
  }

  function HexValue(c: char): int {
    if '0' <= c <= '9' then c as int - '0' as int
    else if 'a' <= c <= 'f' then c as int - 'a' as int + 10
    else -1
  }

  /** The bytes a hexadecimal text stands for; a malformed text stops the decoding. */
  function Unhex(s: string): string {
    if |s| < 2 then []
    else
      var b := 16 * HexValue(s[0]) + HexValue(s[1]);
      if 0 <= b < 256 then [b as char] + Unhex(s[2..]) else []
  }

  lemma {:induction false} UnhexInvertsHex(s: string)
    requires IsBytes(s)
    ensures Unhex(Hex(s)) == s
  {
    if s != [] {
      UnhexInvertsHex(s[1..]);
      assert Hex(s)[2..] == Hex(s[1..]);
      HexDigitValue(s[0] as int / 16);
      HexDigitValue(s[0] as int % 16);
    }
  }

  lemma HexDigitValue(d: int)
    requires 0 <= d < 16
    ensures HexValue(HEX_DIGITS[d]) == d
  {
    if d < 10 { assert HEX_DIGITS[d] == '0' + d as char; }
  }

  lemma HexInjective(s: string, t: string)
    requires IsBytes(s) && IsBytes(t) && Hex(s) == Hex(t)
    ensures s == t
  {
    UnhexInvertsHex(s);
    UnhexInvertsHex(t);
  }
}
