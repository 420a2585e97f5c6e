/** Decimal numbers in text, and the version numbers clients carry in ETag and If-Match headers. */
module Decimals {
  import opened Wrappers

  predicate IsDigit(c: char) { '0' <= c <= '9' }

  predicate AllDigits(s: string) { forall i | 0 <= i < |s| :: IsDigit(s[i]) }

  function DigitsValue(s: string): nat
    requires AllDigits(s)
  {
    if s == "" then 0 else DigitsValue(s[..|s| - 1]) * 10 + (s[|s| - 1] - '0') as nat
  }

  /** A signed decimal within 64 bits. */
  function ParseInt(s: string): Option<int> {
    var digits := if s != "" && (s[0] == '+' || s[0] == '-') then s[1..] else s;
    if digits == "" || !AllDigits(digits) then None
    else
      var v: int := if s[0] == '-' then 0 - DigitsValue(digits) else DigitsValue(digits);
      if -0x8000_0000_0000_0000 <= v < 0x8000_0000_0000_0000 then Some(v) else None
  }

  function Decimal(n: nat): (s: string)
    ensures s != "" && AllDigits(s)
  {
    var last := ['0' + (n % 10) as char];
    if n < 10 then last else Decimal(n / 10) + last
  }

  predicate AllZeros(s: string) { forall i | 0 <= i < |s| :: s[i] == '0' }

  lemma {:induction false} ZerosValue(pad: string)
    requires AllZeros(pad)
    ensures DigitsValue(pad) == 0
  {
    if pad != "" {
      ZerosValue(pad[..|pad| - 1]);
    }
  }

  lemma {:induction false} DecimalValue(pad: string, n: nat)
    requires AllZeros(pad)
    ensures AllDigits(pad + Decimal(n)) && DigitsValue(pad + Decimal(n)) == n
    decreases n
  {
    var s := pad + Decimal(n);
    if n < 10 {
      assert s[..|s| - 1] == pad;
      ZerosValue(pad);
    } else {
      DecimalValue(pad, n / 10);
      assert s[..|s| - 1] == pad + Decimal(n / 10);
    }
  }

  /** Every row of digits is the number it stands for, padded with zeros. */
  lemma {:induction false} DigitsAreDecimal(s: string) returns (pad: string)
    requires AllDigits(s) && s != ""
    ensures AllZeros(pad) && s == pad + Decimal(DigitsValue(s))
  {
    var front, last := s[..|s| - 1], s[|s| - 1];
    var d := (last - '0') as nat;
    assert s == front + [last] && '0' + d as char == last;
    if front == "" {
      pad := "";
    } else if DigitsValue(front) == 0 {
      var zeros := DigitsAreDecimal(front);
      assert Decimal(0) == "0";
      pad := front;
      assert s == pad + Decimal(d);
    } else {
      pad := DigitsAreDecimal(front);
      DecimalAppend(DigitsValue(front), d);
      assert pad + (Decimal(DigitsValue(front)) + [last]) == pad + Decimal(DigitsValue(front)) + [last];
    }
  }

  lemma {:induction false} DecimalAppend(n: nat, d: nat)
    requires n > 0 && d < 10
    ensures Decimal(n * 10 + d) == Decimal(n) + ['0' + d as char]
  {
    assert (n * 10 + d) / 10 == n && (n * 10 + d) % 10 == d;
  }

  /** A padded number, bare or signed, parses to its value if that fits. */
  lemma {:induction false} ParsePadded(pad: string, n: nat)
    requires AllZeros(pad)
    ensures var digits := pad + Decimal(n);
            && ParseInt(digits) == (if n < 0x8000_0000_0000_0000 then Some(n) else None)
            && ParseInt("+" + digits) == (if n < 0x8000_0000_0000_0000 then Some(n) else None)
            && ParseInt("-" + digits) == (if n <= 0x8000_0000_0000_0000 then Some(0 - n) else None)
  {
    DecimalValue(pad, n);
    ParseSigned(pad + Decimal(n), n);
  }

  /** Nothing else parses. */
  lemma {:induction false} ParseAccepts(s: string) returns (pad: string, n: nat)
    requires ParseInt(s).Some?
    ensures AllZeros(pad) && (s == pad + Decimal(n) || s == "+" + (pad + Decimal(n)) || s == "-" + (pad + Decimal(n)))
  {
    var signed := s[0] == '+' || s[0] == '-';
    var digits := if signed then s[1..] else s;
    pad := DigitsAreDecimal(digits);
    n := DigitsValue(digits);
    if signed {
      assert s == [s[0]] + digits;
    }
  }

  function Format(v: int): string { if v < 0 then "-" + Decimal(-v) else Decimal(v) }

  predicate Fits64(v: int) { -0x8000_0000_0000_0000 <= v < 0x8000_0000_0000_0000 }

  lemma {:induction false} ParseFormat(v: int)
    requires Fits64(v)
    ensures ParseInt(Format(v)) == Some(v)
  {
    var n := if v < 0 then -v else v;
    DecimalValue("", n);
    assert "" + Decimal(n) == Decimal(n);
    ParseSigned(Decimal(n), n);
  }

  lemma {:induction false} ParseSigned(digits: string, n: nat)
    requires digits != "" && AllDigits(digits) && DigitsValue(digits) == n
    ensures ParseInt(digits) == if Fits64(n) then Some(n) else None
    ensures ParseInt("+" + digits) == if Fits64(n) then Some(n) else None
    ensures ParseInt("-" + digits) == if Fits64(0 - n) then Some(0 - n) else None
  {
    assert IsDigit(digits[0]);
    assert ("+" + digits)[1..] == digits && ("-" + digits)[1..] == digits;
  }

  // --- Headers ---

  function TrimQuotesLeft(s: string): string { if s != "" && s[0] == '"' then TrimQuotesLeft(s[1..]) else s }

  function TrimQuotesRight(s: string): string {
    if s != "" && s[|s| - 1] == '"' then TrimQuotesRight(s[..|s| - 1]) else s
  }

  function ETag(version: int): string { Format(version) }

  /** The expected version a request carries; anything that is not a number means none. */
  function IfMatch(header: string): int {
    match ParseInt(TrimQuotesRight(TrimQuotesLeft(header)))
    case None => 0
    case Some(v) => v
  }

  lemma {:induction false} NumberEndsInDigit(s: string)
    requires ParseInt(s).Some?
    ensures s != "" && IsDigit(s[|s| - 1]) && s[|s| - 1] in s
  {
    var pad, n := ParseAccepts(s);
    assert IsDigit(Decimal(n)[|Decimal(n)| - 1]);
  }

  /** A header that expects a version has a digit in it; any other expects none. */
  lemma {:induction false} MatchNeedsDigit(header: string)
    ensures IfMatch(header) != 0 ==> exists c :: c in header && IsDigit(c)
  {
    TrimsWithin(header);
    if IfMatch(header) != 0 {
      NumberEndsInDigit(TrimQuotesRight(TrimQuotesLeft(header)));
    }
  }

  /** Trimming quotes leaves characters of the text. */
  lemma {:induction false} TrimsWithin(s: string)
    ensures forall c | c in TrimQuotesRight(TrimQuotesLeft(s)) :: c in s
  {
    LeftWithin(s);
    RightWithin(TrimQuotesLeft(s));
  }

  lemma {:induction false} LeftWithin(s: string)
    ensures forall c | c in TrimQuotesLeft(s) :: c in s
  {
    if s != "" && s[0] == '"' {
      LeftWithin(s[1..]);
    }
  }

  lemma {:induction false} RightWithin(s: string)
    ensures forall c | c in TrimQuotesRight(s) :: c in s
  {
    if s != "" && s[|s| - 1] == '"' {
      RightWithin(s[..|s| - 1]);
    }
  }

  function Quotes(n: nat): string { if n == 0 then "" else "\"" + Quotes(n - 1) }

  lemma {:induction false} QuotesAreQuotes(n: nat)
    ensures |Quotes(n)| == n && forall i | 0 <= i < n :: Quotes(n)[i] == '"'
  {
    if n > 0 {
      QuotesAreQuotes(n - 1);
    }
  }

  lemma {:induction false} TrimsLeft(n: nat, s: string)
    requires s != "" && s[0] != '"'
    ensures TrimQuotesLeft(Quotes(n) + s) == s
  {
    if n > 0 {
      assert (Quotes(n) + s)[1..] == Quotes(n - 1) + s;
      TrimsLeft(n - 1, s);
    } else {
      assert Quotes(0) + s == s;
    }
  }

  lemma {:induction false} TrimsRight(s: string, n: nat)
    requires s != "" && s[|s| - 1] != '"'
    ensures TrimQuotesRight(s + Quotes(n)) == s
  {
    QuotesAreQuotes(n);
    if n > 0 {
      QuotesAreQuotes(n - 1);
      assert (s + Quotes(n))[..|s| + n - 1] == s + Quotes(n - 1);
      TrimsRight(s, n - 1);
    } else {
      assert s + Quotes(0) == s;
    }
  }

  lemma {:induction false} FormatEnds(v: int)
    ensures Format(v) != "" && Format(v)[0] != '"' && Format(v)[|Format(v)| - 1] != '"'
  {
    var digits := Decimal(if v < 0 then -v else v);
    assert IsDigit(digits[0]) && IsDigit(digits[|digits| - 1]);
  }

  /** The version in an ETag comes back from If-Match unchanged, bare or in any number of quotes. */
  lemma {:induction false} ETagRoundTrip(version: int, m: nat, n: nat)
    requires Fits64(version)
    ensures IfMatch(Quotes(m) + ETag(version) + Quotes(n)) == version
  {
    var tag := ETag(version);
    FormatEnds(version);
    assert Quotes(m) + tag + Quotes(n) == Quotes(m) + (tag + Quotes(n));
    TrimsLeft(m, tag + Quotes(n));
    TrimsRight(tag, n);
    ParseFormat(version);
  }
}
