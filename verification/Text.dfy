/** White-space trimming and the DNS-label pattern, as the value objects use them. */
module Text {

  /** The Unicode White_Space characters, which is what strings.TrimSpace removes. */
  predicate IsSpace(c: char) {
    || '\t' <= c <= '\r' || c == ' ' || c == '\U{0085}' || c == '\U{00A0}'
    || c == '\U{1680}' || '\U{2000}' <= c <= '\U{200A}' || c == '\U{2028}'
    || c == '\U{2029}' || c == '\U{202F}' || c == '\U{205F}' || c == '\U{3000}'
  }

  lemma {:induction false} SpaceCodes(c: char)
    ensures IsSpace(c) <==> c as int in {0x09, 0x0A, 0x0B, 0x0C, 0x0D, 0x20, 0x85, 0xA0, 0x1680, 0x2000, 0x2001, 0x2002, 0x2003,
                                         0x2004, 0x2005, 0x2006, 0x2007, 0x2008, 0x2009, 0x200A, 0x2028, 0x2029, 0x202F, 0x205F, 0x3000}
  {
  }

  predicate Trimmed(s: string) {
    s == "" || (!IsSpace(s[0]) && !IsSpace(s[|s| - 1]))
  }

  predicate AllSpace(s: string) {
    forall i | 0 <= i < |s| :: IsSpace(s[i])
  }

  function TrimLeft(s: string): string {
    if s != "" && IsSpace(s[0]) then TrimLeft(s[1..]) else s
  }

  function TrimRight(s: string): string {
    if s != "" && IsSpace(s[|s| - 1]) then TrimRight(s[..|s| - 1]) else s
  }

  function Trim(s: string): string { TrimRight(TrimLeft(s)) }

  lemma {:induction false} TrimLeftDrops(s: string)
    ensures var l := TrimLeft(s);
            && |l| <= |s| && s == s[..|s| - |l|] + l && AllSpace(s[..|s| - |l|])
            && (l != "" ==> !IsSpace(l[0]))
  {
    if s != "" && IsSpace(s[0]) {
      var rest, l := s[1..], TrimLeft(s);
      TrimLeftDrops(rest);
      var dropped := rest[..|rest| - |l|];
      assert s == [s[0]] + rest && rest == dropped + l;
      assert s[..|s| - |l|] == [s[0]] + dropped;
    }
  }

  lemma {:induction false} SpaceAtEnd(r: string, dropped: string, c: char)
    requires AllSpace(dropped) && IsSpace(c)
    ensures r + dropped + [c] == r + (dropped + [c]) && (r + dropped + [c])[|r|..] == dropped + [c]
    ensures AllSpace(dropped + [c])
  {
  }

  lemma {:induction false} TrimRightDrops(s: string)
    ensures var r := TrimRight(s);
            && |r| <= |s| && s == r + s[|r|..] && AllSpace(s[|r|..])
            && (r != "" ==> !IsSpace(r[|r| - 1]))
  {
    if s != "" && IsSpace(s[|s| - 1]) {
      var rest, r := s[..|s| - 1], TrimRight(s);
      TrimRightDrops(rest);
      SpaceAtEnd(r, rest[|r|..], s[|s| - 1]);
      assert s == rest + [s[|s| - 1]];
    }
  }

  /** Only white space is dropped, only at the two ends, and all of it there. */
  lemma {:induction false} TrimDrops(s: string)
    ensures Trimmed(Trim(s))
    ensures exists pre, post :: s == pre + Trim(s) + post && AllSpace(pre) && AllSpace(post)
  {
    TrimLeftDrops(s);
    TrimRightDrops(TrimLeft(s));
    var l := TrimLeft(s);
    var r := TrimRight(l);
    assert s == s[..|s| - |l|] + r + l[|r|..];
  }

  /** Trimming fixes exactly the trimmed strings, so trimming twice is trimming once. */
  lemma {:induction false} TrimFixes(s: string)
    ensures Trim(s) == s <==> Trimmed(s)
    ensures Trim(Trim(s)) == Trim(s)
  {
    TrimDrops(s);
  }

  predicate LowerAlnum(c: char) { 'a' <= c <= 'z' || '0' <= c <= '9' }

  predicate LabelChar(c: char) { c == '-' || LowerAlnum(c) }

  /** Lower-case letters and digits by their codes; a label may also have hyphens. */
  lemma {:induction false} LabelCodes(c: char)
    ensures LowerAlnum(c) <==> 97 <= c as int <= 122 || 48 <= c as int <= 57
    ensures LabelChar(c) <==> 97 <= c as int <= 122 || 48 <= c as int <= 57 || c as int == 45
  {
  }

  /** The language of ^[a-z0-9]([-a-z0-9]*[a-z0-9])?$ read off the pattern. */
  ghost predicate MatchesLabel(s: string) {
    || (|s| == 1 && LowerAlnum(s[0]))
    || exists mid: string ::
         |s| == |mid| + 2 && s == [s[0]] + mid + [s[|s| - 1]] && LowerAlnum(s[0]) && LowerAlnum(s[|s| - 1])
         && forall i | 0 <= i < |mid| :: LabelChar(mid[i])
  }

  predicate IsLabel(s: string) {
    s != "" && LowerAlnum(s[0]) && LowerAlnum(s[|s| - 1]) && forall i | 0 <= i < |s| :: LabelChar(s[i])
  }

  lemma {:induction false} LabelPattern(s: string)
    ensures IsLabel(s) <==> MatchesLabel(s)
  {
    if IsLabel(s) && |s| > 1 {
      var mid := s[1..|s| - 1];
      assert s == [s[0]] + mid + [s[|s| - 1]];
    }
  }

  /** Length in UTF-8 bytes, which is what len counts. */
  function ByteLen(s: string): (n: nat)
    ensures n >= |s|
  {
    if s == "" then 0 else CharBytes(s[0]) + ByteLen(s[1..])
  }

  function CharBytes(c: char): (n: nat)
    ensures 1 <= n <= 4
  {
    if c < '\U{0080}' then 1 else if c < '\U{0800}' then 2 else if c < '\U{10000}' then 3 else 4
  }

  /** The UTF-8 bytes of a character (RFC 3629 section 3): the code in groups of six bits. */
  function Utf8(c: char): seq<int> {
    var n := c as int;
    var m, low := n / 0x40, 0x80 + n % 0x40;
    var k, mid := m / 0x40, 0x80 + m % 0x40;
    if n < 0x80 then [n]
    else if n < 0x800 then [0xC0 + m, low]
    else if n < 0x10000 then [0xE0 + k, mid, low]
    else [0xF0 + k / 0x40, 0x80 + k % 0x40, mid, low]
  }

  function FromUtf8(bytes: seq<int>): int {
    if |bytes| == 1 then bytes[0]
    else if |bytes| == 2 then (bytes[0] - 0xC0) * 0x40 + (bytes[1] - 0x80)
    else if |bytes| == 3 then ((bytes[0] - 0xE0) * 0x40 + (bytes[1] - 0x80)) * 0x40 + (bytes[2] - 0x80)
    else if |bytes| == 4 then
      (((bytes[0] - 0xF0) * 0x40 + (bytes[1] - 0x80)) * 0x40 + (bytes[2] - 0x80)) * 0x40 + (bytes[3] - 0x80)
    else -1
  }

  lemma {:induction false} CharBytesExactly(c: char)
    ensures |Utf8(c)| == CharBytes(c) && FromUtf8(Utf8(c)) == c as int
  {
    var n := c as int;
    var m := n / 0x40;
    var k := m / 0x40;
    assert n == m * 0x40 + n % 0x40 && m == k * 0x40 + m % 0x40 && k == k / 0x40 * 0x40 + k % 0x40;
  }

  function Encoded(s: string): seq<int> { if s == "" then [] else Utf8(s[0]) + Encoded(s[1..]) }

  /** The length counted is that of the encoded text. */
  lemma {:induction false} ByteLenExactly(s: string)
    ensures ByteLen(s) == |Encoded(s)|
  {
    if s != "" {
      CharBytesExactly(s[0]);
      ByteLenExactly(s[1..]);
    }
  }

  lemma {:induction false} LabelByteLen(s: string)
    requires forall i | 0 <= i < |s| :: LabelChar(s[i])
    ensures ByteLen(s) == |s|
  {
    if s != "" {
      LabelByteLen(s[1..]);
    }
  }
}
