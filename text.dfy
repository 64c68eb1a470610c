/** String helpers with Python's semantics: str.strip(), str.join, str(int),
    int(<ASCII digits>) and the code-point ordering that sorted() uses. */
module Text {

  /** Python's str.isspace() for one character. */
  predicate IsSpace(c: char)
  {
    var n := c as int;
    (9 <= n <= 13) || (0x1C <= n <= 0x20) || n == 0x85 || n == 0xA0 || n == 0x1680
    || (0x2000 <= n <= 0x200A) || n == 0x2028 || n == 0x2029 || n == 0x202F
    || n == 0x205F || n == 0x3000
  }

  /** str.lstrip(). */
  function StripLeft(s: string): (r: string)
    ensures |r| <= |s|
  {
    if s != [] && IsSpace(s[0]) then StripLeft(s[1..]) else s
  }

  /** str.rstrip(). */
  function StripRight(s: string): string
  {
    if s != [] && IsSpace(s[|s| - 1]) then StripRight(s[..|s| - 1]) else s
  }

  /** str.strip(): removes leading and trailing whitespace. */
  function Strip(s: string): string
  {
    StripRight(StripLeft(s))
  }

  /** str.lstrip() keeps a suffix, removes only whitespace and stops at the
      first character that is not whitespace. */
  lemma {:induction false} StripLeftSuffix(s: string)
    ensures var r := StripLeft(s);
            |r| <= |s| && r == s[|s| - |r|..]
            && (forall i :: 0 <= i < |s| - |r| ==> IsSpace(s[i]))
            && (r != [] ==> !IsSpace(r[0]))
  {
    if s != [] && IsSpace(s[0]) {
      StripLeftSuffix(s[1..]);
    }
  }

  /** str.rstrip() keeps a prefix, removes only whitespace and stops at the
      last character that is not whitespace. */
  lemma {:induction false} StripRightPrefix(s: string)
    ensures var r := StripRight(s);
            |r| <= |s| && r == s[..|r|]
            && (forall i :: |r| <= i < |s| ==> IsSpace(s[i]))
            && (r != [] ==> !IsSpace(r[|r| - 1]))
  {
    if s != [] && IsSpace(s[|s| - 1]) {
      StripRightPrefix(s[..|s| - 1]);
    }
  }

  /** What str.strip() keeps is the middle of `s`, with no whitespace at
      either end, and what it removes on either side is all whitespace. */
  lemma StripMiddle(s: string)
    ensures var r, i := Strip(s), LeadingSpaces(s);
            i + |r| <= |s| && r == s[i..i + |r|]
            && (forall k :: 0 <= k < i ==> IsSpace(s[k]))
            && (forall k :: i + |r| <= k < |s| ==> IsSpace(s[k]))
            && (r != [] ==> !IsSpace(r[0]) && !IsSpace(r[|r| - 1]))
  {
    var l := StripLeft(s);
    var r := StripRight(l);
    StripLeftSuffix(s);
    StripRightPrefix(l);
    assert r == s[|s| - |l|..][..|r|];
    if r != [] {
      assert r[0] == l[0];
    }
  }

  /** The number of whitespace characters str.strip() removes at the front. */
  function LeadingSpaces(s: string): nat
  {
    |s| - |StripLeft(s)|
  }

  /** Stripping a string with no whitespace at either end changes nothing. */
  lemma StripTrimmed(s: string)
    requires s != [] ==> !IsSpace(s[0]) && !IsSpace(s[|s| - 1])
    ensures Strip(s) == s
  {
    if s != [] {
      assert StripLeft(s) == s;
    }
  }

  /** str.strip() is idempotent. */
  lemma StripIdempotent(s: string)
    ensures Strip(Strip(s)) == Strip(s)
  {
    StripMiddle(s);
    StripTrimmed(Strip(s));
  }

  /** sep.join(parts). */
  function Join(parts: seq<string>, sep: string): (r: string)
    ensures parts == [] ==> r == ""
    ensures |parts| == 1 ==> r == parts[0]
  {
    if parts == [] then ""
    else if |parts| == 1 then parts[0]
    else Join(parts[..|parts| - 1], sep) + sep + parts[|parts| - 1]
  }

  /** The total length of a joined string: all parts plus one separator
      between each two neighbours. */
  lemma {:induction false} JoinLength(parts: seq<string>, sep: string)
    requires parts != []
    ensures |Join(parts, sep)| == TotalLength(parts) + (|parts| - 1) * |sep|
  {
    if |parts| > 1 {
      var init := parts[..|parts| - 1];
      JoinLength(init, sep);
      MulStep(|init| - 1, |sep|);
    }
  }

  lemma MulStep(a: nat, b: nat)
    ensures (a + 1) * b == a * b + b
  {
  }

  /** One more part at the end adds a separator and the part; a step of
      JoinExtendLast and of the splitter's round trip (Tokenizer.PiecesJoin). */
  lemma JoinSnoc(parts: seq<string>, p: string, sep: string)
    requires parts != []
    ensures Join(parts + [p], sep) == Join(parts, sep) + sep + p
  {
    assert (parts + [p])[..|parts|] == parts;
  }

  /** A character added to the last part lands at the end of the join. */
  lemma JoinExtendLast(parts: seq<string>, p: string, c: char, sep: string)
    ensures Join(parts + [p + [c]], sep) == Join(parts + [p], sep) + [c]
  {
    if parts != [] {
      JoinSnoc(parts, p + [c], sep);
      JoinSnoc(parts, p, sep);
    }
  }

  function TotalLength(parts: seq<string>): nat
  {
    if parts == [] then 0 else TotalLength(parts[..|parts| - 1]) + |parts[|parts| - 1]|
  }

  predicate IsDigit(c: char)
  {
    '0' <= c <= '9'
  }

  predicate AllDigits(s: string)
  {
    forall i :: 0 <= i < |s| ==> IsDigit(s[i])
  }

  function DigitChar(d: nat): (c: char)
    requires d < 10
    ensures IsDigit(c) && c as int - '0' as int == d
  {
    ('0' as int + d) as char
  }

  /** str(n) for a non-negative integer: its shortest decimal form. */
  function NatDecimal(n: nat): (r: string)
    ensures r != [] && AllDigits(r)
    ensures r[0] == '0' ==> n == 0
  {
    if n < 10 then [DigitChar(n)] else NatDecimal(n / 10) + [DigitChar(n % 10)]
  }

  /** str(n) for any integer. */
  function Decimal(n: int): (r: string)
    ensures r != []
    ensures n >= 0 ==> AllDigits(r)
    ensures n < 0 ==> r[0] == '-' && AllDigits(r[1..])
  {
    if n < 0 then "-" + NatDecimal(-n) else NatDecimal(n)
  }

  /** int(s) for a string of ASCII digits. */
  function DigitsValue(s: string): nat
    requires AllDigits(s)
  {
    if s == [] then 0
    else DigitsValue(s[..|s| - 1]) * 10 + (s[|s| - 1] as int - '0' as int)
  }

  /** int(str(n)) == n. */
  lemma {:induction false} DecimalRoundTrip(n: nat)
    ensures DigitsValue(NatDecimal(n)) == n
  {
    if n >= 10 {
      var r := NatDecimal(n);
      assert r[..|r| - 1] == NatDecimal(n / 10);
      DecimalRoundTrip(n / 10);
    }
  }

  /** Python's ordering of strings: lexicographic by code point, a proper
      prefix before the longer string. */
  predicate Less(a: string, b: string)
  {
    if a == [] then b != []
    else if b == [] then false
    else if a[0] != b[0] then a[0] < b[0]
    else Less(a[1..], b[1..])
  }

  lemma {:induction false} LessIrreflexive(a: string)
    ensures !Less(a, a)
  {
    if a != [] {
      LessIrreflexive(a[1..]);
    }
  }

  lemma {:induction false} LessTransitive(a: string, b: string, c: string)
    requires Less(a, b) && Less(b, c)
    ensures Less(a, c)
  {
    if a != [] && b != [] && c != [] && a[0] == b[0] && b[0] == c[0] {
      LessTransitive(a[1..], b[1..], c[1..]);
    }
  }

  lemma {:induction false} LessTotal(a: string, b: string)
    ensures a == b || Less(a, b) || Less(b, a)
  {
    if a != [] && b != [] && a[0] == b[0] {
      LessTotal(a[1..], b[1..]);
      if a[1..] == b[1..] {
        assert a == [a[0]] + a[1..] && b == [b[0]] + b[1..];
      }
    }
  }

  /** At most one of two strings precedes the other. */
  lemma LessAsymmetric(a: string, b: string)
    requires Less(a, b)
    ensures !Less(b, a)
  {
    if Less(b, a) {
      LessTransitive(a, b, a);
      LessIrreflexive(a);
    }
  }
}
