/** Searching and casing over strings, and decimal port numbers. */
module Text {
  import opened Prelude

  /** Index of the first character in `stops`, or the length when there is none. */
  function FirstOf(s: string, stops: set<char>): (n: nat)
    ensures n <= |s|
  {
    if s == "" || s[0] in stops then 0 else 1 + FirstOf(s[1..], stops)
  }

  predicate IsFirstOf(s: string, stops: set<char>, n: nat) {
    n <= |s| && (n < |s| ==> s[n] in stops) && forall k | 0 <= k < n :: s[k] !in stops
  }

  lemma {:induction false} FirstOfIff(s: string, stops: set<char>, n: nat)
    ensures FirstOf(s, stops) == n <==> IsFirstOf(s, stops, n)
  {
    if s != "" && s[0] !in stops {
      FirstOfIff(s[1..], stops, if n == 0 then 0 else n - 1);
      assert forall k | 0 < k < |s| :: s[k] == s[1..][k - 1];
      if n > 0 && IsFirstOf(s[1..], stops, n - 1) {
        assert IsFirstOf(s, stops, n);
      }
      if IsFirstOf(s, stops, n) {
        forall k | 0 <= k < n - 1 ensures s[1..][k] !in stops {
          assert s[1..][k] == s[k + 1];
        }
      }
    }
  }

  /** Index of the last `c`, or -1. */
  function LastOf(s: string, c: char): (n: int)
    ensures -1 <= n < |s|
  {
    if s == "" then -1 else if s[|s| - 1] == c then |s| - 1 else LastOf(s[..|s| - 1], c)
  }

  predicate IsLastOf(s: string, c: char, n: int) {
    -1 <= n < |s| && (n >= 0 ==> s[n] == c) && forall k | n < k < |s| :: s[k] != c
  }

  lemma {:induction false} LastOfIff(s: string, c: char, n: int)
    ensures LastOf(s, c) == n <==> IsLastOf(s, c, n)
  {
    if s != "" && s[|s| - 1] != c {
      LastOfIff(s[..|s| - 1], c, n);
    }
  }

  lemma {:induction false} AbsentLast(s: string, c: char)
    requires forall k | 0 <= k < |s| :: s[k] != c
    ensures LastOf(s, c) == -1 && s[LastOf(s, c) + 1..] == s
  {
    LastOfIff(s, c, -1);
  }

  function LowerChar(c: char): char {
    if 'A' <= c <= 'Z' then (c as int + 32) as char else c
  }

  function Lower(s: string): (r: string)
    ensures |r| == |s| && forall k | 0 <= k < |s| :: r[k] == LowerChar(s[k])
  {
    seq(|s|, k requires 0 <= k < |s| => LowerChar(s[k]))
  }

  predicate StartsWithFold(s: string, prefix: string) {
    |prefix| <= |s| && Lower(s[..|prefix|]) == prefix
  }

  predicate IsControl(c: char) {
    var n := c as int;
    n < 0x20 || 0x7F <= n < 0xA0
  }

  /** The characters with the Unicode property White_Space. */
  predicate IsWhitespace(c: char) {
    var n := c as int;
    || 0x09 <= n <= 0x0D || n == 0x20 || n == 0x85 || n == 0xA0 || n == 0x1680
    || 0x2000 <= n <= 0x200A || n == 0x2028 || n == 0x2029 || n == 0x202F || n == 0x205F || n == 0x3000
  }

  predicate Printable(s: string) {
    forall k | 0 <= k < |s| :: !IsControl(s[k]) && !IsWhitespace(s[k])
  }

  /** White space by code point; and what a URL may not hold: that and both blocks of controls. */
  lemma ClassesByCodePoint(c: char)
    ensures IsWhitespace(c) <==>
              c as int in {9, 10, 11, 12, 13, 32, 133, 160, 5760, 8192, 8193, 8194, 8195, 8196, 8197, 8198, 8199,
                           8200, 8201, 8202, 8232, 8233, 8239, 8287, 12288}
    ensures Printable([c]) <==>
              c as int > 32 && !(127 <= c as int <= 160) && !(8192 <= c as int <= 8202)
              && c as int !in {5760, 8232, 8233, 8239, 8287, 12288}
  {
    assert [c][0] == c;
  }

  /** Only the twenty-six letters have a lower case here. */
  lemma LowerByTable(c: char, k: nat)
    requires k < 26
    ensures LowerChar("ABCDEFGHIJKLMNOPQRSTUVWXYZ"[k]) == "abcdefghijklmnopqrstuvwxyz"[k]
    ensures c as int < 65 || c as int > 90 ==> LowerChar(c) == c
  {
  }

  // ----- ports -----

  predicate IsDigit(c: char) {
    '0' <= c <= '9'
  }

  predicate Digits(s: string) {
    forall k | 0 <= k < |s| :: IsDigit(s[k])
  }

  function Value(s: string): nat
    requires Digits(s)
  {
    if s == "" then 0 else Value(s[..|s| - 1]) * 10 + (s[|s| - 1] as int - '0' as int)
  }

  /** A 16-bit decimal number: an optional plus sign, at least one digit, no overflow. */
  function ParseU16(s: string): Option<nat> {
    var digits := if s != "" && s[0] == '+' then s[1..] else s;
    if digits != "" && Digits(digits) && Value(digits) < 0x1_0000 then Some(Value(digits)) else None
  }

  function Decimal(n: nat): (s: string)
    ensures s != "" && Digits(s)
  {
    var last := [('0' as int + n % 10) as char];
    if n < 10 then last else Decimal(n / 10) + last
  }

  lemma {:induction false} ValueOfDecimal(n: nat)
    ensures Value(Decimal(n)) == n
  {
    if n >= 10 {
      ValueOfDecimal(n / 10);
      assert Decimal(n)[..|Decimal(n)| - 1] == Decimal(n / 10);
    }
  }

  /** Every port survives being printed and parsed. */
  lemma PortRoundTrip(port: nat)
    requires port < 0x1_0000
    ensures ParseU16(Decimal(port)) == Some(port)
  {
    ValueOfDecimal(port);
    assert IsDigit(Decimal(port)[0]);
  }

  lemma {:induction false} ZeroAdds(s: string)
    requires Digits(s)
    ensures Digits("0" + s) && Value("0" + s) == Value(s)
  {
    var t := "0" + s;
    assert t[0] == '0' && forall k | 0 < k < |t| :: t[k] == s[k - 1];
    if s == "" {
      assert t[..0] == "";
    } else {
      ZeroAdds(s[..|s| - 1]);
      assert t[..|t| - 1] == "0" + s[..|s| - 1];
    }
  }

  /** What else reads as a number: one with a plus sign or zeros in front; nothing that does not fit 16 bits. */
  lemma PortForms(n: nat, digits: string)
    requires digits != "" && Digits(digits)
    ensures n >= 65536 ==> ParseU16(Decimal(n)) == None
    ensures ParseU16("+" + digits) == ParseU16(digits) == ParseU16("0" + digits)
    ensures ParseU16("") == ParseU16("+") == None
  {
    ValueOfDecimal(n);
    assert IsDigit(Decimal(n)[0]) && IsDigit(digits[0]);
    assert ("+" + digits)[1..] == digits;
    ZeroAdds(digits);
  }
}
