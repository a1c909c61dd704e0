/** UTF-8 as RFC 3629, section 3, defines it, and cutting it at a character boundary. */
module Utf8 {
  import opened Prelude

  function EncodeChar(c: char): (bytes: seq<Byte>)
    ensures 1 <= |bytes| <= 4
  {
    var n := c as int;
    if n < 0x80 then [n]
    else if n < 0x800 then [0xC0 + n / 64, 0x80 + n % 64]
    else if n < 0x1_0000 then [0xE0 + n / 4096, 0x80 + n / 64 % 64, 0x80 + n % 64]
    else [0xF0 + n / 262144, 0x80 + n / 4096 % 64, 0x80 + n / 64 % 64, 0x80 + n % 64]
  }

  function Encode(s: string): seq<Byte> {
    if s == "" then [] else EncodeChar(s[0]) + Encode(s[1..])
  }

  predicate IsContinuation(b: Byte) {
    0x80 <= b < 0xC0
  }

  predicate IsCharBoundary(bytes: seq<Byte>, i: nat)
    requires i <= |bytes|
  {
    i == 0 || i == |bytes| || !IsContinuation(bytes[i])
  }

  /** Only the first byte of an encoded character is not a continuation byte. */
  lemma CharShape(c: char, i: nat)
    requires i < |EncodeChar(c)|
    ensures IsContinuation(EncodeChar(c)[i]) <==> 0 < i
  {
  }

  lemma Sextets(n: nat)
    ensures n == n / 64 * 64 + n % 64 && n / 4096 == n / 64 / 64 && n / 262144 == n / 4096 / 64
  {
  }

  /** The code point that one character's bytes stand for. */
  function CodePoint(bytes: seq<Byte>): int {
    if |bytes| == 1 then bytes[0]
    else if |bytes| == 2 then 64 * (bytes[0] as int - 0xC0) + (bytes[1] as int - 0x80)
    else if |bytes| == 3 then
      4096 * (bytes[0] as int - 0xE0) + 64 * (bytes[1] as int - 0x80) + (bytes[2] as int - 0x80)
    else if |bytes| == 4 then
      262144 * (bytes[0] as int - 0xF0) + 4096 * (bytes[1] as int - 0x80)
      + 64 * (bytes[2] as int - 0x80) + (bytes[3] as int - 0x80)
    else 0
  }

  /** The bytes give the code point back, and are as few as the standard allows. */
  lemma CharRoundTrip(c: char)
    ensures CodePoint(EncodeChar(c)) == c as int
    ensures |EncodeChar(c)| == if c as int < 128 then 1 else if c as int < 2048 then 2
                               else if c as int < 65536 then 3 else 4
  {
    var n := c as int;
    Sextets(n);
    Sextets(n / 64);
    Sextets(n / 4096);
  }

  lemma EncodeCharInjective(a: char, b: char)
    requires EncodeChar(a) == EncodeChar(b)
    ensures a == b
  {
    CharRoundTrip(a);
    CharRoundTrip(b);
  }

  /** Where one character ends and the next begins can be told from the bytes alone. */
  lemma SplitsAtFirstChar(a: char, b: char, x: seq<Byte>, y: seq<Byte>)
    requires EncodeChar(a) + x == EncodeChar(b) + y
    ensures a == b && x == y
  {
    var ea, eb := EncodeChar(a), EncodeChar(b);
    assert ea[0] == (ea + x)[0] == (eb + y)[0] == eb[0];
    assert |ea| == |eb|;
    assert ea == (ea + x)[..|ea|] == (eb + y)[..|eb|] == eb;
    assert x == (ea + x)[|ea|..] == (eb + y)[|eb|..] == y;
    EncodeCharInjective(a, b);
  }

  lemma {:induction false} EncodeInjective(s: string, t: string)
    ensures Encode(s) == Encode(t) <==> s == t
  {
    if s != "" && t != "" && Encode(s) == Encode(t) {
      SplitsAtFirstChar(s[0], t[0], Encode(s[1..]), Encode(t[1..]));
      EncodeInjective(s[1..], t[1..]);
      assert s == [s[0]] + s[1..] && t == [t[0]] + t[1..];
    }
  }

  /** The longest prefix of whole characters whose encoding fits in `max` bytes. */
  function TakeFit(s: string, max: nat): string {
    if s == "" || |EncodeChar(s[0])| > max then ""
    else [s[0]] + TakeFit(s[1..], max - |EncodeChar(s[0])|)
  }

  lemma EncodeFirst(s: string, k: nat)
    requires 0 < k <= |s|
    ensures |Encode(s[..k])| == |EncodeChar(s[0])| + |Encode(s[1..][..k - 1])|
  {
    assert s[..k][1..] == s[1..][..k - 1];
  }

  lemma PrefixCons(s: string, p: string)
    requires |p| < |s| && p == s[1..][..|p|]
    ensures [s[0]] + p == s[..|p| + 1]
  {
  }

  lemma {:induction false} TakeFitIsPrefix(s: string, max: nat)
    ensures |TakeFit(s, max)| <= |s| && TakeFit(s, max) == s[..|TakeFit(s, max)|]
  {
    if s != "" && |EncodeChar(s[0])| <= max {
      TakeFitIsPrefix(s[1..], max - |EncodeChar(s[0])|);
      PrefixCons(s, TakeFit(s[1..], max - |EncodeChar(s[0])|));
    }
  }

  lemma {:induction false} FitsIff(s: string, max: nat, k: nat)
    requires k <= |s|
    ensures |Encode(s[..k])| <= max <==> k <= |TakeFit(s, max)|
  {
    if k > 0 {
      EncodeFirst(s, k);
      if |EncodeChar(s[0])| <= max {
        FitsIff(s[1..], max - |EncodeChar(s[0])|, k - 1);
      }
    }
  }

  /** `TakeFit` is a prefix that fits, and every longer prefix does not. */
  lemma TakeFitIsLongest(s: string, max: nat, k: nat)
    requires k <= |s|
    ensures |TakeFit(s, max)| <= |s| && TakeFit(s, max) == s[..|TakeFit(s, max)|]
    ensures |Encode(s[..k])| <= max <==> k <= |TakeFit(s, max)|
  {
    TakeFitIsPrefix(s, max);
    FitsIff(s, max, k);
  }

  /** Between the end of the longest fit and `max`, its end is the only character boundary. */
  lemma {:induction false} OnlyBoundary(s: string, max: nat, i: nat)
    requires |Encode(TakeFit(s, max))| <= i <= max && i <= |Encode(s)|
    ensures IsCharBoundary(Encode(s), i) <==> i == |Encode(TakeFit(s, max))|
  {
    if s != "" {
      var c, rest := s[0], s[1..];
      var w := |EncodeChar(c)|;
      if w <= max {
        OnlyBoundary(rest, max - w, i - w);
        assert i > w && i < |Encode(s)| ==> Encode(s)[i] == Encode(rest)[i - w];
        if i == w && rest != "" {
          CharShape(rest[0], 0);
        }
      } else if i > 0 {
        CharShape(c, i);
      }
    }
  }

  lemma FirstCharBoundary(s: string, end: nat)
    requires s != "" && 0 < end <= |Encode(s)| && IsCharBoundary(Encode(s), end)
    ensures var w := |EncodeChar(s[0])|;
            && w <= end && IsCharBoundary(Encode(s[1..]), end - w)
            && Encode(s)[..end] == EncodeChar(s[0]) + Encode(s[1..])[..end - w]
  {
    var w := |EncodeChar(s[0])|;
    assert end < w ==> Encode(s)[end] == EncodeChar(s[0])[end];
    if end < w {
      CharShape(s[0], end);
      assert false;
    }
    assert end < |Encode(s)| ==> Encode(s)[end] == Encode(s[1..])[end - w];
  }

  /** What is left of a string that is cut at a character boundary. */
  function Truncated(s: string, end: nat): (t: string)
    requires end <= |Encode(s)| && IsCharBoundary(Encode(s), end)
    ensures Encode(t) == Encode(s)[..end]
  {
    if end == 0 then ""
    else
      FirstCharBoundary(s, end);
      var t := Truncated(s[1..], end - |EncodeChar(s[0])|);
      assert ([s[0]] + t)[1..] == t;
      [s[0]] + t
  }

  lemma {:induction false} AsciiLength(s: string)
    requires forall k | 0 <= k < |s| :: s[k] as int < 0x80
    ensures |Encode(s)| == |s|
  {
    if s != "" {
      AsciiLength(s[1..]);
    }
  }

  /** When something had to be cut, at most three bytes of room are left over. */
  lemma {:induction false} FitLeavesLessThanAChar(s: string, max: nat)
    ensures |Encode(s)| <= max ==> TakeFit(s, max) == s
    ensures |Encode(s)| > max ==> max - 3 <= |Encode(TakeFit(s, max))| <= max
    ensures Encode(TakeFit(s, max)) <= Encode(s)
  {
    if s != "" && |EncodeChar(s[0])| <= max {
      FitLeavesLessThanAChar(s[1..], max - |EncodeChar(s[0])|);
      assert TakeFit(s, max)[1..] == TakeFit(s[1..], max - |EncodeChar(s[0])|);
    }
  }
}

/** The device name: whitespace folding, then a cut to the server's 64-byte column. */
module DeviceName {
  import opened Prelude
  import opened Utf8

  const DEVICE_NAME_MAX: nat := 64

  predicate IsSpace(c: char) {
    c == ' ' || c == '\t' || c == '\r' || c == '\n' || c as int == 0x0B || c as int == 0x0C
  }

  // ----- the declarative form -----

  /** The fields between whitespace characters; empty ones included. */
  function Split(s: string): (fields: seq<string>)
    ensures fields != []
  {
    if s == "" then [""]
    else
      var fields, c := Split(s[..|s| - 1]), s[|s| - 1];
      var n := |fields| - 1;
      if IsSpace(c) then fields + [""] else fields[..n] + [fields[n] + [c]]
  }

  function NonEmpty(fields: seq<string>): seq<string> {
    if fields == [] then []
    else
      var n := |fields| - 1;
      NonEmpty(fields[..n]) + if fields[n] == "" then [] else [fields[n]]
  }

  function Words(s: string): seq<string> {
    NonEmpty(Split(s))
  }

  function Join(words: seq<string>): string {
    if words == [] then ""
    else
      var n := |words| - 1;
      if n == 0 then words[0] else Join(words[..n]) + " " + words[n]
  }

  function Normalized(raw: string, platformDefault: string): string {
    var cut := TakeFit(Join(Words(raw)), DEVICE_NAME_MAX);
    if cut == platformDefault then "" else cut
  }

  // ----- the loops -----

  predicate InSpace(s: string) {
    s == "" || IsSpace(s[|s| - 1])
  }

  /** The buffer after the loop has seen `s`: the words so far and, in a gap after them, one space. */
  function Folded(s: string): string {
    Join(Words(s)) + if InSpace(s) && Words(s) != [] then " " else ""
  }

  lemma SplitEnds(s: string)
    ensures InSpace(s) <==> Split(s)[|Split(s)| - 1] == ""
  {
  }

  /** One turn of the loop is one character of the declarative form. */
  lemma FoldStep(s: string, c: char)
    ensures Folded(s + [c]) == if !IsSpace(c) then Folded(s) + [c]
                               else if InSpace(s) then Folded(s)
                               else Folded(s) + " "
    ensures !InSpace(s) ==> Words(s) != []
  {
    var t := s + [c];
    assert t[..|t| - 1] == s;
    SplitEnds(s);
    var f := Split(s);
    var n := |f| - 1;
    if IsSpace(c) {
      assert Split(t)[..n + 1] == f;
      assert Words(t) == Words(s);
    } else {
      assert Split(t)[..n] == f[..n];
      var front := NonEmpty(f[..n]);
      assert Words(t) == front + [f[n] + [c]];
      if InSpace(s) {
        assert Words(s) == front;
        assert Words(t)[..|front|] == front;
        assert f[n] + [c] == [c];
      } else {
        assert Words(s) == front + [f[n]];
        assert Words(s)[..|front|] == Words(t)[..|front|] == front;
      }
    }
  }

  lemma TakeOneMore(s: string, k: nat)
    requires k < |s|
    ensures s[..k + 1] == s[..k] + [s[k]]
  {
  }

  /** The loop's two variables, from one character to the next. */
  lemma FoldTurn(s: string, c: char)
    ensures InSpace(s + [c]) == IsSpace(c)
    ensures Folded(s + [c]) == Folded(s) + if !IsSpace(c) then [c] else if InSpace(s) then "" else " "
  {
    FoldStep(s, c);
    assert Folded(s) + "" == Folded(s);
  }

  lemma FoldedEnds(s: string)
    ensures !InSpace(s) ==> Folded(s) != "" && Folded(s)[|Folded(s)| - 1] == s[|s| - 1]
  {
    if !InSpace(s) {
      FoldStep(s[..|s| - 1], s[|s| - 1]);
      assert s[..|s| - 1] + [s[|s| - 1]] == s;
    }
  }

  lemma TrimmedFold(s: string)
    ensures var t := Folded(s);
            Join(Words(s)) == if t != "" && t[|t| - 1] == ' ' then t[..|t| - 1] else t
  {
    FoldedEnds(s);
    var joined := Join(Words(s));
    if InSpace(s) && Words(s) != [] {
      assert Folded(s)[..|joined|] == joined;
    } else {
      assert joined + "" == joined;
    }
  }

  /** Cut a name at the last character boundary that fits the column. */
  method TruncateDeviceName(s: string) returns (cut: string)
    ensures cut == TakeFit(s, DEVICE_NAME_MAX)
    ensures |Encode(s)| > DEVICE_NAME_MAX ==> 61 <= |Encode(cut)| <= 64
  {
    var bytes := Encode(s);
    FitLeavesLessThanAChar(s, DEVICE_NAME_MAX);
    if |bytes| <= DEVICE_NAME_MAX {
      return s;
    }
    var end := DEVICE_NAME_MAX;
    ghost var fit := Encode(TakeFit(s, DEVICE_NAME_MAX));
    OnlyBoundary(s, DEVICE_NAME_MAX, |fit|);
    while !IsCharBoundary(bytes, end)
      invariant |fit| <= end <= DEVICE_NAME_MAX
      decreases end
    {
      end := end - 1;
    }
    OnlyBoundary(s, DEVICE_NAME_MAX, end);
    cut := Truncated(s, end);
    assert bytes[..end] == fit;
    EncodeInjective(cut, TakeFit(s, DEVICE_NAME_MAX));
  }

  /** One space for each stretch of whitespace, and none at either end. */
  method FoldWhitespace(raw: string) returns (trimmed: string)
    ensures trimmed == Join(Words(raw))
  {
    trimmed := "";
    var inSpace := true;
    for k := 0 to |raw|
      invariant inSpace == InSpace(raw[..k]) && trimmed == Folded(raw[..k])
    {
      var c := raw[k];
      TakeOneMore(raw, k);
      FoldTurn(raw[..k], c);
      if IsSpace(c) {
        trimmed := trimmed + if inSpace then "" else " ";
        inSpace := true;
      } else {
        trimmed := trimmed + [c];
        inSpace := false;
      }
    }
    assert raw[..|raw|] == raw;
    TrimmedFold(raw);
    if trimmed != "" && trimmed[|trimmed| - 1] == ' ' {
      trimmed := trimmed[..|trimmed| - 1];
    }
  }

  method NormalizeDeviceName(raw: string, platformDefault: string) returns (name: string)
    ensures name == Normalized(raw, platformDefault)
  {
    name := FoldWhitespace(raw);
    name := TruncateDeviceName(name);
    if name == platformDefault {
      name := "";
    }
  }

  // ----- saving a saved name again -----

  /** Single spaces only, and none at the front. */
  predicate Clean(s: string) {
    forall k | 0 <= k < |s| && IsSpace(s[k]) :: s[k] == ' ' && k > 0 && !IsSpace(s[k - 1])
  }

  lemma CleanSnoc(s: string, c: char)
    requires Clean(s) && (IsSpace(c) ==> c == ' ' && !InSpace(s))
    ensures Clean(s + [c])
  {
    var t := s + [c];
    forall k | 0 <= k < |t| && IsSpace(t[k]) ensures t[k] == ' ' && k > 0 && !IsSpace(t[k - 1]) {
      assert k < |s| ==> t[k] == s[k];
    }
  }

  lemma FoldedGap(s: string)
    ensures InSpace(Folded(s)) <==> InSpace(s)
  {
    if InSpace(s) {
      assert Words(s) == [] ==> Folded(s) == "";
    } else {
      FoldedEnds(s);
    }
  }

  lemma {:induction false} FoldedIsClean(s: string)
    ensures Clean(Folded(s))
  {
    if s != "" {
      var init, c := s[..|s| - 1], s[|s| - 1];
      assert init + [c] == s;
      FoldedIsClean(init);
      FoldTurn(init, c);
      FoldedGap(init);
      if !IsSpace(c) {
        CleanSnoc(Folded(init), c);
      } else if !InSpace(init) {
        CleanSnoc(Folded(init), ' ');
      } else {
        assert Folded(init) + "" == Folded(init);
      }
    }
  }

  lemma {:induction false} CleanIsFolded(s: string)
    requires Clean(s)
    ensures Folded(s) == s
  {
    if s != "" {
      var init, c := s[..|s| - 1], s[|s| - 1];
      assert init + [c] == s;
      CleanIsFolded(init);
      FoldStep(init, c);
    }
  }

  lemma JoinedIsClean(s: string)
    ensures Clean(Join(Words(s)))
  {
    FoldedIsClean(s);
    var joined := Join(Words(s));
    assert joined == Folded(s)[..|joined|];
  }

  lemma JoinOfClean(s: string)
    requires Clean(s)
    ensures Join(Words(s)) == if s != "" && s[|s| - 1] == ' ' then s[..|s| - 1] else s
  {
    CleanIsFolded(s);
    FoldedIsClean(s);
    if s != "" && s[|s| - 1] == ' ' {
      assert InSpace(s);
      assert s[..|s| - 1] == Join(Words(s));
    } else {
      assert Folded(s) == Join(Words(s)) + "" || s == "";
    }
  }

  lemma CleanNameSettlesIff(name: string, platformDefault: string)
    requires Clean(name) && TakeFit(name, DEVICE_NAME_MAX) == name && (name == "" || name != platformDefault)
    ensures Normalized(name, platformDefault) == name <==> (name == "" || name[|name| - 1] != ' ')
  {
    JoinOfClean(name);
    var joined := Join(Words(name));
    TakeFitIsLongest(joined, DEVICE_NAME_MAX, 0);
  }

  lemma CutOfJoinedIsClean(raw: string)
    ensures Clean(TakeFit(Join(Words(raw)), DEVICE_NAME_MAX))
  {
    JoinedIsClean(raw);
    TakeFitIsLongest(Join(Words(raw)), DEVICE_NAME_MAX, 0);
  }

  lemma {:induction false} TakeFitAgain(s: string, max: nat)
    ensures TakeFit(TakeFit(s, max), max) == TakeFit(s, max)
  {
    if s != "" && |EncodeChar(s[0])| <= max {
      TakeFitAgain(s[1..], max - |EncodeChar(s[0])|);
      assert TakeFit(s, max)[1..] == TakeFit(s[1..], max - |EncodeChar(s[0])|);
    }
  }

  lemma SettledIff(raw: string, platformDefault: string)
    ensures var name := Normalized(raw, platformDefault);
            Normalized(name, platformDefault) == name <==> (name == "" || name[|name| - 1] != ' ')
  {
    CutOfJoinedIsClean(raw);
    TakeFitAgain(Join(Words(raw)), DEVICE_NAME_MAX);
    CleanNameSettlesIff(Normalized(raw, platformDefault), platformDefault);
  }

  lemma JoinedEndsInWord(raw: string)
    ensures var folded := Join(Words(raw)); folded == "" || folded[|folded| - 1] != ' '
  {
    FoldedIsClean(raw);
    FoldedEnds(raw);
    var folded := Join(Words(raw));
    if InSpace(raw) && Words(raw) != [] {
      assert Folded(raw)[..|folded|] == folded && Folded(raw)[|folded|] == ' ';
    } else {
      assert folded + "" == folded;
    }
  }

  /** The characters of a name that are not one of the six counted as whitespace, by code point. */
  function Inked(s: string): string {
    if s == "" then ""
    else Inked(s[..|s| - 1]) + if s[|s| - 1] as int in {9, 10, 11, 12, 13, 32} then "" else [s[|s| - 1]]
  }

  lemma InkedSnoc(s: string, c: char)
    ensures Inked(s + [c]) == Inked(s) + if c as int in {9, 10, 11, 12, 13, 32} then "" else [c]
  {
    assert (s + [c])[..|s|] == s;
  }

  lemma {:induction false} FoldedIsInked(s: string)
    ensures Inked(Folded(s)) == Inked(s)
  {
    if s != "" {
      var init, c := s[..|s| - 1], s[|s| - 1];
      assert init + [c] == s;
      FoldedIsInked(init);
      FoldStep(init, c);
      InkedSnoc(Folded(init), if IsSpace(c) then ' ' else c);
    }
  }

  /** Of the six, only single spaces between other characters. */
  predicate Tidy(s: string) {
    forall k | 0 <= k < |s| && s[k] as int in {9, 10, 11, 12, 13, 32} ::
      s[k] == ' ' && 0 < k < |s| - 1 && s[k - 1] as int !in {9, 10, 11, 12, 13, 32}
  }

  lemma TidyIff(s: string)
    ensures Tidy(s) <==> Clean(s) && (s == "" || s[|s| - 1] != ' ')
  {
  }

  lemma JoinedIsInked(s: string)
    ensures Inked(Join(Words(s))) == Inked(s)
  {
    FoldedIsInked(s);
    var joined := Join(Words(s));
    if InSpace(s) && Words(s) != [] {
      InkedSnoc(joined, ' ');
    } else {
      assert joined + "" == joined;
    }
  }

  /** Folding loses no character but whitespace, leaves a tidy name, and leaves a tidy name alone. */
  lemma FoldingIs(raw: string)
    ensures var folded := Join(Words(raw));
            Inked(folded) == Inked(raw) && Tidy(folded) && (Tidy(raw) ==> folded == raw)
  {
    JoinedIsInked(raw);
    JoinedIsClean(raw);
    JoinedEndsInWord(raw);
    TidyIff(Join(Words(raw)));
    TidyIff(raw);
    if Tidy(raw) {
      JoinOfClean(raw);
    }
  }

  /** What the last character adds to the buffer. */
  function Added(inSpace: bool, c: char): string {
    if !IsSpace(c) then [c] else if inSpace then "" else " "
  }

  lemma FoldLast(s: string, init: string, c: char)
    requires s == init + [c]
    ensures Folded(s) == Folded(init) + Added(InSpace(init), c) && InSpace(s) == IsSpace(c)
  {
    FoldTurn(init, c);
  }

  lemma Regroup(whole: string, a: string, b: string, c: string, ab: string, bc: string)
    requires whole == ab + c && ab == a + b && bc == b + c
    ensures whole == a + bc
  {
  }

  lemma {:induction false} FoldAfterSpace(s: string, t: string)
    requires InSpace(s)
    ensures Folded(s + t) == Folded(s) + Folded(t) && InSpace(s + t) == InSpace(t)
  {
    if t == "" {
      assert s + t == s && Folded(t) == "";
    } else {
      var init, c := t[..|t| - 1], t[|t| - 1];
      assert s + t == s + init + [c] && t == init + [c];
      FoldAfterSpace(s, init);
      FoldLast(s + t, s + init, c);
      FoldLast(t, init, c);
      Regroup(Folded(s + t), Folded(s), Folded(init), Added(InSpace(init), c), Folded(s + init), Folded(t));
    }
  }

  lemma {:induction false} GapFolds(s: string, gap: string)
    requires gap != "" && forall k | 0 <= k < |gap| :: IsSpace(gap[k])
    ensures Folded(s + gap) == Join(Words(s)) + (if Words(s) != [] then " " else "") && InSpace(s + gap)
  {
    var init, c := gap[..|gap| - 1], gap[|gap| - 1];
    assert s + gap == s + init + [c];
    FoldTurn(s + init, c);
    if init == "" {
      assert s + init == s;
      FoldTurn(s, c);
      FoldStep(s, c);
    } else {
      GapFolds(s, init);
    }
  }

  lemma HasWords(s: string)
    requires Inked(s) != ""
    ensures Words(s) != []
  {
    FoldedIsInked(s);
  }

  lemma SameJoin(whole: string, front: string, t: string)
    requires Folded(whole) == front + Folded(t) && InSpace(whole) == InSpace(t) && Words(t) != []
    ensures Join(Words(whole)) == front + Join(Words(t))
  {
    var joined, last := Join(Words(whole)), Join(Words(t));
    if InSpace(t) {
      assert Words(whole) != [] by {
        assert Words(whole) == [] ==> Folded(whole) == "";
      }
      assert joined + " " == front + last + " ";
      assert joined == (joined + " ")[..|joined|] && front + last == (front + last + " ")[..|front + last|];
    } else {
      assert joined + "" == joined && front + (last + "") == front + last;
    }
  }

  /** Two parts of a name stay two, however wide and of whatever whitespace the gap between them. */
  lemma GapBecomesSpace(s: string, gap: string, t: string)
    requires Inked(s) != "" && Inked(t) != "" && gap != ""
    requires forall k | 0 <= k < |gap| :: gap[k] as int in {9, 10, 11, 12, 13, 32}
    ensures Join(Words(s + gap + t)) == Join(Words(s)) + " " + Join(Words(t))
  {
    HasWords(s);
    HasWords(t);
    GapFolds(s, gap);
    FoldAfterSpace(s + gap, t);
    SameJoin(s + gap + t, Join(Words(s)) + " ", t);
  }

  /** A folded name is cut right after one of its spaces. */
  predicate CutAfterSpace(folded: string) {
    var cut := TakeFit(folded, DEVICE_NAME_MAX);
    |Encode(folded)| > DEVICE_NAME_MAX && cut != "" && cut[|cut| - 1] == ' '
  }

  lemma CutAfterSpaceIff(folded: string)
    requires folded == "" || folded[|folded| - 1] != ' '
    ensures var cut := TakeFit(folded, DEVICE_NAME_MAX);
            CutAfterSpace(folded) <==> cut != "" && cut[|cut| - 1] == ' '
  {
    FitLeavesLessThanAChar(folded, DEVICE_NAME_MAX);
  }

  predicate EndsInSpace(s: string) {
    s != "" && s[|s| - 1] == ' '
  }

  lemma SettledByCut(folded: string, platformDefault: string, name: string, settled: bool)
    requires folded == "" || folded[|folded| - 1] != ' '
    requires var cut := TakeFit(folded, DEVICE_NAME_MAX); name == if cut == platformDefault then "" else cut
    requires settled <==> !EndsInSpace(name)
    ensures settled <==> !CutAfterSpace(folded) || TakeFit(folded, DEVICE_NAME_MAX) == platformDefault
  {
    CutAfterSpaceIff(folded);
  }

  lemma NormalizedIsCut(raw: string, platformDefault: string)
    ensures var cut := TakeFit(Join(Words(raw)), DEVICE_NAME_MAX);
            Normalized(raw, platformDefault) == if cut == platformDefault then "" else cut
  {
  }

  /**
   * Normalising a normalised name changes nothing except when folding leaves
   * more than 64 bytes and the cut falls right after a space, unless what is
   * left is the platform default.
   */
  lemma NormalizedTwiceIff(raw: string, platformDefault: string)
    ensures var folded, name := Join(Words(raw)), Normalized(raw, platformDefault);
            Normalized(name, platformDefault) == name
            <==> !CutAfterSpace(folded) || TakeFit(folded, DEVICE_NAME_MAX) == platformDefault
  {
    var name := Normalized(raw, platformDefault);
    SettledIff(raw, platformDefault);
    JoinedEndsInWord(raw);
    NormalizedIsCut(raw, platformDefault);
    SettledByCut(Join(Words(raw)), platformDefault, name, Normalized(name, platformDefault) == name);
  }

  /** An ASCII name of one more character than fits is cut to all but its last. */
  lemma AsciiCut(s: string)
    requires |s| == DEVICE_NAME_MAX + 1 && forall k | 0 <= k < |s| :: s[k] as int < 0x80
    ensures |Encode(s)| > DEVICE_NAME_MAX && TakeFit(s, DEVICE_NAME_MAX) == s[..DEVICE_NAME_MAX]
  {
    assert s[..|s|] == s;
    AsciiLength(s);
    AsciiLength(s[..DEVICE_NAME_MAX]);
    TakeFitIsLongest(s, DEVICE_NAME_MAX, DEVICE_NAME_MAX);
    TakeFitIsLongest(s, DEVICE_NAME_MAX, |s|);
  }

  lemma CutAtLastSpace(raw: string, platformDefault: string)
    requires |raw| == DEVICE_NAME_MAX + 1 && forall k | 0 <= k < |raw| :: raw[k] as int < 0x80
    requires Clean(raw) && raw[63] == ' ' && raw[64] != ' ' && |platformDefault| < DEVICE_NAME_MAX
    ensures Normalized(Normalized(raw, platformDefault), platformDefault) != Normalized(raw, platformDefault)
  {
    JoinOfClean(raw);
    AsciiCut(raw);
    NormalizedTwiceIff(raw, platformDefault);
  }

  /** Such a name: its second word starts at byte 65, so it is cut to 63 letters and a space, which goes next time. */
  lemma NotIdempotent()
    ensures var raw := seq(63, _ => 'a') + [' ', 'b'];
            Normalized(Normalized(raw, "x"), "x") != Normalized(raw, "x")
  {
    CutAtLastSpace(seq(63, _ => 'a') + [' ', 'b'], "x");
  }
}
