/** Colour strings: the `#rrggbb` printer for mpv, and the two parsers. */
module Color {
  import opened Prelude

  /** A u32; printers and parsers use its low 24 bits. */
  type Rgb = n: int | 0 <= n < 0x1_0000_0000

  const HASH: Byte := 35
  const SLASH: Byte := 47

  // ----- base 16 -----

  function ParseNibble(c: Byte): (n: Option<Byte>)
    ensures n.Some? ==> n.value < 16
  {
    if 48 <= c <= 57 then Some(c - 48)
    else if 97 <= c <= 102 then Some(10 + (c - 97))
    else if 65 <= c <= 70 then Some(10 + (c - 65))
    else None
  }

  /** Two digits to a byte. */
  function ParseByte(s: seq<Byte>): Option<Byte> {
    if |s| != 2 then None
    else match (ParseNibble(s[0]), ParseNibble(s[1]))
      case (Some(hi), Some(lo)) => Some(16 * hi + lo)
      case _ => None
  }

  function Pack(r: Byte, g: Byte, b: Byte): Rgb {
    65536 * r + 256 * g + b
  }

  /** x >> 4k. */
  function ShiftedRight(x: nat, k: nat): nat {
    if k == 0 then x else ShiftedRight(x / 16, k - 1)
  }

  /** The n lowest digits of x, the highest first. */
  function Digits(x: nat, n: nat): (d: seq<nat>)
    ensures |d| == n && forall i | 0 <= i < n :: d[i] < 16
  {
    if n == 0 then [] else Digits(x / 16, n - 1) + [x % 16]
  }

  function Value(d: seq<nat>): nat {
    if d == [] then 0 else 16 * Value(d[..|d| - 1]) + d[|d| - 1]
  }

  function Pow16(n: nat): nat {
    if n == 0 then 1 else 16 * Pow16(n - 1)
  }

  lemma {:induction false} DigitAt(x: nat, n: nat, i: nat)
    requires i < n
    ensures Digits(x, n)[i] == ShiftedRight(x, n - 1 - i) % 16
  {
    if i < n - 1 {
      DigitAt(x / 16, n - 1, i);
    }
  }

  lemma OneDigitMore(x: nat, p: nat, high: nat, low: nat)
    requires x / 16 == p * high + low && low < p
    ensures x == (16 * p) * high + (16 * low + x % 16) && 16 * low + x % 16 < 16 * p
  {
    assert 16 * (p * high) == (16 * p) * high;
  }

  lemma DigitsSnoc(x: nat, n: nat)
    requires n > 0
    ensures Value(Digits(x, n)) == 16 * Value(Digits(x / 16, n - 1)) + x % 16
  {
    assert Digits(x, n)[..n - 1] == Digits(x / 16, n - 1);
  }

  /** A number is its lowest digits and what is above them. */
  lemma {:induction false} DigitsHaveValue(x: nat, n: nat)
    ensures x == Pow16(n) * ShiftedRight(x, n) + Value(Digits(x, n)) && Value(Digits(x, n)) < Pow16(n)
  {
    if n > 0 {
      DigitsHaveValue(x / 16, n - 1);
      DigitsSnoc(x, n);
      OneDigitMore(x, Pow16(n - 1), ShiftedRight(x / 16, n - 1), Value(Digits(x / 16, n - 1)));
    }
  }

  /** Base 16 writes a value in one way only. */
  lemma {:induction false} SameValueSameDigits(d: seq<nat>, e: seq<nat>)
    requires |d| == |e| && (forall i | 0 <= i < |d| :: d[i] < 16 && e[i] < 16)
    requires Value(d) == Value(e)
    ensures d == e
  {
    if d != [] {
      var last := |d| - 1;
      assert d[last] < 16 && e[last] < 16;
      SameValueSameDigits(d[..last], e[..last]);
      assert d == d[..last] + [d[last]] && e == e[..last] + [e[last]];
    }
  }

  lemma LowPart(x: nat, high: nat, low: nat)
    requires x == 0x100_0000 * high + low && low < 0x100_0000
    ensures low == x % 0x100_0000
  {
  }

  lemma SixDigits(x: nat)
    ensures Value(Digits(x, 6)) == x % 0x100_0000
  {
    DigitsHaveValue(x, 6);
    assert Pow16(6) == 16 * Pow16(5) == 256 * Pow16(4) == 4096 * Pow16(3);
    assert Pow16(3) == 16 * Pow16(2) == 256 * Pow16(1) == 4096;
    LowPart(x, ShiftedRight(x, 6), Value(Digits(x, 6)));
  }

  lemma ValueOfSix(d: seq<nat>)
    requires |d| == 6
    ensures Value(d) == 1048576 * d[0] + 65536 * d[1] + 4096 * d[2] + 256 * d[3] + 16 * d[4] + d[5]
  {
    var d5, d4, d3, d2, d1 := d[..5], d[..4], d[..3], d[..2], d[..1];
    assert d5[..4] == d4 && d4[..3] == d3 && d3[..2] == d2 && d2[..1] == d1 && d1[..0] == [];
    assert Value(d1) == d[0];
    assert Value(d2) == 16 * Value(d1) + d[1];
    assert Value(d3) == 16 * Value(d2) + d[2];
    assert Value(d4) == 16 * Value(d3) + d[3];
    assert Value(d5) == 16 * Value(d4) + d[4];
  }

  // ----- printing -----

  function HexDigit(n: nat): Byte
    requires n < 16
  {
    if n < 10 then 48 + n else 97 + (n - 10)
  }

  function HexDigits(d: seq<nat>): (s: seq<Byte>)
    requires forall i | 0 <= i < |d| :: d[i] < 16
    ensures |s| == |d|
  {
    seq(|d|, i requires 0 <= i < |d| => HexDigit(d[i]))
  }

  /** The seven bytes printed for a colour: its six lowest digits. */
  function HexRgb(rgb: Rgb): seq<Byte> {
    [HASH] + HexDigits(Digits(rgb, 6))
  }

  method FormatHexRgb(rgb: Rgb, out: array<Byte>)
    requires out.Length == 8
    modifies out
    ensures out[..] == HexRgb(rgb) + [0]
  {
    out[0] := HASH;
    for i := 0 to 6
      invariant out[..1 + i] == HexRgb(rgb)[..1 + i]
    {
      var nibble := ShiftedRight(rgb, 5 - i) % 16;
      DigitAt(rgb, 6, i);
      out[1 + i] := if nibble < 10 then 48 + nibble else 97 + (nibble - 10);
      assert out[..1 + i] == HexRgb(rgb)[..1 + i];
      assert out[..2 + i] == out[..1 + i] + [out[1 + i]];
    }
    out[7] := 0;
    assert out[..7] == HexRgb(rgb);
  }

  // ----- parsing -----

  /** Six digits to a colour; anything else is black. */
  function ParseSix(hex: seq<Byte>): Rgb
    requires |hex| == 6
  {
    match (ParseByte(hex[0..2]), ParseByte(hex[2..4]), ParseByte(hex[4..6]))
    case (Some(r), Some(g), Some(b)) => Pack(r, g, b)
    case _ => 0
  }

  /** `#RGB` or `#RRGGBB`. */
  function ParseCef(s: seq<Byte>): Rgb {
    if s == [] || s[0] != HASH then 0
    else
      var hex := s[1..];
      if |hex| == 3 then
        match (ParseNibble(hex[0]), ParseNibble(hex[1]), ParseNibble(hex[2]))
        case (Some(r), Some(g), Some(b)) => Pack(r * 17, g * 17, b * 17)
        case _ => 0
      else if |hex| == 6 then ParseSix(hex)
      else 0
  }

  /** `#RRGGBB` or `#AARRGGBB`, the alpha dropped. */
  function ParseMpvHex(hex: seq<Byte>): Rgb {
    if |hex| == 6 then ParseSix(hex) else if |hex| == 8 then ParseSix(hex[2..]) else 0
  }

  /** The pieces between the slashes; always at least one. */
  function Split(s: seq<Byte>): (parts: seq<seq<Byte>>)
    ensures |parts| > 0
  {
    if s == [] then [[]]
    else
      var rest := Split(s[1..]);
      if s[0] == SLASH then [[]] + rest else [[s[0]] + rest[0]] + rest[1..]
  }

  type Unit = v: real | 0.0 <= v <= 1.0 witness 0.0

  /** A token as a component: the number its text reads as, when that lies between 0 and 1. */
  function ParseUnit(tok: seq<Byte>, number: seq<Byte> -> Option<real>): Option<Unit> {
    if tok == [] then None
    else match number(tok)
      case Some(v) => if 0.0 <= v <= 1.0 then Some(v) else None
      case None => None
  }

  /** Rounded half up, as `f64::round` does for what is not negative. */
  function Scale(v: Unit): (b: Byte)
  {
    (v * 255.0 + 0.5).Floor
  }

  /** One to four numbers: grey, grey and alpha, red-green-blue, the same and alpha. Anything else is black. */
  function SlashColor(toks: seq<seq<Byte>>, number: seq<Byte> -> Option<real>): Rgb {
    if 1 <= |toks| <= 4 && forall k | 0 <= k < |toks| :: ParseUnit(toks[k], number).Some? then
      var c := k requires 0 <= k < |toks| => Scale(ParseUnit(toks[k], number).value);
      if |toks| <= 2 then Pack(c(0), c(0), c(0)) else Pack(c(0), c(1), c(2))
    else 0
  }

  function ParsedMpv(s: seq<Byte>, number: seq<Byte> -> Option<real>): Rgb {
    if s == [] then 0
    else if s[0] == HASH then ParseMpvHex(s[1..])
    else if SLASH !in s then 0
    else SlashColor(Split(s), number)
  }

  method ParseMpv(s: seq<Byte>, number: seq<Byte> -> Option<real>) returns (rgb: Rgb)
    ensures rgb == ParsedMpv(s, number)
  {
    if s == [] {
      return 0;
    }
    if s[0] == HASH {
      return ParseMpvHex(s[1..]);
    }
    if SLASH !in s {
      return 0;
    }
    var toks := Split(s);
    var comp: seq<Unit> := [0.0, 0.0, 0.0, 0.0];
    var n := 0;
    while n < |toks|
      invariant 0 <= n <= 4 && n <= |toks| && |comp| == 4
      invariant forall k | 0 <= k < n :: ParseUnit(toks[k], number) == Some(comp[k])
    {
      if n >= 4 {
        return 0;
      }
      var v := ParseUnit(toks[n], number);
      if v == None {
        return 0;
      }
      comp := comp[n := v.value];
      n := n + 1;
    }
    if n <= 2 {
      var g := Scale(comp[0]);
      rgb := Pack(g, g, g);
    } else {
      rgb := Pack(Scale(comp[0]), Scale(comp[1]), Scale(comp[2]));
    }
  }

  // ----- printing and parsing undo each other -----

  lemma SixFromDigits(hex: seq<Byte>, d: seq<nat>)
    requires |hex| == |d| == 6 && forall i | 0 <= i < 6 :: d[i] < 16 && ParseNibble(hex[i]) == Some(d[i])
    ensures ParseSix(hex) == Value(d)
  {
    assert ParseByte(hex[0..2]) == Some(16 * d[0] + d[1]);
    assert ParseByte(hex[2..4]) == Some(16 * d[2] + d[3]);
    assert ParseByte(hex[4..6]) == Some(16 * d[4] + d[5]);
    ValueOfSix(d);
  }

  /** Both parsers read back the low 24 bits of any colour printed. */
  lemma PrintThenParse(rgb: Rgb, number: seq<Byte> -> Option<real>)
    ensures ParseCef(HexRgb(rgb)) == rgb % 0x100_0000
    ensures ParsedMpv(HexRgb(rgb), number) == rgb % 0x100_0000
  {
    var d := Digits(rgb, 6);
    SixFromDigits(HexDigits(d), d);
    SixDigits(rgb);
    assert HexRgb(rgb)[1..] == HexDigits(d);
  }

  /** Two colours print alike exactly when their low 24 bits agree. */
  lemma PrintAlikeIff(x: Rgb, y: Rgb)
    ensures HexRgb(x) == HexRgb(y) <==> x % 0x100_0000 == y % 0x100_0000
  {
    PrintThenParse(x, _ => None);
    PrintThenParse(y, _ => None);
    if x % 0x100_0000 == y % 0x100_0000 {
      SixDigits(x);
      SixDigits(y);
      SameValueSameDigits(Digits(x, 6), Digits(y, 6));
    }
  }

  predicate LowerHex(c: Byte) {
    48 <= c <= 57 || 97 <= c <= 102
  }

  /** `#` and six lower-case digits. */
  predicate Canonical(s: seq<Byte>) {
    |s| == 7 && s[0] == HASH && forall i | 1 <= i < 7 :: LowerHex(s[i])
  }

  function NibbleOf(c: Byte): (n: nat)
    requires LowerHex(c)
    ensures n < 16 && HexDigit(n) == c && ParseNibble(c) == Some(n)
  {
    if c <= 57 then c - 48 else c - 87
  }

  lemma ParsedFits(hex: seq<Byte>)
    requires |hex| == 6
    ensures ParseSix(hex) < 0x100_0000
  {
  }

  lemma DigitsOfValue(d: seq<nat>, v: nat)
    requires |d| == 6 && (forall i | 0 <= i < 6 :: d[i] < 16) && Value(d) == v < 0x100_0000
    ensures d == Digits(v, 6)
  {
    SixDigits(v);
    SameValueSameDigits(d, Digits(v, 6));
  }

  lemma ParsedHasDigits(hex: seq<Byte>, d: seq<nat>)
    requires |hex| == |d| == 6 && forall i | 0 <= i < 6 :: d[i] < 16 && ParseNibble(hex[i]) == Some(d[i])
    ensures d == Digits(ParseSix(hex), 6)
  {
    SixFromDigits(hex, d);
    ParsedFits(hex);
    DigitsOfValue(d, ParseSix(hex));
  }

  function Nibbles(hex: seq<Byte>): (d: seq<nat>)
    requires forall i | 0 <= i < |hex| :: LowerHex(hex[i])
    ensures |d| == |hex| && forall i | 0 <= i < |hex| :: d[i] < 16 && ParseNibble(hex[i]) == Some(d[i])
    ensures HexDigits(d) == hex
  {
    seq(|hex|, i requires 0 <= i < |hex| => NibbleOf(hex[i]))
  }

  lemma PrintedIsCanonical(rgb: Rgb)
    ensures Canonical(HexRgb(rgb))
  {
  }

  /** Parsing a canonical form and printing it again gives the same bytes; nothing else is printed. */
  lemma ParseThenPrintIff(s: seq<Byte>)
    ensures HexRgb(ParseCef(s)) == s <==> Canonical(s)
  {
    PrintedIsCanonical(ParseCef(s));
    if Canonical(s) {
      ParsedHasDigits(s[1..], Nibbles(s[1..]));
      assert s == [HASH] + s[1..];
    }
  }

  /** The short form means each digit doubled, and the alpha of the long mpv form never matters. */
  lemma OtherFormsAgree(r: Byte, g: Byte, b: Byte, six: seq<Byte>, alpha: seq<Byte>, number: seq<Byte> -> Option<real>)
    requires |six| == 6 && |alpha| == 2
    ensures ParseCef([HASH, r, g, b]) == ParseCef([HASH, r, r, g, g, b, b])
    ensures ParsedMpv([HASH] + alpha + six, number) == ParsedMpv([HASH] + six, number) == ParseCef([HASH] + six)
  {
    var long := [HASH, r, r, g, g, b, b][1..];
    assert long[0..2] == [r, r] && long[2..4] == [g, g] && long[4..6] == [b, b];
    assert ([HASH] + alpha + six)[1..][2..] == six;
    assert ([HASH] + six)[1..] == six;
  }

  // ----- what the parsers accept -----

  /** The byte with an upper-case letter made lower. */
  function Lowered(c: Byte): Byte {
    if 65 <= c <= 90 then c + 32 else c
  }

  /** Nothing but the case of letters tells them apart. */
  predicate SameButCase(s: seq<Byte>, t: seq<Byte>) {
    |s| == |t| && forall i | 0 <= i < |s| :: Lowered(s[i]) == Lowered(t[i])
  }

  lemma NibbleIgnoresCase(c: Byte, d: Byte)
    requires Lowered(c) == Lowered(d)
    ensures ParseNibble(c) == ParseNibble(d)
  {
  }

  lemma ByteIgnoresCase(s: seq<Byte>, t: seq<Byte>)
    requires SameButCase(s, t) && |s| == 2
    ensures ParseByte(s) == ParseByte(t)
  {
    NibbleIgnoresCase(s[0], t[0]);
    NibbleIgnoresCase(s[1], t[1]);
  }

  lemma SixIgnoresCase(s: seq<Byte>, t: seq<Byte>)
    requires SameButCase(s, t) && |s| == 6
    ensures ParseSix(s) == ParseSix(t)
  {
    ByteIgnoresCase(s[0..2], t[0..2]);
    ByteIgnoresCase(s[2..4], t[2..4]);
    ByteIgnoresCase(s[4..6], t[4..6]);
  }

  /** The case of digits never matters to either parser. */
  lemma CaseIsIgnored(s: seq<Byte>, t: seq<Byte>, number: seq<Byte> -> Option<real>)
    requires SameButCase(s, t)
    ensures ParseCef(s) == ParseCef(t)
    ensures s != [] && s[0] == HASH ==> ParsedMpv(s, number) == ParsedMpv(t, number)
  {
    if s != [] && s[0] == HASH {
      assert Lowered(s[0]) == Lowered(t[0]);
      var u, v := s[1..], t[1..];
      forall i | 0 <= i < |u| ensures Lowered(u[i]) == Lowered(v[i]) && ParseNibble(u[i]) == ParseNibble(v[i]) {
        assert Lowered(s[1 + i]) == Lowered(t[1 + i]);
      }
      if |u| == 6 {
        SixIgnoresCase(u, v);
      } else if |u| == 8 {
        SixIgnoresCase(u[2..], v[2..]);
      }
    } else if s != [] {
      assert Lowered(s[0]) == Lowered(t[0]);
    }
  }

  predicate AllHex(s: seq<Byte>) {
    forall i | 0 <= i < |s| :: LowerHex(Lowered(s[i]))
  }

  predicate AllZero(s: seq<Byte>) {
    forall i | 0 <= i < |s| :: s[i] == 48
  }

  lemma NibbleIff(c: Byte)
    ensures ParseNibble(c).Some? <==> LowerHex(Lowered(c))
    ensures ParseNibble(c) == Some(0) <==> c == 48
  {
  }

  lemma ByteBlackIff(s: seq<Byte>)
    requires |s| == 2
    ensures ParseByte(s).Some? <==> AllHex(s)
    ensures ParseByte(s) == Some(0) <==> AllZero(s)
  {
    NibbleIff(s[0]);
    NibbleIff(s[1]);
  }

  /** Three pieces make a string that is all digits, or all zeros, exactly when each of them is. */
  lemma PiecesOfSix(hex: seq<Byte>)
    requires |hex| == 6
    ensures AllHex(hex) <==> AllHex(hex[0..2]) && AllHex(hex[2..4]) && AllHex(hex[4..6])
    ensures AllZero(hex) <==> AllZero(hex[0..2]) && AllZero(hex[2..4]) && AllZero(hex[4..6])
  {
    var x, y, z := hex[0..2], hex[2..4], hex[4..6];
    assert hex[0] == x[0] && hex[1] == x[1] && hex[2] == y[0] && hex[3] == y[1] && hex[4] == z[0] && hex[5] == z[1];
  }

  lemma SixBlackIff(hex: seq<Byte>)
    requires |hex| == 6
    ensures ParseSix(hex) == 0 <==> !AllHex(hex) || AllZero(hex)
  {
    PiecesOfSix(hex);
    ByteBlackIff(hex[0..2]);
    ByteBlackIff(hex[2..4]);
    ByteBlackIff(hex[4..6]);
  }

  lemma DoubledDigits(x: Byte, y: Byte, z: Byte)
    ensures AllHex([x, x, y, y, z, z]) <==> AllHex([x, y, z])
    ensures AllZero([x, x, y, y, z, z]) <==> AllZero([x, y, z])
  {
    var t, long := [x, y, z], [x, x, y, y, z, z];
    assert t[0] == x && t[1] == y && t[2] == z;
    assert long[0] == x && long[2] == y && long[4] == z;
    forall i | 0 <= i < 6 ensures long[i] == t[i / 2] {
    }
  }

  lemma ThreeBlackIff(x: Byte, y: Byte, z: Byte)
    ensures ParseCef([HASH, x, y, z]) == 0 <==> !AllHex([x, y, z]) || AllZero([x, y, z])
  {
    var long := [x, x, y, y, z, z];
    OtherFormsAgree(x, y, z, long, [x, x], _ => None);
    SixBlackIff(long);
    DoubledDigits(x, y, z);
    assert [HASH, x, x, y, y, z, z][1..] == long;
  }

  /** A string is black exactly when it is malformed, by length, mark or digits, or spells out zeros. */
  lemma BlackIff(s: seq<Byte>)
    ensures ParseCef(s) == 0
            <==> !((|s| == 4 || |s| == 7) && s[0] == 35 && AllHex(s[1..])) || AllZero(s[1..])
  {
    if s != [] && s[0] == HASH {
      if |s| == 4 {
        ThreeBlackIff(s[1], s[2], s[3]);
        assert s == [HASH, s[1], s[2], s[3]] && s[1..] == [s[1], s[2], s[3]];
      } else if |s| == 7 {
        SixBlackIff(s[1..]);
      }
    }
  }

  /** The other parser: a mark and six digits, or eight of which the first two are not even looked at. */
  lemma MpvBlackIff(hex: seq<Byte>, number: seq<Byte> -> Option<real>)
    ensures var six := if |hex| == 8 then hex[2..] else hex;
            ParsedMpv([HASH] + hex, number) == 0 <==> |six| != 6 || !AllHex(six) || AllZero(six)
  {
    assert ([HASH] + hex)[1..] == hex;
    if |hex| == 6 {
      SixBlackIff(hex);
    } else if |hex| == 8 {
      SixBlackIff(hex[2..]);
    }
  }

  /** Without a mark and without a slash there is nothing to read. */
  lemma BareIsBlack(s: seq<Byte>, number: seq<Byte> -> Option<real>)
    requires s == [] || (s[0] != HASH && SLASH !in s)
    ensures ParsedMpv(s, number) == 0
  {
  }

  // ----- numbers between slashes -----

  lemma {:induction false} SplitPiece(tok: seq<Byte>, rest: seq<Byte>)
    requires SLASH !in tok
    ensures Split(tok + [SLASH] + rest) == [tok] + Split(rest)
  {
    var s := tok + [SLASH] + rest;
    if tok == [] {
      assert s[1..] == rest;
    } else {
      assert s[1..] == tok[1..] + [SLASH] + rest;
      SplitPiece(tok[1..], rest);
      assert [tok[0]] + tok[1..] == tok;
    }
  }

  lemma {:induction false} SplitLast(tok: seq<Byte>)
    requires SLASH !in tok
    ensures Split(tok) == [tok]
  {
    if tok != [] {
      SplitLast(tok[1..]);
      assert [tok[0]] + tok[1..] == tok;
    }
  }

  /** A component is the byte nearest to 255 times its number. */
  lemma ScaleIsNearest(v: Unit)
    ensures -0.5 <= Scale(v) as real - 255.0 * v <= 0.5 && Scale(0.0) == 0 && Scale(1.0) == 255
  {
  }

  /** A piece of the text and the number between 0 and 1 it reads as. */
  predicate Reads(tok: seq<Byte>, v: Unit, number: seq<Byte> -> Option<real>) {
    tok != [] && SLASH !in tok && tok[0] != HASH && number(tok) == Some(v)
  }

  lemma SplitThree(r: seq<Byte>, g: seq<Byte>, b: seq<Byte>)
    requires SLASH !in r && SLASH !in g && SLASH !in b
    ensures Split(r + [SLASH] + (g + [SLASH] + b)) == [r, g, b]
  {
    SplitPiece(r, g + [SLASH] + b);
    SplitPiece(g, b);
    SplitLast(b);
  }

  lemma SplitFour(r: seq<Byte>, g: seq<Byte>, b: seq<Byte>, a: seq<Byte>)
    requires SLASH !in r && SLASH !in g && SLASH !in b && SLASH !in a
    ensures Split(r + [SLASH] + (g + [SLASH] + (b + [SLASH] + a))) == [r, g, b, a]
  {
    SplitPiece(r, g + [SLASH] + (b + [SLASH] + a));
    SplitThree(g, b, a);
  }

  /** A text that begins with a piece and a slash is read by its pieces. */
  lemma SlashIsRead(tok: seq<Byte>, rest: seq<Byte>, number: seq<Byte> -> Option<real>)
    requires tok != [] && tok[0] != HASH
    ensures ParsedMpv(tok + [SLASH] + rest, number) == SlashColor(Split(tok + [SLASH] + rest), number)
  {
    assert (tok + [SLASH] + rest)[|tok|] == SLASH;
  }

  lemma PiecesAreChannels(toks: seq<seq<Byte>>, v: seq<Unit>, number: seq<Byte> -> Option<real>)
    requires |toks| == |v| && 1 <= |v| <= 4 && forall k | 0 <= k < |v| :: Reads(toks[k], v[k], number)
    ensures SlashColor(toks, number)
            == if |v| <= 2 then 65536 * Scale(v[0]) + 256 * Scale(v[0]) + Scale(v[0])
               else 65536 * Scale(v[0]) + 256 * Scale(v[1]) + Scale(v[2])
  {
    forall k | 0 <= k < |toks| ensures ParseUnit(toks[k], number) == Some(v[k]) {
      assert Reads(toks[k], v[k], number);
    }
  }

  /** Three numbers are red, green and blue, each scaled to its byte; a fourth changes nothing. */
  lemma SlashesAreChannels(
      r: seq<Byte>, g: seq<Byte>, b: seq<Byte>, a: seq<Byte>,
      vr: Unit, vg: Unit, vb: Unit, va: Unit, number: seq<Byte> -> Option<real>)
    requires Reads(r, vr, number) && Reads(g, vg, number) && Reads(b, vb, number) && Reads(a, va, number)
    ensures ParsedMpv(r + [SLASH] + (g + [SLASH] + b), number) == 65536 * Scale(vr) + 256 * Scale(vg) + Scale(vb)
    ensures ParsedMpv(r + [SLASH] + (g + [SLASH] + (b + [SLASH] + a)), number)
            == 65536 * Scale(vr) + 256 * Scale(vg) + Scale(vb)
  {
    SplitThree(r, g, b);
    SplitFour(r, g, b, a);
    SlashIsRead(r, g + [SLASH] + b, number);
    SlashIsRead(r, g + [SLASH] + (b + [SLASH] + a), number);
    PiecesAreChannels([r, g, b], [vr, vg, vb], number);
    PiecesAreChannels([r, g, b, a], [vr, vg, vb, va], number);
  }

  /** One number before an alpha is a grey, the same in all three bytes; a number alone has no slash and is black. */
  lemma SlashesAreGrey(tok: seq<Byte>, a: seq<Byte>, v: Unit, va: Unit, number: seq<Byte> -> Option<real>)
    requires Reads(tok, v, number) && Reads(a, va, number)
    ensures ParsedMpv(tok + [SLASH] + a, number) == 65536 * Scale(v) + 256 * Scale(v) + Scale(v)
    ensures ParsedMpv(tok, number) == 0
  {
    SplitPiece(tok, a);
    SplitLast(a);
    SlashIsRead(tok, a, number);
    PiecesAreChannels([tok, a], [v, va], number);
  }

  /** One piece too many, or one that is empty, no number or out of range, makes the whole text black. */
  lemma BadPieceIsBlack(s: seq<Byte>, k: nat, number: seq<Byte> -> Option<real>)
    requires s != [] && s[0] != HASH && k < |Split(s)|
    requires
      || |Split(s)| > 4
      || Split(s)[k] == []
      || number(Split(s)[k]) == None
      || number(Split(s)[k]).value < 0.0
      || number(Split(s)[k]).value > 1.0
    ensures ParsedMpv(s, number) == 0
  {
    assert |Split(s)| <= 4 ==> ParseUnit(Split(s)[k], number) == None;
  }
}
