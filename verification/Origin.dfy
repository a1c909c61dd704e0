/** Origins of http(s) URLs, server bases, and which redirects a probe follows. */
module Origin {
  import opened Prelude
  import opened Text

  const SEPARATOR := "://"
  const STOPS := {'/', '?', '#'}

  datatype Origin = Origin(scheme: string, host: string, port: nat)

  // ----- parsing -----

  /** Index of the first scheme separator. */
  function FindSeparator(s: string): (i: Option<nat>)
    ensures i.Some? ==> i.value + 3 <= |s| && s[i.value..i.value + 3] == SEPARATOR
  {
    if |s| < 3 then None
    else if s[..3] == SEPARATOR then Some(0)
    else
      match FindSeparator(s[1..])
      case None => None
      case Some(i) =>
        assert s[1..][i..i + 3] == s[i + 1..i + 4];
        Some(i + 1)
  }

  function AuthorityStart(url: string): (n: nat)
    ensures n <= |url|
  {
    match FindSeparator(url)
    case None => 0
    case Some(i) => i + 3
  }

  function SchemeLength(url: string): nat {
    if StartsWithFold(url, "http://") then 7 else if StartsWithFold(url, "https://") then 8 else 0
  }

  predicate IsHttpUrl(url: string) {
    var n := SchemeLength(url);
    n > 0 && Printable(url) && FirstOf(url[n..], STOPS) > 0
  }

  function DefaultPort(scheme: string): nat {
    if scheme == "http" then 80 else if scheme == "https" then 443 else 0
  }

  datatype HostPort = HostPort(host: string, port: Option<nat>)

  /** Host and port text of an authority without userinfo. */
  function SplitHost(a: string): Option<(string, string)> {
    var close := FirstOf(a, {']'});
    if close < |a| then
      var rest := a[close + 1..];
      if rest == "" then Some((a[..close + 1], ""))
      else if rest[0] == ':' then Some((a[..close + 1], rest[1..]))
      else None
    else
      var colon := LastOf(a, ':');
      if colon >= 0 then Some((a[..colon], a[colon + 1..])) else Some((a, ""))
  }

  function SplitHostPort(a: string): Option<HostPort> {
    if a == "" then None
    else
      match SplitHost(a)
      case None => None
      case Some((host, port)) =>
        if host == "" then None
        else if port == "" then Some(HostPort(Lower(host), None))
        else
          match ParseU16(port)
          case None => None
          case Some(p) => Some(HostPort(Lower(host), Some(p)))
  }

  /** What follows the userinfo, which goes up to the last at sign. */
  function WithoutUserinfo(authority: string): string {
    authority[LastOf(authority, '@') + 1..]
  }

  function SplitAuthority(authority: string): Option<HostPort> {
    SplitHostPort(WithoutUserinfo(authority))
  }

  function OriginOf(scheme: string, parts: Option<HostPort>): Option<Origin> {
    match parts
    case None => None
    case Some(hp) => Some(Origin(scheme, hp.host, if hp.port.Some? then hp.port.value else DefaultPort(scheme)))
  }

  lemma {:induction false} FirstSeparator(s: string, i: nat)
    requires i + 3 <= |s| && s[i..i + 3] == SEPARATOR && forall k | 0 <= k < i :: s[k] != ':'
    ensures FindSeparator(s) == Some(i)
  {
    if i > 0 {
      assert s[..3][0] != SEPARATOR[0];
      assert s[1..][i - 1..i + 2] == s[i..i + 3];
      FirstSeparator(s[1..], i - 1);
    }
  }

  /** Up to its scheme an http(s) URL has no colon, so the first separator is the scheme's own. */
  lemma SeparatorAfterScheme(url: string)
    requires SchemeLength(url) > 0
    ensures AuthorityStart(url) == SchemeLength(url)
    ensures Lower(url[..SchemeLength(url) - 3]) == if SchemeLength(url) == 7 then "http" else "https"
  {
    var n := SchemeLength(url);
    var prefix := if n == 7 then "http://" else "https://";
    assert forall k | 0 <= k < n :: LowerChar(url[k]) == prefix[k];
    assert Lower(url[..n - 3]) == prefix[..n - 3];
    FirstSeparator(url, n - 3);
  }

  function ParseOrigin(url: string): Option<Origin> {
    if !IsHttpUrl(url) then None
    else
      SeparatorAfterScheme(url);
      var start := AuthorityStart(url);
      var scheme := Lower(url[..start - 3]);
      var rest := url[start..];
      OriginOf(scheme, SplitAuthority(rest[..FirstOf(rest, STOPS)]))
  }

  function ToUrl(o: Origin): string {
    o.scheme + SEPARATOR + o.host + if o.port == DefaultPort(o.scheme) then "" else ":" + Decimal(o.port)
  }

  // ----- printing and parsing again -----

  predicate Bracketed(host: string) {
    host != "" && host[|host| - 1] == ']'
  }

  /** Nothing in `s` ends an authority or makes a URL unprintable. */
  predicate AuthorityText(s: string) {
    Printable(s) && forall k | 0 <= k < |s| :: s[k] !in STOPS
  }

  predicate NoEarlyBracket(host: string) {
    forall k | 0 <= k < |host| - 1 :: host[k] != ']'
  }

  predicate HostText(host: string) {
    host != "" && AuthorityText(host) && NoEarlyBracket(host) && forall k | 0 <= k < |host| :: host[k] != '@'
  }

  /** The origins parsing can yield. */
  predicate WellFormed(o: Origin) {
    && (o.scheme == "http" || o.scheme == "https")
    && o.port < 0x1_0000 && HostText(o.host) && Lower(o.host) == o.host
  }

  lemma LowerKeepsHostText(host: string)
    requires HostText(host)
    ensures HostText(Lower(host)) && Lower(Lower(host)) == Lower(host)
  {
  }

  lemma SplitHostIsPrefix(a: string)
    requires SplitHost(a).Some?
    ensures SplitHost(a).value.0 <= a && NoEarlyBracket(SplitHost(a).value.0)
  {
    FirstOfIff(a, {']'}, FirstOf(a, {']'}));
  }

  lemma PartIsText(s: string, from: nat, to: nat)
    requires AuthorityText(s) && from <= to <= |s|
    ensures AuthorityText(s[from..to])
  {
    forall k | 0 <= k < to - from
      ensures !IsControl(s[from..to][k]) && !IsWhitespace(s[from..to][k]) && s[from..to][k] !in STOPS
    {
      assert s[from..to][k] == s[from + k];
    }
  }

  lemma PartIsHostText(s: string, from: nat, n: nat)
    requires AuthorityText(s) && from + n <= |s| && forall k | from <= k < |s| :: s[k] != '@'
    ensures AuthorityText(s[from..][..n]) && forall k | 0 <= k < n :: s[from..][..n][k] != '@'
  {
    PartIsText(s, from, from + n);
    assert s[from..][..n] == s[from..from + n];
  }

  /** What is left of an authority after its userinfo, and any front part of that, is host text. */
  lemma AfterUserinfo(authority: string, n: nat)
    requires AuthorityText(authority)
    requires n <= |authority| - (LastOf(authority, '@') + 1)
    ensures var host := authority[LastOf(authority, '@') + 1..][..n];
            AuthorityText(host) && forall k | 0 <= k < n :: host[k] != '@'
  {
    LastOfIff(authority, '@', LastOf(authority, '@'));
    PartIsHostText(authority, LastOf(authority, '@') + 1, n);
  }

  lemma HostPartIsText(authority: string, host: string)
    requires AuthorityText(authority) && host != "" && NoEarlyBracket(host)
    requires host <= authority[LastOf(authority, '@') + 1..]
    ensures HostText(host)
  {
    AfterUserinfo(authority, |host|);
    assert host == authority[LastOf(authority, '@') + 1..][..|host|];
  }

  lemma LoweredPartIsText(authority: string, raw: string)
    requires AuthorityText(authority) && raw != "" && NoEarlyBracket(raw)
    requires raw <= authority[LastOf(authority, '@') + 1..]
    ensures HostText(Lower(raw)) && Lower(Lower(raw)) == Lower(raw)
  {
    HostPartIsText(authority, raw);
    LowerKeepsHostText(raw);
  }

  lemma HostOfHostPort(a: string, hp: HostPort)
    requires SplitHostPort(a) == Some(hp)
    ensures SplitHost(a).Some? && SplitHost(a).value.0 != ""
    ensures hp.host == Lower(SplitHost(a).value.0) && (hp.port.Some? ==> hp.port.value < 0x1_0000)
  {
  }

  lemma HostOfPart(authority: string, a: string, hp: HostPort)
    requires AuthorityText(authority) && a == authority[LastOf(authority, '@') + 1..]
    requires SplitHostPort(a) == Some(hp)
    ensures HostText(hp.host) && Lower(hp.host) == hp.host && (hp.port.Some? ==> hp.port.value < 0x1_0000)
  {
    HostOfHostPort(a, hp);
    SplitHostIsPrefix(a);
    LoweredPartIsText(authority, SplitHost(a).value.0);
  }

  lemma HostOfAuthority(authority: string, a: string, parts: Option<HostPort>)
    requires AuthorityText(authority) && a == WithoutUserinfo(authority)
    requires parts == SplitHostPort(a) && parts.Some?
    ensures HostText(parts.value.host) && Lower(parts.value.host) == parts.value.host
    ensures parts.value.port.Some? ==> parts.value.port.value < 0x1_0000
  {
    HostOfPart(authority, a, parts.value);
  }

  lemma AuthorityOfUrl(url: string, start: nat)
    requires start <= |url| && Printable(url)
    ensures AuthorityText(url[start..][..FirstOf(url[start..], STOPS)])
  {
    var rest := url[start..];
    var end := FirstOf(rest, STOPS);
    FirstOfIff(rest, STOPS, end);
    assert forall k | 0 <= k < end :: rest[..end][k] == url[start + k];
  }

  lemma ParsedIsWellFormed(url: string)
    requires ParseOrigin(url).Some?
    ensures WellFormed(ParseOrigin(url).value)
  {
    SeparatorAfterScheme(url);
    var start := AuthorityStart(url);
    AuthorityOfUrl(url, start);
    var authority := url[start..][..FirstOf(url[start..], STOPS)];
    HostOfAuthority(authority, WithoutUserinfo(authority), SplitAuthority(authority));
  }

  /** The scheme prefix of a URL put together from its parts. */
  lemma SchemeOfParts(scheme: string, rest: string)
    requires scheme == "http" || scheme == "https"
    ensures var url := scheme + SEPARATOR + rest;
            SchemeLength(url) == |scheme| + 3 && url[|scheme| + 3..] == rest
            && AuthorityStart(url) == |scheme| + 3 && Lower(url[..|scheme|]) == scheme
  {
    var url := scheme + SEPARATOR + rest;
    var n := |scheme| + 3;
    assert url[..n] == scheme + SEPARATOR;
    assert Lower(url[..n]) == scheme + SEPARATOR;
    if scheme == "https" {
      assert Lower(url[..7])[4] == 's';
    }
    SeparatorAfterScheme(url);
  }

  lemma AuthorityEnds(authority: string, suffix: string)
    requires AuthorityText(authority) && (suffix == "" || suffix[0] in STOPS)
    ensures FirstOf(authority + suffix, STOPS) == |authority|
    ensures (authority + suffix)[..|authority|] == authority
  {
    FirstOfIff(authority + suffix, STOPS, |authority|);
  }

  lemma PrintableParts(scheme: string, authority: string, suffix: string)
    requires scheme == "http" || scheme == "https"
    requires Printable(authority) && Printable(suffix)
    ensures Printable(scheme + SEPARATOR + (authority + suffix))
  {
    assert Printable(scheme + SEPARATOR) && Printable(authority + suffix);
  }

  /** An http(s) scheme, an authority and a suffix parse as exactly those parts. */
  lemma ParseParts(scheme: string, authority: string, suffix: string)
    requires scheme == "http" || scheme == "https"
    requires authority != "" && AuthorityText(authority)
    requires Printable(suffix) && (suffix == "" || suffix[0] in STOPS)
    ensures ParseOrigin(scheme + SEPARATOR + (authority + suffix)) == OriginOf(scheme, SplitAuthority(authority))
  {
    SchemeOfParts(scheme, authority + suffix);
    AuthorityEnds(authority, suffix);
    PrintableParts(scheme, authority, suffix);
  }

  lemma SplitBracketed(host: string, rest: string)
    requires Bracketed(host) && NoEarlyBracket(host)
    ensures FirstOf(host + rest, {']'}) == |host| - 1
    ensures (host + rest)[..|host|] == host && (host + rest)[|host|..] == rest
  {
    FirstOfIff(host + rest, {']'}, |host| - 1);
  }

  lemma SplitUnbracketed(host: string, port: string)
    requires !Bracketed(host) && NoEarlyBracket(host) && Digits(port)
    ensures FirstOf(host + (":" + port), {']'}) == |host + (":" + port)|
    ensures LastOf(host + (":" + port), ':') == |host|
    ensures (host + (":" + port))[..|host|] == host && (host + (":" + port))[|host| + 1..] == port
  {
    FirstOfIff(host + (":" + port), {']'}, |host + (":" + port)|);
    LastOfIff(host + (":" + port), ':', |host|);
  }

  lemma SplitPrinted(host: string, port: string)
    requires host != "" && NoEarlyBracket(host) && Digits(port) && port != ""
    ensures SplitHost(host + ":" + port) == Some((host, port))
  {
    assert host + ":" + port == host + (":" + port);
    if Bracketed(host) {
      SplitBracketed(host, ":" + port);
    } else {
      SplitUnbracketed(host, port);
    }
  }

  lemma SplitBare(host: string)
    requires host != "" && NoEarlyBracket(host)
    ensures Bracketed(host) || ':' !in host ==> SplitHost(host) == Some((host, ""))
    ensures !Bracketed(host) && ':' in host ==> SplitHost(host).Some? && |SplitHost(host).value.0| < |host|
  {
    if Bracketed(host) {
      assert host + "" == host;
      SplitBracketed(host, "");
    } else {
      FirstOfIff(host, {']'}, |host|);
      LastOfIff(host, ':', -1);
    }
  }

  lemma NoUserinfo(a: string)
    requires forall k | 0 <= k < |a| :: a[k] != '@'
    ensures a[LastOf(a, '@') + 1..] == a
  {
    AbsentLast(a, '@');
  }

  lemma SplitBareHostPort(host: string)
    requires host != "" && NoEarlyBracket(host) && Lower(host) == host
    ensures Bracketed(host) || ':' !in host ==> SplitHostPort(host) == Some(HostPort(host, None))
    ensures !Bracketed(host) && ':' in host && SplitHostPort(host).Some? ==> |SplitHostPort(host).value.host| < |host|
  {
    SplitBare(host);
  }

  lemma BareAuthority(o: Origin)
    requires WellFormed(o) && o.port == DefaultPort(o.scheme)
    ensures OriginOf(o.scheme, SplitAuthority(o.host)) == Some(o) <==> Bracketed(o.host) || ':' !in o.host
  {
    NoUserinfo(o.host);
    SplitBareHostPort(o.host);
  }

  lemma PrintedIsAuthorityText(o: Origin)
    requires WellFormed(o)
    ensures AuthorityText(o.host + ":" + Decimal(o.port))
  {
    var port := Decimal(o.port);
    assert forall k | 0 <= k < |port| :: IsDigit(port[k]);
  }

  lemma PrintedAuthority(o: Origin)
    requires WellFormed(o)
    ensures SplitAuthority(o.host + ":" + Decimal(o.port)) == Some(HostPort(o.host, Some(o.port)))
  {
    var port := Decimal(o.port);
    assert forall k | 0 <= k < |port| :: IsDigit(port[k]);
    NoUserinfo(o.host + ":" + port);
    SplitPrinted(o.host, port);
    PortRoundTrip(o.port);
  }

  lemma Regroup(a: string, b: string, c: string, d: string)
    ensures a + b + c + d == a + b + (c + d)
  {
  }

  /**
   * Printing an origin and parsing it again, whatever path, query or fragment
   * follows, gives the origin back exactly when its host is bracketed or free
   * of colons, or its port is printed.
   */
  lemma PrintThenParseIff(o: Origin, suffix: string)
    requires WellFormed(o) && Printable(suffix) && (suffix == "" || suffix[0] in STOPS)
    ensures ParseOrigin(ToUrl(o) + suffix) == Some(o)
            <==> Bracketed(o.host) || ':' !in o.host || o.port != DefaultPort(o.scheme)
  {
    if o.port == DefaultPort(o.scheme) {
      Regroup(o.scheme, SEPARATOR, o.host, suffix);
      assert ToUrl(o) == o.scheme + SEPARATOR + o.host;
      ParseParts(o.scheme, o.host, suffix);
      BareAuthority(o);
    } else {
      var authority := o.host + ":" + Decimal(o.port);
      Regroup(o.scheme, SEPARATOR, authority, suffix);
      assert ToUrl(o) == o.scheme + SEPARATOR + authority;
      PrintedIsAuthorityText(o);
      PrintedAuthority(o);
      ParseParts(o.scheme, authority, suffix);
    }
  }

  /** The same for the origin of any URL that has one. */
  lemma ParsedPrintsBackIff(url: string, suffix: string)
    requires ParseOrigin(url).Some? && Printable(suffix) && (suffix == "" || suffix[0] in STOPS)
    ensures var o := ParseOrigin(url).value;
            ParseOrigin(ToUrl(o) + suffix) == Some(o)
            <==> Bracketed(o.host) || ':' !in o.host || o.port != DefaultPort(o.scheme)
  {
    ParsedIsWellFormed(url);
    PrintThenParseIff(ParseOrigin(url).value, suffix);
  }

  /** Every well-formed origin is some URL's: the one that spells its port out. */
  lemma WellFormedIsParsed(o: Origin)
    requires WellFormed(o)
    ensures ParseOrigin(o.scheme + SEPARATOR + (o.host + ":" + Decimal(o.port))) == Some(o)
  {
    var authority := o.host + ":" + Decimal(o.port);
    PrintedIsAuthorityText(o);
    PrintedAuthority(o);
    assert authority + "" == authority;
    ParseParts(o.scheme, authority, "");
  }

  lemma LostWithoutPort(o: Origin)
    requires WellFormed(o) && !Bracketed(o.host) && ':' in o.host && o.port == DefaultPort(o.scheme)
    ensures ParseOrigin(ToUrl(o)) != Some(o)
  {
    assert ToUrl(o) + "" == ToUrl(o);
    PrintThenParseIff(o, "");
  }

  lemma EightyIsPrinted()
    ensures Decimal(80) == "80"
  {
    assert Decimal(8) == "8";
  }

  /** Such an origin comes up: this URL's. Printed, it loses its port and does not parse back. */
  lemma BareLoopbackIsLost()
    ensures ParseOrigin("http" + SEPARATOR + "::1:80") == Some(Origin("http", "::1", 80))
    ensures ParseOrigin(ToUrl(Origin("http", "::1", 80))) != Some(Origin("http", "::1", 80))
  {
    var o := Origin("http", "::1", 80);
    EightyIsPrinted();
    assert o.host[0] == ':' && Lower(o.host) == o.host;
    assert o.host + ":" + Decimal(o.port) == "::1:80";
    WellFormedIsParsed(o);
    LostWithoutPort(o);
  }

  // ----- letter case, userinfo and the empty port -----

  /** The same text but for the case of letters. */
  predicate Folds(s: string, t: string) {
    Lower(s) == Lower(t)
  }

  predicate IsLetter(c: char) {
    'A' <= c <= 'Z' || 'a' <= c <= 'z'
  }

  lemma FoldAt(s: string, t: string, k: nat)
    requires Folds(s, t) && k < |s|
    ensures |t| == |s| && (s[k] == t[k] || (IsLetter(s[k]) && IsLetter(t[k])))
  {
    assert Lower(s)[k] == Lower(t)[k];
  }

  lemma FoldSlice(s: string, t: string, i: nat, j: nat)
    requires Folds(s, t) && i <= j <= |s|
    ensures |t| == |s| && Folds(s[i..j], t[i..j])
  {
    assert |Lower(s)| == |Lower(t)|;
    assert Lower(s[i..j]) == Lower(s)[i..j] && Lower(t[i..j]) == Lower(t)[i..j];
  }

  lemma FoldTake(s: string, t: string, j: nat)
    requires Folds(s, t) && j <= |s|
    ensures |t| == |s| && Folds(s[..j], t[..j])
  {
    FoldSlice(s, t, 0, j);
  }

  lemma FoldDrop(s: string, t: string, i: nat)
    requires Folds(s, t) && i <= |s|
    ensures |t| == |s| && Folds(s[i..], t[i..])
  {
    FoldSlice(s, t, i, |s|);
  }

  lemma FoldPrintable(s: string, t: string)
    requires Folds(s, t) && Printable(s)
    ensures Printable(t)
  {
    assert |Lower(s)| == |Lower(t)|;
    forall k | 0 <= k < |t| ensures !IsControl(t[k]) && !IsWhitespace(t[k]) {
      FoldAt(s, t, k);
    }
  }

  lemma FoldFirst(s: string, t: string, stops: set<char>)
    requires Folds(s, t) && forall c | c in stops :: !IsLetter(c)
    ensures FirstOf(s, stops) == FirstOf(t, stops)
  {
    var n := FirstOf(s, stops);
    FirstOfIff(s, stops, n);
    assert |Lower(s)| == |Lower(t)|;
    forall k | 0 <= k <= n && k < |s| ensures s[k] in stops <==> t[k] in stops {
      FoldAt(s, t, k);
    }
    FirstOfIff(t, stops, n);
  }

  lemma FoldLast(s: string, t: string, c: char)
    requires Folds(s, t) && !IsLetter(c)
    ensures LastOf(s, c) == LastOf(t, c)
  {
    var n := LastOf(s, c);
    LastOfIff(s, c, n);
    assert |Lower(s)| == |Lower(t)|;
    forall k | n <= k < |s| && 0 <= k ensures s[k] == c <==> t[k] == c {
      FoldAt(s, t, k);
    }
    LastOfIff(t, c, n);
  }

  lemma FoldDigits(s: string, t: string)
    requires Folds(s, t) && Digits(s)
    ensures s == t
  {
    assert |Lower(s)| == |Lower(t)|;
    forall k | 0 <= k < |s| ensures s[k] == t[k] {
      FoldAt(s, t, k);
    }
  }

  lemma FoldPort(s: string, t: string)
    requires Folds(s, t)
    ensures ParseU16(s) == ParseU16(t)
  {
    assert |Lower(s)| == |Lower(t)|;
    if s != "" {
      FoldAt(s, t, 0);
      var k := if s[0] == '+' then 1 else 0;
      FoldSlice(s, t, k, |s|);
      assert s[0..|s|] == s && t[0..|t|] == t;
      if Digits(s[k..]) {
        FoldDigits(s[k..], t[k..]);
      } else if Digits(t[k..]) {
        FoldDigits(t[k..], s[k..]);
      }
    }
  }

  predicate FoldParts(a: Option<(string, string)>, b: Option<(string, string)>) {
    match (a, b)
    case (Some(x), Some(y)) => Folds(x.0, y.0) && Folds(x.1, y.1)
    case (None, None) => true
    case _ => false
  }

  lemma FoldSplitBracket(s: string, t: string)
    requires Folds(s, t) && FirstOf(s, {']'}) < |s| && FirstOf(s, {']'}) == FirstOf(t, {']'})
    ensures FoldParts(SplitHost(s), SplitHost(t))
  {
    var end := FirstOf(s, {']'}) + 1;
    FoldTake(s, t, end);
    FoldDrop(s, t, end);
    if end < |s| {
      FoldAt(s, t, end);
      FoldDrop(s[end..], t[end..], 1);
    }
  }

  lemma FoldSplitColon(s: string, t: string)
    requires Folds(s, t) && FirstOf(s, {']'}) == |s| && FirstOf(t, {']'}) == |t|
    ensures FoldParts(SplitHost(s), SplitHost(t))
  {
    assert |Lower(s)| == |Lower(t)|;
    FoldLast(s, t, ':');
    var colon := LastOf(s, ':');
    if colon >= 0 {
      FoldTake(s, t, colon);
      FoldDrop(s, t, colon + 1);
    }
  }

  lemma FoldSplitHost(s: string, t: string)
    requires Folds(s, t)
    ensures FoldParts(SplitHost(s), SplitHost(t))
  {
    assert |Lower(s)| == |Lower(t)|;
    FoldFirst(s, t, {']'});
    if FirstOf(s, {']'}) < |s| {
      FoldSplitBracket(s, t);
    } else {
      FoldSplitColon(s, t);
    }
  }

  lemma FoldHostPort(s: string, t: string)
    requires Folds(s, t)
    ensures SplitHostPort(s) == SplitHostPort(t)
  {
    FoldSplitHost(s, t);
    match (SplitHost(s), SplitHost(t)) {
      case (Some(a), Some(b)) =>
        assert |Lower(a.0)| == |Lower(b.0)| && |Lower(a.1)| == |Lower(b.1)|;
        FoldPort(a.1, b.1);
      case _ =>
    }
    assert |Lower(s)| == |Lower(t)|;
  }

  lemma FoldAuthority(s: string, t: string)
    requires Folds(s, t)
    ensures SplitAuthority(s) == SplitAuthority(t)
  {
    FoldLast(s, t, '@');
    var at := LastOf(s, '@') + 1;
    FoldDrop(s, t, at);
    FoldHostPort(s[at..], t[at..]);
    assert SplitAuthority(s) == SplitHostPort(s[at..]) && SplitAuthority(t) == SplitHostPort(t[at..]);
  }

  /** The authority of a URL with an http(s) scheme. */
  function AuthorityOf(url: string): string
    requires SchemeLength(url) > 0
  {
    var n := SchemeLength(url);
    assert n <= |url|;
    url[n..][..FirstOf(url[n..], STOPS)]
  }

  lemma FoldScheme(s: string, t: string)
    requires Folds(s, t)
    ensures SchemeLength(s) == SchemeLength(t) && (IsHttpUrl(s) <==> IsHttpUrl(t))
    ensures SchemeLength(s) > 0 ==> Folds(AuthorityOf(s), AuthorityOf(t))
  {
    assert |Lower(s)| == |Lower(t)|;
    if |s| >= 7 {
      FoldSlice(s, t, 0, 7);
    }
    if |s| >= 8 {
      FoldSlice(s, t, 0, 8);
    }
    var n := SchemeLength(s);
    if n > 0 {
      FoldSlice(s, t, n, |s|);
      FoldFirst(s[n..], t[n..], STOPS);
      FoldSlice(s[n..], t[n..], 0, FirstOf(s[n..], STOPS));
    }
    if Printable(s) {
      FoldPrintable(s, t);
    } else if Printable(t) {
      FoldPrintable(t, s);
    }
  }

  lemma ParseByAuthority(url: string)
    requires SchemeLength(url) > 0
    ensures AuthorityStart(url) == SchemeLength(url)
    ensures ParseOrigin(url) == if !Printable(url) || AuthorityOf(url) == "" then None
                                else OriginOf(Lower(url[..SchemeLength(url) - 3]), SplitAuthority(AuthorityOf(url)))
  {
    SeparatorAfterScheme(url);
  }

  /** Letter case never matters to an origin. */
  lemma FoldOrigin(s: string, t: string)
    requires Folds(s, t)
    ensures ParseOrigin(s) == ParseOrigin(t)
  {
    FoldScheme(s, t);
    var n := SchemeLength(s);
    if n > 0 {
      assert |Lower(s)| == |Lower(t)|;
      FoldSlice(s, t, 0, n - 3);
      ParseByAuthority(s);
      ParseByAuthority(t);
      FoldAuthority(AuthorityOf(s), AuthorityOf(t));
      assert |Lower(AuthorityOf(s))| == |Lower(AuthorityOf(t))|;
    }
  }

  /** Neither does userinfo, up to the last at sign. */
  lemma UserinfoIsDropped(user: string, a: string)
    requires forall k | 0 <= k < |a| :: a[k] != '@'
    ensures SplitAuthority(user + "@" + a) == SplitAuthority(a)
  {
    var s := user + "@" + a;
    LastOfIff(s, '@', |user|);
    NoUserinfo(a);
    assert s[|user| + 1..] == a;
  }

  /** A colon without a port means the scheme's own. */
  lemma EmptyPortIsDefault(host: string)
    requires HostText(host) && Lower(host) == host
    ensures SplitAuthority(host + ":") == Some(HostPort(host, None))
  {
    NoUserinfo(host + ":");
    assert host + (":" + "") == host + ":";
    if Bracketed(host) {
      SplitBracketed(host, ":");
    } else {
      SplitUnbracketed(host, "");
    }
  }

  lemma SplitAfterBracket(host: string, rest: string)
    requires Bracketed(host) && NoEarlyBracket(host)
    ensures SplitHost(host + rest)
            == if rest == "" then Some((host, ""))
               else if rest[0] == ':' then Some((host, rest[1..]))
               else None
  {
    SplitBracketed(host, rest);
  }

  lemma PartsParse(a: string, host: string, rest: string)
    requires a != "" && host != "" && Lower(host) == host
    requires SplitHost(a) == if rest == "" then Some((host, ""))
                             else if rest[0] == ':' then Some((host, rest[1..]))
                             else None
    ensures SplitHostPort(a)
            == if rest == "" || rest == ":" then Some(HostPort(host, None))
               else if rest[0] == ':' && ParseU16(rest[1..]).Some? then Some(HostPort(host, ParseU16(rest[1..])))
               else None
  {
    assert rest != "" && rest[0] == ':' && rest[1..] == "" ==> rest == ":";
  }

  /** After a bracketed host comes the end, or a colon and a port that may be left out, and nothing else. */
  lemma AfterBracketIff(host: string, rest: string)
    requires Bracketed(host) && HostText(host) && Lower(host) == host
    requires forall k | 0 <= k < |rest| :: rest[k] != '@'
    ensures var parts := SplitAuthority(host + rest);
            && (parts.Some? <==> rest == "" || rest == ":" || (rest[0] == ':' && ParseU16(rest[1..]).Some?))
            && (parts.Some? ==>
                  parts.value == HostPort(host, if rest == "" || rest == ":" then None else ParseU16(rest[1..])))
  {
    NoUserinfo(host + rest);
    SplitAfterBracket(host, rest);
    PartsParse(host + rest, host, rest);
  }

  // ----- server bases -----

  /** Index of the last `/web`, whatever its case. */
  function LastWeb(s: string): (i: Option<nat>)
    ensures i.Some? ==> i.value + 4 <= |s| && s[i.value] == '/'
  {
    if |s| < 4 then None
    else if Lower(s[|s| - 4..]) == "/web" then
      assert LowerChar(s[|s| - 4..][0]) == '/';
      Some(|s| - 4)
    else
      LastWeb(s[..|s| - 1])
  }

  function BaseEnd(rest: string): (n: nat)
    ensures n <= |rest| && (n < |rest| ==> rest[n] == '/')
  {
    match LastWeb(rest)
    case Some(i) => i
    case None => FirstOfIff(rest, {'/'}, FirstOf(rest, {'/'})); FirstOf(rest, {'/'})
  }

  /** Everything up to the last `/web` after the scheme, or else up to the first slash. */
  function ExtractBaseUrl(url: string): string {
    var start := AuthorityStart(url);
    url[..start + BaseEnd(url[start..])]
  }

  /** `/web` at k, whatever its case. */
  predicate IsWebAt(s: string, k: nat) {
    k + 4 <= |s| && Lower(s[k..k + 4]) == "/web"
  }

  ghost predicate IsLastWeb(s: string, n: nat) {
    IsWebAt(s, n) && forall k | n < k :: !IsWebAt(s, k)
  }

  ghost predicate NoWeb(s: string) {
    forall k: nat :: !IsWebAt(s, k)
  }

  lemma {:induction false} LastWebIs(s: string)
    ensures match LastWeb(s) case Some(n) => IsLastWeb(s, n) case None => NoWeb(s)
  {
    if |s| >= 4 {
      var init := s[..|s| - 1];
      assert s[|s| - 4..] == s[|s| - 4..|s| - 4 + 4];
      if !IsWebAt(s, |s| - 4) {
        LastWebIs(init);
        forall k: nat ensures IsWebAt(s, k) == IsWebAt(init, k) {
          assert k + 4 <= |init| ==> init[k..k + 4] == s[k..k + 4];
        }
      }
    }
  }

  /** Where the base of what follows the scheme ends: at the last `/web`, or with none at the first slash or the end. */
  ghost predicate IsBaseEnd(rest: string, n: nat) {
    IsLastWeb(rest, n) || (NoWeb(rest) && IsFirstOf(rest, {'/'}, n))
  }

  lemma BaseEndIff(rest: string, n: nat)
    ensures BaseEnd(rest) == n <==> IsBaseEnd(rest, n)
  {
    LastWebIs(rest);
    FirstOfIff(rest, {'/'}, n);
    match LastWeb(rest) {
      case Some(i) =>
        assert IsWebAt(rest, i);
      case None =>
    }
  }

  /** The server base is the URL up to exactly that place. */
  lemma ExtractBaseUrlIff(url: string, n: nat)
    requires AuthorityStart(url) + n <= |url|
    ensures ExtractBaseUrl(url) == url[..AuthorityStart(url) + n] <==> IsBaseEnd(url[AuthorityStart(url)..], n)
  {
    var rest := url[AuthorityStart(url)..];
    BaseEndIff(rest, n);
    assert |url[..AuthorityStart(url) + n]| == AuthorityStart(url) + n;
    assert |ExtractBaseUrl(url)| == AuthorityStart(url) + BaseEnd(rest);
  }

  lemma {:induction false} PrefixSeparator(s: string, t: string)
    requires FindSeparator(s).Some?
    ensures FindSeparator(s + t) == FindSeparator(s)
  {
    assert (s + t)[..3] == s[..3];
    if s[..3] != SEPARATOR {
      assert (s + t)[1..] == s[1..] + t;
      PrefixSeparator(s[1..], t);
    }
  }

  lemma WebAfterPrefix(front: string, back: string, k: nat)
    ensures IsWebAt(front + back, |front| + k) <==> IsWebAt(back, k)
  {
    if k + 4 <= |back| {
      assert (front + back)[|front| + k..|front| + k + 4] == back[k..k + 4];
    }
  }

  lemma LastWebAfterPrefix(front: string, back: string)
    requires IsWebAt(back, 0) && forall k | 0 < k :: !IsWebAt(back, k)
    ensures IsLastWeb(front + back, |front|)
  {
    WebAfterPrefix(front, back, 0);
    forall k | |front| < k ensures !IsWebAt(front + back, k) {
      WebAfterPrefix(front, back, k - |front|);
    }
  }

  lemma CutAtBase(base: string, page: string, start: nat)
    requires start <= |base|
    ensures (base + page)[start..] == base[start..] + page && (base + page)[..|base|] == base
  {
  }

  lemma LastWebEndsBase(url: string, rest: string, start: nat, n: nat)
    requires start == AuthorityStart(url) && start + n <= |url| && rest == url[start..] && IsLastWeb(rest, n)
    ensures ExtractBaseUrl(url) == url[..start + n]
  {
    ExtractBaseUrlIff(url, n);
  }

  lemma BaseBeforePage(base: string, page: string, start: nat)
    requires start <= |base| && AuthorityStart(base + page) == start
    requires IsWebAt(page, 0) && forall k | 0 < k :: !IsWebAt(page, k)
    ensures ExtractBaseUrl(base + page) == base
  {
    CutAtBase(base, page, start);
    LastWebAfterPrefix(base[start..], page);
    LastWebEndsBase(base + page, base[start..] + page, start, |base| - start);
  }

  /** The web client's own URL leads back to its base: base, `/web`, and whatever follows without another `/web`. */
  lemma WebClientKeepsBase(base: string, page: string)
    requires FindSeparator(base).Some?
    requires IsWebAt(page, 0) && forall k | 0 < k :: !IsWebAt(page, k)
    ensures ExtractBaseUrl(base + page) == base
  {
    PrefixSeparator(base, page);
    BaseBeforePage(base, page, AuthorityStart(base));
  }

  lemma CutKeepsAuthority(rest: string, n: nat)
    requires n <= |rest| && (n < |rest| ==> rest[n] in STOPS)
    ensures FirstOf(rest[..n], STOPS) == FirstOf(rest, STOPS)
    ensures rest[..n][..FirstOf(rest, STOPS)] == rest[..FirstOf(rest, STOPS)]
  {
    var end := FirstOf(rest, STOPS);
    FirstOfIff(rest, STOPS, end);
    assert end <= n;
    FirstOfIff(rest[..n], STOPS, end);
  }

  lemma CutKeepsScheme(url: string, n: nat)
    requires SchemeLength(url) > 0 && SchemeLength(url) <= n <= |url|
    ensures SchemeLength(url[..n]) == SchemeLength(url)
    ensures url[..n][..SchemeLength(url) - 3] == url[..SchemeLength(url) - 3]
  {
    assert url[..n][..SchemeLength(url)] == url[..SchemeLength(url)];
    assert url[..n][..7] == url[..7];
  }

  lemma CutKeepsText(url: string, start: nat, n: nat)
    requires start == SchemeLength(url) > 0
    requires start + n <= |url| && (n < |url| - start ==> url[start + n] in STOPS)
    ensures SchemeLength(url[..start + n]) == start && AuthorityOf(url[..start + n]) == AuthorityOf(url)
    ensures Printable(url) ==> Printable(url[..start + n])
  {
    CutKeepsScheme(url, start + n);
    CutKeepsAuthority(url[start..], n);
    assert url[..start + n][start..] == url[start..][..n];
  }

  lemma SamePartsSameOrigin(url: string, other: string)
    requires SchemeLength(url) == SchemeLength(other) > 0
    requires url[..SchemeLength(url) - 3] == other[..SchemeLength(url) - 3] && AuthorityOf(url) == AuthorityOf(other)
    requires Printable(url) && Printable(other)
    ensures ParseOrigin(url) == ParseOrigin(other)
  {
    ParseByAuthority(url);
    ParseByAuthority(other);
  }

  /** Cutting an http(s) URL at a character that ends its authority, or one further on, keeps its origin. */
  lemma CutKeepsOrigin(url: string, n: nat)
    requires SchemeLength(url) > 0 && Printable(url) && SchemeLength(url) + n <= |url|
    requires SchemeLength(url) + n < |url| ==> url[SchemeLength(url) + n] in STOPS
    ensures ParseOrigin(url[..SchemeLength(url) + n]) == ParseOrigin(url)
  {
    var start := SchemeLength(url);
    CutKeepsText(url, start, n);
    CutKeepsScheme(url, start + n);
    SamePartsSameOrigin(url, url[..start + n]);
  }

  lemma ParsedIsHttp(url: string)
    requires ParseOrigin(url).Some?
    ensures SchemeLength(url) > 0 && Printable(url) && AuthorityStart(url) == SchemeLength(url)
  {
    SeparatorAfterScheme(url);
  }

  lemma BaseIsCut(url: string)
    requires SchemeLength(url) > 0 && AuthorityStart(url) == SchemeLength(url)
    ensures var n := BaseEnd(url[SchemeLength(url)..]);
            && SchemeLength(url) + n <= |url|
            && ExtractBaseUrl(url) == url[..SchemeLength(url) + n]
            && (SchemeLength(url) + n < |url| ==> url[SchemeLength(url) + n] == '/')
  {
    var rest := url[SchemeLength(url)..];
    assert BaseEnd(rest) < |rest| ==> rest[BaseEnd(rest)] == '/';
  }

  lemma BaseOfHttp(url: string)
    requires SchemeLength(url) > 0 && Printable(url) && AuthorityStart(url) == SchemeLength(url)
    ensures ExtractBaseUrl(url) <= url && ParseOrigin(ExtractBaseUrl(url)) == ParseOrigin(url)
  {
    BaseIsCut(url);
    CutKeepsOrigin(url, BaseEnd(url[SchemeLength(url)..]));
  }

  /** The server base of a URL with an origin is a prefix of it with the same origin. */
  lemma BaseKeepsOrigin(url: string)
    requires ParseOrigin(url).Some?
    ensures ExtractBaseUrl(url) <= url && ParseOrigin(ExtractBaseUrl(url)) == ParseOrigin(url)
  {
    ParsedIsHttp(url);
    BaseOfHttp(url);
  }

  // ----- redirects -----

  datatype Decision = Keep | Upgrade(url: string) | Refuse(target: string)

  function Label(url: string, room: nat): string
    decreases |url|
  {
    if url == "" || room == 0 then ""
    else if IsControl(url[0]) || IsWhitespace(url[0]) then Label(url[1..], room)
    else [url[0]] + Label(url[1..], room - 1)
  }

  /** The printable characters of a string. */
  function Shown(url: string): string {
    if url == "" then ""
    else if IsControl(url[0]) || IsWhitespace(url[0]) then Shown(url[1..])
    else [url[0]] + Shown(url[1..])
  }

  /** A label is the first printable characters, as many as there is room for. */
  lemma {:induction false} LabelIs(url: string, room: nat)
    ensures Label(url, room) == Shown(url)[..Min(room, |Shown(url)|)]
    ensures Printable(Label(url, room))
    decreases |url|
  {
    if url != "" && room > 0 {
      if IsControl(url[0]) || IsWhitespace(url[0]) {
        LabelIs(url[1..], room);
      } else {
        LabelIs(url[1..], room - 1);
      }
    }
  }

  function RedirectTargetLabel(url: string): string {
    if Label(url, 64) == "" then "an unknown address" else Label(url, 64)
  }

  predicate SameOrigin(a: string, b: string) {
    ParseOrigin(a).Some? && ParseOrigin(a) == ParseOrigin(b)
  }

  function ClassifyProbeRedirect(requested: string, final: string): Decision {
    match ParseOrigin(requested)
    case None => Keep
    case Some(req) =>
      if final == "" || SameOrigin(requested, final) then Keep
      else
        match ParseOrigin(final)
        case None => Refuse(RedirectTargetLabel(final))
        case Some(fin) =>
          if fin.host == req.host && req.scheme == "http" && fin.scheme == "https" then Upgrade(final)
          else Refuse(ToUrl(fin))
  }

  /** The URL in force after a chain of redirects, or nothing once one was refused. */
  function Follow(requested: string, finals: seq<string>): Option<string> {
    if finals == [] then Some(requested)
    else
      match Follow(requested, finals[..|finals| - 1])
      case None => None
      case Some(url) =>
        match ClassifyProbeRedirect(url, finals[|finals| - 1])
        case Keep => Some(url)
        case Upgrade(next) => Some(next)
        case Refuse(_) => None
  }

  function Upgrades(requested: string, finals: seq<string>): nat {
    if finals == [] then 0
    else
      var init := finals[..|finals| - 1];
      var url := Follow(requested, init);
      Upgrades(requested, init)
      + if url.Some? && ClassifyProbeRedirect(url.value, finals[|finals| - 1]).Upgrade? then 1 else 0
  }

  /** With nothing to compare a redirect is kept: an address without an origin, or no final one. */
  lemma NothingToCompareIsKept(requested: string, final: string)
    requires ParseOrigin(requested) == None || final == ""
    ensures ClassifyProbeRedirect(requested, final) == Keep
  {
  }

  /** What a redirect to a given address is: kept, upgraded or refused, decided by the two origins alone. */
  lemma RedirectDecidedByOrigins(requested: string, final: string)
    requires ParseOrigin(requested).Some? && final != ""
    ensures var req, fin := ParseOrigin(requested).value, ParseOrigin(final);
            && (ClassifyProbeRedirect(requested, final) == Keep <==> fin == Some(req))
            && (ClassifyProbeRedirect(requested, final) == Upgrade(final)
                <==> fin.Some? && fin.value.host == req.host && req.scheme == "http" && fin.value.scheme == "https")
            && (ClassifyProbeRedirect(requested, final).Refuse? ==>
                  ClassifyProbeRedirect(requested, final).target
                  == if fin.Some? then ToUrl(fin.value)
                     else if Shown(final) == "" then "an unknown address"
                     else Shown(final)[..Min(64, |Shown(final)|)])
  {
    LabelIs(final, 64);
  }

  /**
   * Along any chain of accepted redirects the host never changes, the origin
   * stays as it was until the one upgrade to https there may be, and nothing
   * ever goes back to http.
   */
  lemma {:induction false} ChainKeepsServer(requested: string, finals: seq<string>)
    requires ParseOrigin(requested).Some? && Follow(requested, finals).Some?
    ensures var before, now := ParseOrigin(requested).value, ParseOrigin(Follow(requested, finals).value);
            && now.Some? && now.value.host == before.host
            && (Upgrades(requested, finals) == 0 ==> now.value == before)
            && (Upgrades(requested, finals) == 1 ==> before.scheme == "http" && now.value.scheme == "https")
            && Upgrades(requested, finals) <= 1
  {
    if finals != [] {
      var init, final := finals[..|finals| - 1], finals[|finals| - 1];
      ChainKeepsServer(requested, init);
      var url := Follow(requested, init).value;
      if final != "" {
        RedirectDecidedByOrigins(url, final);
      }
    }
  }

  /** The origin in force after a redirect to one of origin `to`: the same, https on the same host, or none. */
  function Moves(o: Origin, to: Option<Origin>): Option<Origin> {
    match to
    case None => None
    case Some(p) =>
      if p == o || (p.host == o.host && o.scheme == "http" && p.scheme == "https") then to else None
  }

  /** The origin in force after a chain of redirects, computed on origins alone; nothing once there is none. */
  function InForce(o: Origin, finals: seq<string>): Option<Origin> {
    if finals == [] then Some(o)
    else
      var final := finals[|finals| - 1];
      match InForce(o, finals[..|finals| - 1])
      case None => None
      case Some(p) => if final == "" then Some(p) else Moves(p, ParseOrigin(final))
  }

  lemma DecisionMoves(url: string, final: string, o: Origin)
    requires ParseOrigin(url) == Some(o)
    ensures match ClassifyProbeRedirect(url, final)
            case Keep => final == "" || Moves(o, ParseOrigin(final)) == Some(o)
            case Upgrade(next) =>
              next == final && final != "" && Moves(o, ParseOrigin(final)) == ParseOrigin(final) != None
            case Refuse(_) => final != "" && Moves(o, ParseOrigin(final)) == None
  {
    if final != "" {
      RedirectDecidedByOrigins(url, final);
    }
  }

  lemma DecisionStep(now: Option<string>, final: string, next: Option<string>, o: Option<Origin>, p: Option<Origin>)
    requires now.Some? <==> o.Some?
    requires now.Some? ==> ParseOrigin(now.value) == o
    requires next == match now
                     case None => None
                     case Some(url) =>
                       match ClassifyProbeRedirect(url, final)
                       case Keep => Some(url)
                       case Upgrade(to) => Some(to)
                       case Refuse(_) => None
    requires p == if o == None then None else if final == "" then o else Moves(o.value, ParseOrigin(final))
    ensures next.Some? <==> p.Some?
    ensures next.Some? ==> ParseOrigin(next.value) == p
  {
    if now.Some? {
      DecisionMoves(now.value, final, o.value);
    }
  }

  /**
   * A chain is followed to its end exactly when every redirect in it moves on
   * from the origin then in force, and it ends at an address of the origin
   * those moves lead to.
   */
  lemma {:induction false} ChainIsFollowedIff(requested: string, finals: seq<string>)
    requires ParseOrigin(requested).Some?
    ensures var url, o := Follow(requested, finals), InForce(ParseOrigin(requested).value, finals);
            (url.Some? <==> o.Some?) && (url.Some? ==> ParseOrigin(url.value) == o)
  {
    if finals != [] {
      var init, o := finals[..|finals| - 1], ParseOrigin(requested).value;
      ChainIsFollowedIff(requested, init);
      DecisionStep(Follow(requested, init), finals[|finals| - 1], Follow(requested, finals),
                   InForce(o, init), InForce(o, finals));
    }
  }

  // ----- what the user typed -----

  function TrimStart(s: string): string {
    if s != "" && IsWhitespace(s[0]) then TrimStart(s[1..]) else s
  }

  function TrimEnd(s: string): string {
    if s != "" && IsWhitespace(s[|s| - 1]) then TrimEnd(s[..|s| - 1]) else s
  }

  function Trim(s: string): string {
    TrimEnd(TrimStart(s))
  }

  /** `Http:` and `Https:` in lower case; everything else as typed. */
  function CaseScheme(s: string): string {
    if StartsWithFold(s, "http:") then "http:" + s[5..]
    else if StartsWithFold(s, "https:") then "https:" + s[6..]
    else s
  }

  predicate SchemeWasTyped(input: string) {
    FindSeparator(Trim(input)).Some?
  }

  function NormalizeInput(input: string): string {
    var cased := CaseScheme(Trim(input));
    if FindSeparator(cased).Some? then cased else "http" + SEPARATOR + cased
  }

  function ProbeCandidates(input: string): seq<string> {
    var normalized := NormalizeInput(input);
    if !IsHttpUrl(normalized) then []
    else if SchemeWasTyped(input) then [normalized]
    else
      var upgraded := "https" + SEPARATOR + normalized[7..];
      if IsHttpUrl(upgraded) then [upgraded, normalized] else [normalized]
  }

  /** Colons and slashes in the same places. */
  predicate Alike(s: string, t: string) {
    |s| == |t| && forall k | 0 <= k < |s| :: (s[k] == ':' <==> t[k] == ':') && (s[k] == '/' <==> t[k] == '/')
  }

  lemma AlikeTail(s: string, t: string)
    requires Alike(s, t) && s != ""
    ensures Alike(s[1..], t[1..])
  {
    assert forall k | 0 <= k < |s| - 1 :: s[1..][k] == s[k + 1] && t[1..][k] == t[k + 1];
  }

  lemma SeparatorHere(s: string)
    requires |s| >= 3
    ensures s[..3] == SEPARATOR <==> s[0] == ':' && s[1] == '/' && s[2] == '/'
  {
    assert s[..3] == [s[0], s[1], s[2]];
  }

  /** Two strings with their colons and slashes in the same places have their separators in the same place. */
  lemma {:induction false} SameSeparators(s: string, t: string)
    requires Alike(s, t)
    ensures FindSeparator(s) == FindSeparator(t)
  {
    if |s| >= 3 {
      SeparatorHere(s);
      SeparatorHere(t);
      AlikeTail(s, t);
      SameSeparators(s[1..], t[1..]);
    }
  }

  lemma CasedAlike(s: string)
    ensures Alike(CaseScheme(s), s)
  {
    var t := CaseScheme(s);
    forall k | 0 <= k < |s| ensures |t| == |s| && (t[k] == s[k] || t[k] == LowerChar(s[k])) {
      if StartsWithFold(s, "http:") && k < 5 {
        assert Lower(s[..5])[k] == "http:"[k];
      } else if StartsWithFold(s, "https:") && k < 6 {
        assert Lower(s[..6])[k] == "https:"[k];
      }
    }
  }

  lemma CasingKeepsSeparators(s: string)
    ensures FindSeparator(CaseScheme(s)) == FindSeparator(s)
  {
    CasedAlike(s);
    SameSeparators(CaseScheme(s), s);
  }

  /** One host, tried over https and over http; the port is the one typed, or each scheme's own. */
  predicate OneServer(secure: Option<Origin>, plain: Option<Origin>) {
    && (secure.Some? <==> plain.Some?)
    && (secure.Some? ==>
          && secure.value.scheme == "https" && plain.value.scheme == "http"
          && secure.value.host == plain.value.host
          && (secure.value.port == plain.value.port || (secure.value.port == 443 && plain.value.port == 80)))
  }

  lemma OriginWithScheme(scheme: string, address: string)
    requires scheme == "http" || scheme == "https"
    requires IsHttpUrl(scheme + SEPARATOR + address)
    ensures ParseOrigin(scheme + SEPARATOR + address)
            == OriginOf(scheme, SplitAuthority(address[..FirstOf(address, STOPS)]))
  {
    SchemeOfParts(scheme, address);
    ParseByAuthority(scheme + SEPARATOR + address);
  }

  lemma SamePartsOneServer(parts: Option<HostPort>)
    ensures OneServer(OriginOf("https", parts), OriginOf("http", parts))
  {
  }

  lemma BothSchemesOneServer(address: string)
    requires IsHttpUrl("https" + SEPARATOR + address) && IsHttpUrl("http" + SEPARATOR + address)
    ensures OneServer(ParseOrigin("https" + SEPARATOR + address), ParseOrigin("http" + SEPARATOR + address))
  {
    OriginWithScheme("http", address);
    OriginWithScheme("https", address);
    SamePartsOneServer(SplitAuthority(address[..FirstOf(address, STOPS)]));
  }

  lemma NormalizedBare(input: string)
    requires !SchemeWasTyped(input)
    ensures NormalizeInput(input) == "http" + SEPARATOR + CaseScheme(Trim(input))
    ensures NormalizeInput(input)[7..] == CaseScheme(Trim(input))
  {
    CasingKeepsSeparators(Trim(input));
  }

  lemma PrintableTail(s: string, n: nat)
    requires Printable(s) && n <= |s|
    ensures Printable(s[n..])
  {
    assert forall k | 0 <= k < |s| - n :: s[n..][k] == s[n + k];
  }

  lemma PrintableUnder(scheme: string, address: string)
    requires (scheme == "http" || scheme == "https") && Printable(address)
    ensures Printable(scheme + SEPARATOR + address)
  {
    assert address + "" == address;
    PrintableParts(scheme, address, "");
  }

  /** What is an http URL is an https URL under the other scheme. */
  lemma SecureIsHttpUrl(address: string)
    requires IsHttpUrl("http" + SEPARATOR + address)
    ensures IsHttpUrl("https" + SEPARATOR + address)
    ensures SchemeLength("https" + SEPARATOR + address) == 8 && SchemeLength("http" + SEPARATOR + address) == 7
  {
    SchemeOfParts("http", address);
    SchemeOfParts("https", address);
    PrintableTail("http" + SEPARATOR + address, 7);
    PrintableUnder("https", address);
  }

  lemma CasedFolds(s: string)
    ensures Folds(CaseScheme(s), s)
  {
    var t := CaseScheme(s);
    forall k | 0 <= k < |s| ensures |t| == |s| && LowerChar(t[k]) == LowerChar(s[k]) {
      if StartsWithFold(s, "http:") && k < 5 {
        assert Lower(s[..5])[k] == "http:"[k];
      } else if StartsWithFold(s, "https:") && k < 6 {
        assert Lower(s[..6])[k] == "https:"[k];
      }
    }
    assert |t| == |s|;
  }

  lemma HttpUnderIff(address: string)
    ensures IsHttpUrl("http" + SEPARATOR + address)
            <==> Printable(address) && address != "" && address[0] !in STOPS
  {
    SchemeOfParts("http", address);
    if Printable("http" + SEPARATOR + address) {
      PrintableTail("http" + SEPARATOR + address, 7);
    }
    if Printable(address) {
      PrintableUnder("http", address);
    }
  }

  lemma BareFolds(s: string, t: string)
    requires Folds(s, t)
    ensures Printable(s) && s != "" && s[0] !in STOPS <==> Printable(t) && t != "" && t[0] !in STOPS
  {
    assert |Lower(s)| == |Lower(t)|;
    if s != "" {
      FoldAt(s, t, 0);
    }
    if Printable(s) {
      FoldPrintable(s, t);
    } else if Printable(t) {
      FoldPrintable(t, s);
    }
  }

  /**
   * There is something to try exactly when the trimmed input is an http(s) URL,
   * or bare, printable and not starting where a host would already have ended.
   */
  lemma CandidatesIff(input: string)
    ensures var typed := Trim(input);
            ProbeCandidates(input) != []
            <==> if SchemeWasTyped(input) then IsHttpUrl(typed)
                 else Printable(typed) && typed != "" && typed[0] !in STOPS
  {
    var typed, cased := Trim(input), CaseScheme(Trim(input));
    CasedFolds(typed);
    CasingKeepsSeparators(typed);
    if SchemeWasTyped(input) {
      FoldScheme(cased, typed);
    } else {
      NormalizedBare(input);
      HttpUnderIff(cased);
      BareFolds(cased, typed);
    }
  }

  lemma FoldUnder(front: string, s: string, t: string)
    requires Folds(s, t)
    ensures Folds(front + s, front + t)
  {
    assert |Lower(s)| == |Lower(t)|;
    assert Lower(front + s) == Lower(front) + Lower(s) && Lower(front + t) == Lower(front) + Lower(t);
  }

  lemma CandidateForms(input: string, k: nat)
    requires k < |ProbeCandidates(input)|
    ensures var c, cased := ProbeCandidates(input)[k], CaseScheme(Trim(input));
            if SchemeWasTyped(input) then c == cased
            else c == "http" + SEPARATOR + cased || c == "https" + SEPARATOR + cased
  {
    CasingKeepsSeparators(Trim(input));
    if !SchemeWasTyped(input) {
      NormalizedBare(input);
    }
  }

  lemma FormFolds(c: string, cased: string, typed: string)
    requires Folds(cased, typed)
    ensures c == cased ==> Folds(c, typed)
    ensures c == "http" + SEPARATOR + cased ==> Folds(c, "http" + SEPARATOR + typed)
    ensures c == "https" + SEPARATOR + cased ==> Folds(c, "https" + SEPARATOR + typed)
  {
    FoldUnder("http" + SEPARATOR, cased, typed);
    FoldUnder("https" + SEPARATOR, cased, typed);
  }

  /** What is tried names the server that was typed: letter case apart, with a scheme in front if there was none. */
  lemma CandidatesAreTyped(input: string, k: nat)
    requires k < |ProbeCandidates(input)|
    ensures var c, typed := ProbeCandidates(input)[k], Trim(input);
            if SchemeWasTyped(input) then Folds(c, typed)
            else Folds(c, "http" + SEPARATOR + typed) || Folds(c, "https" + SEPARATOR + typed)
  {
    CandidateForms(input, k);
    CasedFolds(Trim(input));
    FormFolds(ProbeCandidates(input)[k], CaseScheme(Trim(input)), Trim(input));
  }

  lemma {:induction false} AllTrimmed(s: string)
    requires forall k | 0 <= k < |s| :: IsWhitespace(s[k])
    ensures TrimStart(s) == ""
  {
    if s != "" {
      AllTrimmed(s[1..]);
    }
  }

  lemma {:induction false} TrimStartIs(front: string, rest: string)
    requires forall k | 0 <= k < |front| :: IsWhitespace(front[k])
    requires rest != "" && !IsWhitespace(rest[0])
    ensures TrimStart(front + rest) == rest
  {
    if front == "" {
      assert front + rest == rest;
    } else {
      assert (front + rest)[1..] == front[1..] + rest;
      TrimStartIs(front[1..], rest);
    }
  }

  lemma {:induction false} TrimEndIs(kept: string, back: string)
    requires forall k | 0 <= k < |back| :: IsWhitespace(back[k])
    requires kept != "" && !IsWhitespace(kept[|kept| - 1])
    ensures TrimEnd(kept + back) == kept
  {
    if back == "" {
      assert kept + back == kept;
    } else {
      var s := kept + back;
      assert s[..|s| - 1] == kept + back[..|back| - 1];
      TrimEndIs(kept, back[..|back| - 1]);
    }
  }

  /** Trimming takes whitespace at both ends, all of it and nothing else. */
  lemma TrimIs(front: string, kept: string, back: string)
    requires forall k | 0 <= k < |front| :: IsWhitespace(front[k])
    requires forall k | 0 <= k < |back| :: IsWhitespace(back[k])
    requires kept == "" ==> front == ""
    requires kept != "" ==> !IsWhitespace(kept[0]) && !IsWhitespace(kept[|kept| - 1])
    ensures Trim(front + kept + back) == kept
  {
    assert front + kept + back == front + (kept + back);
    if kept == "" {
      assert front + kept + back == back;
      AllTrimmed(back);
    } else {
      TrimStartIs(front, kept + back);
      TrimEndIs(kept, back);
    }
  }

  /**
   * A typed scheme is never rewritten into two attempts; a bare address is
   * tried over https first and then over http, and both attempts name the same
   * host and, when one was typed, the same port.
   */
  lemma CandidatesNameOneServer(input: string)
    ensures var c := ProbeCandidates(input);
            && |c| <= 2 && (forall k | 0 <= k < |c| :: IsHttpUrl(c[k]))
            && (SchemeWasTyped(input) && c != [] ==> c == [CaseScheme(Trim(input))])
            && (!SchemeWasTyped(input) && c != [] ==>
                  |c| == 2 && SchemeLength(c[0]) == 8 && SchemeLength(c[1]) == 7
                  && OneServer(ParseOrigin(c[0]), ParseOrigin(c[1])))
  {
    CasingKeepsSeparators(Trim(input));
    var c := ProbeCandidates(input);
    if !SchemeWasTyped(input) && c != [] {
      NormalizedBare(input);
      SecureIsHttpUrl(CaseScheme(Trim(input)));
      BothSchemesOneServer(CaseScheme(Trim(input)));
    }
  }
}
