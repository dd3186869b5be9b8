/** Server addresses as the client normalises them (ServerAddress::parse in
    adapters/client_connections.rs). */
module Address {
  import opened Common
  import opened Text
  import Queues

  const DEFAULT_PORT: nat := 48631

  datatype ServerAddress = ServerAddress(host: string, port: nat, normalized: string)

  datatype AddressError = Unusable | Invalid | NeedsBrackets

  // ---------------------------------------------------------------- IP addresses

  /** Reads an IPv6 address and prints it again in the standard library's canonical form. */
  type Ipv6Text = string -> Option<string>

  ghost predicate IsCanonicalChar(c: char) {
    IsDigit(c) || 'a' <= c <= 'f' || c == ':' || c == '.'
  }

  function Colons(s: string): nat {
    if s == "" then 0 else (if s[0] == ':' then 1 else 0) + Colons(s[1..])
  }

  function WithoutLeadingColons(s: string): string {
    if s != "" && s[0] == ':' then WithoutLeadingColons(s[1..]) else s
  }

  /** What reading and printing IPv6 addresses promises: a printed address reads as itself and has at
      most 45 characters, no text with fewer than two colons is an address, and two printed addresses
      never differ only in leading colons, because a printed address either spells all eight groups
      or has exactly one double colon. */
  ghost predicate Lawful(v6: Ipv6Text) {
    && (forall s :: v6(s).Some? ==>
          && Colons(s) >= 2
          && v6(v6(s).value) == v6(s) && |v6(s).value| <= 45
          && forall k :: 0 <= k < |v6(s).value| ==> IsCanonicalChar(v6(s).value[k]))
    && ColonsTell(v6)
  }

  ghost predicate ColonsTell(v6: Ipv6Text) {
    forall c, d :: v6(c) == Some(c) && v6(d) == Some(d) && WithoutLeadingColons(c) == WithoutLeadingColons(d) ==> c == d
  }

  /** The promise can be kept, also by a reader that accepts something. */
  lemma LawfulIsPossible()
    ensures exists v6: Ipv6Text :: Lawful(v6) && v6("::1") == Some("::1")
  {
    var v6: Ipv6Text := s => if s == "::1" then Some("::1") else None;
    assert Colons("::1") == 2 by {
      assert "::1"[1..] == ":1" && ":1"[1..] == "1" && "1"[1..] == "";
    }
    assert Lawful(v6);
  }

  /** A decimal octet without leading zeros. */
  predicate IsOctet(o: string) {
    1 <= |o| <= 3 && AllDigits(o) && (o[0] == '0' ==> |o| == 1) && Value(o) <= 255
  }

  predicate AreOctets(s: string, n: nat) {
    var dot := IndexOf(s, '.');
    IsOctet(s[..dot]) && if n <= 1 then dot == |s| else dot < |s| && AreOctets(s[dot + 1..], n - 1)
  }

  /** A dotted IPv4 address; its canonical form is itself. */
  predicate IsIpv4(s: string) {
    AreOctets(s, 4)
  }

  // ---------------------------------------------------------------- host names

  predicate IsHostChar(c: char) {
    IsAlphanumeric(c) || c == '.' || c == '-'
  }

  predicate IsLabel(l: string) {
    l != "" && |l| <= 63 && l[0] != '-' && l[|l| - 1] != '-'
  }

  predicate AreLabels(s: string) {
    var dot := IndexOf(s, '.');
    IsLabel(s[..dot]) && (dot < |s| ==> AreLabels(s[dot + 1..]))
  }

  predicate IsHostName(s: string) {
    s != "" && |s| <= 253 && AreLabels(s) && forall k :: 0 <= k < |s| ==> IsHostChar(s[k])
  }

  /** The text between two dots, or a dot and an end. */
  ghost predicate IsPart(s: string, i: int, j: int) {
    && 0 <= i <= j <= |s| && (i == 0 || s[i - 1] == '.') && (j == |s| || s[j] == '.')
    && forall k :: i <= k < j ==> s[k] != '.'
  }

  lemma PartOfRest(s: string, dot: nat, i: int, j: int)
    requires dot < |s| && s[dot] == '.' && i > dot
    ensures IsPart(s, i, j) <==> IsPart(s[dot + 1..], i - dot - 1, j - dot - 1)
  {
    var rest := s[dot + 1..];
    assert forall k :: 0 <= k < |rest| ==> rest[k] == s[dot + 1 + k];
    if IsPart(rest, i - dot - 1, j - dot - 1) {
      forall k | i <= k < j ensures s[k] != '.' {
        assert rest[k - dot - 1] != '.';
      }
    }
    if IsPart(s, i, j) {
      forall k | i - dot - 1 <= k < j - dot - 1 ensures rest[k] != '.' {
        assert s[k + dot + 1] != '.';
      }
    }
  }

  /** Exactly which texts are labels joined by dots: between the dots stand 1 to 63 characters that neither
      begin nor end with a dash. */
  lemma {:induction false} LabelsExactly(s: string)
    ensures AreLabels(s) <==>
              forall i, j :: IsPart(s, i, j) ==> 0 < j - i <= 63 && s[i] != '-' && s[j - 1] != '-'
    decreases |s|
  {
    var dot := IndexOf(s, '.');
    assert IsPart(s, 0, dot);
    assert IsLabel(s[..dot]) <==> 0 < dot <= 63 && s[0] != '-' && s[dot - 1] != '-';
    if dot < |s| {
      LabelsExactly(s[dot + 1..]);
      var rest := s[dot + 1..];
      forall i, j | IsPart(s, i, j) ensures (i == 0 && j == dot) || (i > dot && IsPart(rest, i - dot - 1, j - dot - 1)) {
        if i > dot {
          PartOfRest(s, dot, i, j);
        } else {
          FirstPart(s, dot, i, j);
        }
      }
      forall i, j | IsPart(rest, i, j) ensures IsPart(s, i + dot + 1, j + dot + 1) {
        PartOfRest(s, dot, i + dot + 1, j + dot + 1);
      }
    } else {
      forall i, j | IsPart(s, i, j) ensures i == 0 && j == dot {
        FirstPart(s, dot, i, j);
      }
    }
  }

  lemma FirstPart(s: string, dot: nat, i: int, j: int)
    requires dot == IndexOf(s, '.') && IsPart(s, i, j) && i <= dot
    ensures i == 0 && j == dot
  {
  }

  // ---------------------------------------------------------------- parsing

  predicate HasAny(s: string) {
    '@' in s || '/' in s || '?' in s || '#' in s || exists k :: 0 <= k < |s| && IsWhitespace(s[k])
  }

  function PortOf(text: string): Result<nat, AddressError> {
    var port := ParseU16(text);
    if port.Some? then Ok(port.value) else Err(Invalid)
  }

  /** Host and port of `[host]` or `[host]:port`. */
  function ParseBracketed(value: string, v6: Ipv6Text): Result<(string, nat), AddressError>
    requires value != ""
  {
    var end := IndexOf(value, ']');
    if end == |value| || end == 0 then Err(Invalid)
    else
      var ip := v6(value[1..end]);
      var rest := value[end + 1..];
      if ip.None? then Err(Invalid)
      else if rest == "" then Ok((ip.value, DEFAULT_PORT))
      else if rest[0] != ':' then Err(Invalid)
      else
        var port := PortOf(rest[1..]);
        if port.Err? then Err(port.error) else Ok((ip.value, port.value))
  }

  /** Host and port of a host name with an optional port. */
  function ParseHost(value: string): Result<(string, nat), AddressError> {
    var colon := IndexOf(value, ':');
    var host := value[..colon];
    if colon < |value| && ':' in value[colon + 1..] then Err(NeedsBrackets)
    else if !IsHostName(host) then Err(Invalid)
    else if colon == |value| then Ok((Lower(host), DEFAULT_PORT))
    else
      var port := PortOf(value[colon + 1..]);
      if port.Err? then Err(port.error) else Ok((Lower(host), port.value))
  }

  function ParseParts(value: string, v6: Ipv6Text): Result<(string, nat), AddressError>
    requires value != ""
  {
    if value[0] == '[' then ParseBracketed(value, v6)
    else if IsIpv4(value) then Ok((value, DEFAULT_PORT))
    else if v6(value).Some? then Ok((v6(value).value, DEFAULT_PORT))
    else ParseHost(value)
  }

  function Normalized(host: string, port: nat): string {
    if ':' in host then "[" + host + "]:" + Decimal(port) else host + ":" + Decimal(port)
  }

  function Parse(input: string, v6: Ipv6Text): Result<ServerAddress, AddressError> {
    var value := Trim(input);
    if value == "" || HasAny(value) then Err(Unusable)
    else
      match ParseParts(value, v6)
      case Err(e) => Err(e)
      case Ok((parsed, port)) =>
        if port == 0 then Err(Invalid)
        else
          var host := Lower(parsed);
          Ok(ServerAddress(host, port, Normalized(host, port)))
  }

  // ---------------------------------------------------------------- exactly what is accepted

  /** `[x]`: the IPv6 address as it is printed, and the usual port. */
  ghost predicate IsBracketed(t: string, host: string, port: nat, v6: Ipv6Text) {
    exists x :: ']' !in x && t == "[" + x + "]" && v6(x) == Some(host) && port == 48631
  }

  /** `[x]:p`. */
  ghost predicate IsBracketedWithPort(t: string, host: string, port: nat, v6: Ipv6Text) {
    exists x, p :: ']' !in x && t == "[" + x + "]" + (":" + p) && v6(x) == Some(host) && ParseU16(p) == Some(port)
  }

  /** A bare IPv6 address. */
  ghost predicate IsBareIpv6(t: string, host: string, port: nat, v6: Ipv6Text) {
    t != "" && t[0] != '[' && v6(t) == Some(host) && port == 48631
  }

  /** A host name alone, in lower case; an IPv4 address is one. */
  ghost predicate IsHostAlone(t: string, host: string, port: nat) {
    IsHostName(t) && host == Lower(t) && port == 48631
  }

  /** `h:p`. */
  ghost predicate IsHostWithPort(t: string, host: string, port: nat) {
    exists h, p :: t == h + ":" + p && ':' !in p && IsHostName(h) && host == Lower(h) && ParseU16(p) == Some(port)
  }

  ghost predicate Names(t: string, host: string, port: nat, v6: Ipv6Text) {
    || IsBracketed(t, host, port, v6) || IsBracketedWithPort(t, host, port, v6) || IsBareIpv6(t, host, port, v6)
    || IsHostAlone(t, host, port) || IsHostWithPort(t, host, port)
  }

  lemma BracketsName(t: string, v6: Ipv6Text, host: string, port: nat)
    requires t != "" && t[0] == '[' && ParseBracketed(t, v6) == Ok((host, port))
    ensures IsBracketed(t, host, port, v6) || IsBracketedWithPort(t, host, port, v6)
  {
    var end := IndexOf(t, ']');
    var x, rest := t[1..end], t[end + 1..];
    BracketText(t, end);
    assert v6(x) == Some(host);
    if rest != "" {
      assert rest == ":" + rest[1..];
      assert ParseU16(rest[1..]) == Some(port);
    }
  }

  lemma BracketText(t: string, end: nat)
    requires t != "" && t[0] == '[' && 0 < end < |t| && t[end] == ']' && forall k :: 0 <= k < end ==> t[k] != ']'
    ensures t == "[" + t[1..end] + "]" + t[end + 1..] && ']' !in t[1..end]
    ensures t[end + 1..] == "" ==> t == "[" + t[1..end] + "]"
  {
    assert forall k :: 0 <= k < end - 1 ==> t[1..end][k] == t[k + 1];
  }

  lemma HostsName(t: string, host: string, port: nat)
    requires ParseHost(t) == Ok((host, port))
    ensures IsHostAlone(t, host, port) || IsHostWithPort(t, host, port)
  {
    var colon := IndexOf(t, ':');
    if colon == |t| {
      assert t[..colon] == t;
    } else {
      CutAt(t, colon);
      assert IsHostName(t[..colon]) && ParseU16(t[colon + 1..]) == Some(port);
    }
  }

  lemma BracketEnds(x: string, rest: string)
    requires ']' !in x
    ensures var t := "[" + x + "]" + rest;
      IndexOf(t, ']') == |x| + 1 && t[1..|x| + 1] == x && t[|x| + 2..] == rest
  {
    IndexOfJoin("[" + x, ']', rest);
  }

  lemma NamedInBrackets(t: string, v6: Ipv6Text, host: string, port: nat)
    requires IsBracketed(t, host, port, v6)
    ensures t[0] == '[' && ParseBracketed(t, v6) == Ok((host, 48631))
  {
    var x :| ']' !in x && t == "[" + x + "]" && v6(x) == Some(host);
    BracketEnds(x, "");
    assert t == "[" + x + "]" + "";
  }

  lemma NamedInBracketsWithPort(t: string, v6: Ipv6Text, host: string, port: nat)
    requires IsBracketedWithPort(t, host, port, v6)
    ensures t[0] == '[' && ParseBracketed(t, v6) == Ok((host, port))
  {
    var x, p :| ']' !in x && t == "[" + x + "]" + (":" + p) && v6(x) == Some(host) && ParseU16(p) == Some(port);
    BracketEnds(x, ":" + p);
    assert (":" + p)[1..] == p;
  }

  lemma HostNameAlone(t: string, v6: Ipv6Text)
    requires Lawful(v6) && IsHostName(t)
    ensures ParseParts(t, v6) == Ok((Lower(t), 48631))
  {
    NoColon(t);
    assert IndexOf(t, ':') == |t| && t[..|t|] == t;
    if IsIpv4(t) {
      Ipv4IsHostName(t);
    }
  }

  lemma HostSplits(h: string, p: string)
    requires IsHostName(h) && ':' !in p
    ensures var t := h + ":" + p; IndexOf(t, ':') == |h| && t[..|h|] == h && t[|h| + 1..] == p && t[0] != '['
  {
    assert IsHostChar(h[0]) && (h + ":" + p)[0] == h[0];
    IndexOfJoin(h, ':', p);
  }

  lemma HostPartsRead(h: string, p: string, port: nat)
    requires IsHostName(h) && ':' !in p && ParseU16(p) == Some(port)
    ensures ParseHost(h + ":" + p) == Ok((Lower(h), port))
  {
    HostSplits(h, p);
  }

  lemma NoIpIsHost(t: string, v6: Ipv6Text)
    requires t != "" && t[0] != '[' && !IsIpv4(t) && v6(t).None?
    ensures ParseParts(t, v6) == ParseHost(t)
  {
  }

  lemma HostPartsParsed(h: string, p: string, port: nat, v6: Ipv6Text)
    requires Lawful(v6) && IsHostName(h) && ':' !in p && ParseU16(p) == Some(port)
    ensures ParseParts(h + ":" + p, v6) == Ok((Lower(h), port))
  {
    var t := h + ":" + p;
    NotAnIp(h, p, v6);
    HostSplits(h, p);
    NoIpIsHost(t, v6);
    HostPartsRead(h, p, port);
  }

  lemma HostNameWithPort(t: string, host: string, port: nat, v6: Ipv6Text)
    requires Lawful(v6) && t != "" && IsHostWithPort(t, host, port)
    ensures ParseParts(t, v6) == Ok((host, port))
  {
    var h, p :| t == h + ":" + p && ':' !in p && IsHostName(h) && host == Lower(h) && ParseU16(p) == Some(port);
    HostPartsParsed(h, p, port, v6);
  }

  lemma NotAnIp(h: string, p: string, v6: Ipv6Text)
    requires Lawful(v6) && ':' !in h && ':' !in p
    ensures !IsIpv4(h + ":" + p) && v6(h + ":" + p).None?
  {
    var value := h + ":" + p;
    assert value[|h|] == ':';
    if IsIpv4(value) {
      OctetsAreShort(value, 4);
      assert false;
    }
    ColonsJoin(h + ":", p);
    ColonsJoin(h, ":");
    NoColon(h);
    NoColon(p);
  }

  lemma NamedIsParsed(t: string, host: string, port: nat, v6: Ipv6Text)
    requires Lawful(v6) && t != "" && Names(t, host, port, v6)
    ensures ParseParts(t, v6) == Ok((host, port))
  {
    if IsBracketed(t, host, port, v6) {
      NamedInBrackets(t, v6, host, port);
    } else if IsBracketedWithPort(t, host, port, v6) {
      NamedInBracketsWithPort(t, v6, host, port);
    } else if IsHostAlone(t, host, port) {
      HostNameAlone(t, v6);
    } else if IsHostWithPort(t, host, port) {
      HostNameWithPort(t, host, port, v6);
    } else {
      BareIpv6IsParsed(t, v6);
    }
  }

  lemma BareIpv6IsParsed(t: string, v6: Ipv6Text)
    requires Lawful(v6) && t != "" && t[0] != '[' && v6(t).Some?
    ensures ParseParts(t, v6) == Ok((v6(t).value, 48631))
  {
    NoColon(t);
    if IsIpv4(t) {
      OctetsAreShort(t, 4);
      assert false;
    }
  }

  lemma ParsedIsNamed(t: string, v6: Ipv6Text)
    requires t != "" && ParseParts(t, v6).Ok?
    ensures Names(t, ParseParts(t, v6).value.0, ParseParts(t, v6).value.1, v6)
  {
    var (host, port) := ParseParts(t, v6).value;
    if t[0] == '[' {
      BracketsName(t, v6, host, port);
    } else if IsIpv4(t) {
      Ipv4IsHostName(t);
    } else if v6(t).None? {
      HostsName(t, host, port);
    }
  }

  /** Exactly which texts are accepted, and as what: trimmed, without any character of a URL or blank, and
      naming a host and a port that is not zero. */
  lemma ParsesExactly(input: string, a: ServerAddress, v6: Ipv6Text)
    requires Lawful(v6)
    ensures var t := Trim(input);
      Parse(input, v6) == Ok(a) <==>
        && t != "" && '@' !in t && '/' !in t && '?' !in t && '#' !in t
        && (forall k :: 0 <= k < |t| ==> !IsWhitespace(t[k]))
        && a.port > 0 && a.normalized == (if ':' in a.host then "[" + a.host + "]:" + Decimal(a.port) else a.host + ":" + Decimal(a.port))
        && exists host :: Names(t, host, a.port, v6) && a.host == Lower(host)
  {
    var t := Trim(input);
    if t != "" {
      if ParseParts(t, v6).Ok? {
        ParsedIsNamed(t, v6);
      }
      forall host, port: nat | Names(t, host, port, v6) ensures ParseParts(t, v6) == Ok((host, port)) {
        NamedIsParsed(t, host, port, v6);
      }
    }
  }

  // ---------------------------------------------------------------- lower case

  lemma LowerChars(s: string)
    ensures forall k :: 0 <= k < |s| ==>
              && (IsHostChar(s[k]) <==> IsHostChar(Lower(s)[k]))
              && (s[k] == '.' <==> Lower(s)[k] == '.') && (s[k] == '-' <==> Lower(s)[k] == '-')
              && (s[k] == ':' <==> Lower(s)[k] == ':')
  {
  }

  lemma LowerTwice(s: string)
    ensures Lower(Lower(s)) == Lower(s)
  {
  }

  lemma {:induction false} LowerKeepsLabels(s: string)
    requires AreLabels(s)
    ensures AreLabels(Lower(s))
    decreases |s|
  {
    LowerChars(s);
    var dot := IndexOf(s, '.');
    SameDot(s);
    assert Lower(s)[..dot] == Lower(s[..dot]);
    LowerChars(s[..dot]);
    if dot < |s| {
      assert Lower(s)[dot + 1..] == Lower(s[dot + 1..]);
      LowerKeepsLabels(s[dot + 1..]);
    }
  }

  lemma SameDot(s: string)
    ensures IndexOf(Lower(s), '.') == IndexOf(s, '.')
  {
    LowerChars(s);
    var i, j := IndexOf(s, '.'), IndexOf(Lower(s), '.');
    assert i < |s| ==> Lower(s)[i] == '.';
    assert j < |s| ==> s[j] == '.';
  }

  lemma LowerHostName(s: string)
    requires IsHostName(s)
    ensures IsHostName(Lower(s)) && ':' !in Lower(s)
  {
    LowerKeepsLabels(s);
    LowerChars(s);
  }

  lemma {:induction false} OctetsAreLabels(s: string, n: nat)
    requires AreOctets(s, n)
    ensures AreLabels(s)
    decreases n
  {
    var dot := IndexOf(s, '.');
    if dot < |s| {
      OctetsAreLabels(s[dot + 1..], n - 1);
    }
  }

  lemma {:induction false} OctetsAreShort(s: string, n: nat)
    requires AreOctets(s, n) && n >= 1
    ensures |s| <= 4 * n && forall k :: 0 <= k < |s| ==> IsDigit(s[k]) || s[k] == '.'
    decreases n
  {
    var dot := IndexOf(s, '.');
    assert forall k :: 0 <= k < dot ==> s[..dot][k] == s[k];
    if n > 1 {
      OctetsAreShort(s[dot + 1..], n - 1);
      assert forall k :: dot < k < |s| ==> s[k] == s[dot + 1..][k - dot - 1];
    }
  }

  lemma Ipv4IsHostName(s: string)
    requires IsIpv4(s)
    ensures IsHostName(s) && Lower(s) == s
  {
    OctetsAreLabels(s, 4);
    OctetsAreShort(s, 4);
    var dot := IndexOf(s, '.');
    assert s[..dot] != "";
  }

  // ---------------------------------------------------------------- normalised addresses

  lemma {:induction false} NoColon(s: string)
    ensures Colons(s) == 0 <==> ':' !in s
    decreases |s|
  {
    if s != "" {
      NoColon(s[1..]);
      assert s == [s[0]] + s[1..];
    }
  }

  lemma {:induction false} ColonsJoin(a: string, b: string)
    ensures Colons(a + b) == Colons(a) + Colons(b)
    decreases |a|
  {
    if a == "" {
      assert a + b == b;
    } else {
      assert (a + b)[1..] == a[1..] + b;
      ColonsJoin(a[1..], b);
    }
  }

  /** A host as parsing leaves it. */
  ghost predicate IsParsedHost(host: string, v6: Ipv6Text) {
    || (IsHostName(host) && ':' !in host && Lower(host) == host)
    || (v6(host) == Some(host) && ':' in host && |host| <= 45 && forall k :: 0 <= k < |host| ==> IsCanonicalChar(host[k]))
  }

  lemma CanonicalIsLower(c: string)
    requires forall k :: 0 <= k < |c| ==> IsCanonicalChar(c[k])
    ensures Lower(c) == c
  {
  }

  lemma Ipv6Parsed(s: string, v6: Ipv6Text)
    requires Lawful(v6) && v6(s).Some?
    ensures IsParsedHost(Lower(v6(s).value), v6)
  {
    var c := v6(s).value;
    CanonicalIsLower(c);
    assert v6(c).Some?;
    NoColon(c);
  }

  lemma HostParsed(value: string)
    requires ParseHost(value).Ok?
    ensures IsHostName(ParseHost(value).value.0) && ':' !in ParseHost(value).value.0
    ensures Lower(ParseHost(value).value.0) == ParseHost(value).value.0 && ParseHost(value).value.1 <= U16_MAX
  {
    var host := value[..IndexOf(value, ':')];
    LowerHostName(host);
    LowerTwice(host);
  }

  lemma PartsParsed(value: string, v6: Ipv6Text)
    requires Lawful(v6) && value != "" && ParseParts(value, v6).Ok?
    ensures IsParsedHost(Lower(ParseParts(value, v6).value.0), v6) && ParseParts(value, v6).value.1 <= U16_MAX
  {
    if value[0] == '[' {
      Ipv6Parsed(value[1..IndexOf(value, ']')], v6);
    } else if IsIpv4(value) {
      Ipv4IsHostName(value);
      OctetsAreShort(value, 4);
    } else if v6(value).Some? {
      Ipv6Parsed(value, v6);
    } else {
      HostParsed(value);
    }
  }

  lemma BracketedReads(host: string, port: nat, v6: Ipv6Text)
    requires port <= U16_MAX && v6(host) == Some(host) && forall k :: 0 <= k < |host| ==> IsCanonicalChar(host[k])
    ensures ParseBracketed("[" + host + "]:" + Decimal(port), v6) == Ok((host, port))
  {
    var value := "[" + host + "]:" + Decimal(port);
    var rest := ":" + Decimal(port);
    assert value == ("[" + host) + [']'] + rest;
    IndexOfJoin("[" + host, ']', rest);
    assert value[1..|host| + 1] == host && value[|host| + 2..] == rest;
    assert rest[1..] == Decimal(port);
    ParsePrintedU16(port);
  }

  lemma PlainReads(host: string, port: nat)
    requires port <= U16_MAX && IsHostName(host) && ':' !in host && Lower(host) == host
    ensures ParseHost(host + ":" + Decimal(port)) == Ok((host, port))
  {
    var value := host + ":" + Decimal(port);
    IndexOfJoin(host, ':', Decimal(port));
    assert value == host + [':'] + Decimal(port);
    assert value[..|host|] == host && value[|host| + 1..] == Decimal(port);
    assert ':' !in Decimal(port);
    ParsePrintedU16(port);
  }

  lemma NormalizedReads(host: string, port: nat, v6: Ipv6Text)
    requires Lawful(v6) && IsParsedHost(host, v6) && port <= U16_MAX
    ensures Normalized(host, port) != "" && ParseParts(Normalized(host, port), v6) == Ok((host, port))
  {
    if ':' in host {
      BracketedReads(host, port, v6);
    } else {
      PlainReads(host, port);
      NotAnIp(host, Decimal(port), v6);
      assert (host + ":" + Decimal(port))[0] == host[0];
    }
  }

  predicate IsClean(c: char) {
    c != '@' && c != '/' && c != '?' && c != '#' && !IsWhitespace(c)
  }

  lemma NormalizedIsClean(host: string, port: nat, v6: Ipv6Text)
    requires IsParsedHost(host, v6)
    ensures forall k :: 0 <= k < |Normalized(host, port)| ==> IsClean(Normalized(host, port)[k])
    ensures Normalized(host, port) != ""
  {
    var d := Decimal(port);
    assert forall k :: 0 <= k < |d| ==> IsClean(d[k]);
    assert forall k :: 0 <= k < |host| ==> IsClean(host[k]);
  }

  lemma CleanIsUsable(s: string)
    requires s != "" && forall k :: 0 <= k < |s| ==> IsClean(s[k])
    ensures Trim(s) == s && !HasAny(s)
  {
  }

  /** Parsing the normalised form of a parsed address gives the same address. */
  lemma NormalisationIsIdempotent(input: string, v6: Ipv6Text)
    requires Lawful(v6) && Parse(input, v6).Ok?
    ensures Parse(Parse(input, v6).value.normalized, v6) == Parse(input, v6)
  {
    var parts := ParseParts(Trim(input), v6).value;
    var host := Lower(parts.0);
    PartsParsed(Trim(input), v6);
    NormalizedReads(host, parts.1, v6);
    NormalizedIsClean(host, parts.1, v6);
    CleanIsUsable(Normalized(host, parts.1));
    LowerTwice(parts.0);
  }

  /** A normalised address is printable, and tells its host and port apart. */
  lemma NormalizedDetermines(a: string, b: string, v6: Ipv6Text)
    requires Lawful(v6) && Parse(a, v6).Ok? && Parse(b, v6).Ok?
    ensures Parse(a, v6).value.normalized == Parse(b, v6).value.normalized <==> Parse(a, v6) == Parse(b, v6)
  {
    NormalisationIsIdempotent(a, v6);
    NormalisationIsIdempotent(b, v6);
  }

  lemma PortIsValid(port: nat)
    requires 0 < port <= U16_MAX
    ensures Queues.ValidPort(Decimal(port))
  {
    assert Power10(5) == 100000;
    DecimalLength(port, 5);
    ParsePrintedU16(port);
  }

  lemma NormalizedIsShort(host: string, port: nat, v6: Ipv6Text)
    requires IsParsedHost(host, v6) && 0 < port <= U16_MAX
    ensures |Normalized(host, port)| <= Queues.ADDRESS_LIMIT
  {
    PortIsValid(port);
  }

  /** Every address the client accepts is, once normalised, an address a queue request accepts: the
      check before elevation refuses no trusted server. */
  lemma TrustedAddressesAccepted(input: string, v6: Ipv6Text)
    requires Lawful(v6) && Parse(input, v6).Ok?
    ensures Queues.ValidateAddress(Parse(input, v6).value.normalized) == Ok(())
  {
    var a := Parse(input, v6).value;
    PartsParsed(Trim(input), v6);
    PortIsValid(a.port);
    NormalizedIsShort(a.host, a.port, v6);
    NormalizedIsClean(a.host, a.port, v6);
    if ':' in a.host {
      Queues.BracketedAddress(a.host, Decimal(a.port));
    } else {
      Queues.HostAddress(a.host, Decimal(a.port));
    }
  }

  // ---------------------------------------------------------------- queue names

  /** A host name's label keeps the name and the port apart with its last dash. */
  lemma HostLabel(host: string, port: nat)
    requires IsHostName(host) && ':' !in host
    ensures Queues.AddressLabel(Normalized(host, port)) == host + "-" + Decimal(port)
    ensures host[|host| - 1] != '-' && host[0] != '-'
  {
    LabelEnds(host);
    Queues.PlainLabel(Normalized(host, port), host, Decimal(port));
  }

  lemma {:induction false} LabelEnds(s: string)
    requires AreLabels(s)
    ensures s != "" && s[0] != '-' && s[|s| - 1] != '-'
    decreases |s|
  {
    var dot := IndexOf(s, '.');
    assert s[..dot][0] == s[0] && s[..dot][dot - 1] == s[dot - 1];
    if dot < |s| {
      LabelEnds(s[dot + 1..]);
      assert s[dot + 1..][|s| - dot - 2] == s[|s| - 1];
    }
  }

  /** What is left of a printed IPv6 address in a label: its colons are dashes, and the first are gone. */
  lemma {:induction false} LeadingDashes(c: string, rest: string)
    requires rest != "" && rest[0] != '-'
    requires forall k :: 0 <= k < |c| ==> IsCanonicalChar(c[k])
    ensures Queues.TrimDashesStart(Queues.Dashed(c) + ("--" + rest))
            == if WithoutLeadingColons(c) == "" then rest else Queues.Dashed(WithoutLeadingColons(c)) + ("--" + rest)
    decreases |c|
  {
    var s := Queues.Dashed(c) + ("--" + rest);
    if c == "" {
      assert s == "--" + rest && s[1..] == "-" + rest && s[1..][1..] == rest;
      assert Queues.TrimDashesStart(rest) == rest;
      assert Queues.TrimDashesStart(s[1..]) == rest;
    } else if c[0] == ':' {
      assert Queues.Dashed(c)[1..] == Queues.Dashed(c[1..]);
      assert s[0] == '-' && s[1..] == Queues.Dashed(c[1..]) + ("--" + rest);
      LeadingDashes(c[1..], rest);
    } else {
      assert s[0] == c[0] && c[0] != '-';
    }
  }

  /** The host part of an IPv6 server's label. */
  function Ipv6Label(c: string, port: nat): string {
    var bare := WithoutLeadingColons(c);
    if bare == "" then Decimal(port) else Queues.Dashed(bare) + ("--" + Decimal(port))
  }

  lemma BracketedLabel(c: string, port: nat)
    requires ':' in c && forall k :: 0 <= k < |c| ==> IsCanonicalChar(c[k])
    ensures Queues.AddressLabel(Normalized(c, port)) == Ipv6Label(c, port)
  {
    DashedBrackets(c, Decimal(port));
    LeadingDashes(c, Decimal(port));
    OneDashMore(Queues.Dashed(c) + ("--" + Decimal(port)));
    NoTrailingDash(c, port);
  }

  lemma OneDashMore(s: string)
    ensures Queues.TrimDashesStart("-" + s) == Queues.TrimDashesStart(s)
  {
    assert ("-" + s)[1..] == s;
  }

  lemma NoTrailingDash(c: string, port: nat)
    ensures Ipv6Label(c, port) != "" && Queues.TrimDashesEnd(Ipv6Label(c, port)) == Ipv6Label(c, port)
  {
    var l, d := Ipv6Label(c, port), Decimal(port);
    assert l[|l| - 1] == d[|d| - 1];
  }

  lemma DashedJoin(a: string, b: string)
    ensures Queues.Dashed(a + b) == Queues.Dashed(a) + Queues.Dashed(b)
  {
  }

  lemma DashedBrackets(c: string, d: string)
    requires AllDigits(d)
    ensures Queues.Dashed("[" + c + "]:" + d) == "-" + (Queues.Dashed(c) + ("--" + d))
  {
    assert Queues.Dashed(d) == d && Queues.Dashed("[") == "-" && Queues.Dashed("]:") == "--";
    DashedJoin("[" + c + "]:", d);
    DashedJoin("[" + c, "]:");
    DashedJoin("[", c);
    Regroup("-" + Queues.Dashed(c), "--", d);
    Regroup("-", Queues.Dashed(c), "--" + d);
  }

  /** The last dash of an IPv6 label follows another dash, if there is one; that of a host name's label
      never does. */
  lemma KindsDiffer(host: string, port: nat, c: string, other: nat)
    requires IsHostName(host) && host[|host| - 1] != '-'
    ensures host + "-" + Decimal(port) != Ipv6Label(c, other)
  {
    var name, l := host + "-" + Decimal(port), Ipv6Label(c, other);
    LastIndexOfJoin(host, '-', Decimal(port));
    var bare := WithoutLeadingColons(c);
    if bare != "" {
      LastIndexOfJoin(Queues.Dashed(bare) + "-", '-', Decimal(other));
      assert l == Queues.Dashed(bare) + "-" + "-" + Decimal(other);
      assert l[|bare|] == '-' && name[|host| - 1] == host[|host| - 1];
    } else {
      assert name[|host|] == '-';
    }
  }

  lemma DecimalDetermines(m: nat, n: nat)
    ensures Decimal(m) == Decimal(n) <==> m == n
  {
    DecimalRoundTrip(m);
    DecimalRoundTrip(n);
  }

  lemma DashedDetermines(c: string, d: string)
    requires forall k :: 0 <= k < |c| ==> IsCanonicalChar(c[k])
    requires forall k :: 0 <= k < |d| ==> IsCanonicalChar(d[k])
    ensures Queues.Dashed(c) == Queues.Dashed(d) <==> c == d
  {
    if Queues.Dashed(c) == Queues.Dashed(d) {
      assert |c| == |d|;
      forall k | 0 <= k < |c| ensures c[k] == d[k] {
        assert Queues.Dashed(c)[k] == Queues.Dashed(d)[k];
      }
    }
  }

  lemma {:induction false} BareIsCanonical(c: string)
    requires forall k :: 0 <= k < |c| ==> IsCanonicalChar(c[k])
    ensures forall k :: 0 <= k < |WithoutLeadingColons(c)| ==> IsCanonicalChar(WithoutLeadingColons(c)[k])
    decreases |c|
  {
    if c != "" && c[0] == ':' {
      BareIsCanonical(c[1..]);
    }
  }

  lemma BareLabelsDetermine(x: string, m: string, y: string, n: string)
    requires '-' !in m && '-' !in n
    requires Queues.Dashed(x) + ("--" + m) == Queues.Dashed(y) + ("--" + n)
    ensures Queues.Dashed(x) == Queues.Dashed(y) && m == n
  {
    var a, b := Queues.Dashed(x) + "-", Queues.Dashed(y) + "-";
    assert a + "-" + m == Queues.Dashed(x) + ("--" + m) && b + "-" + n == Queues.Dashed(y) + ("--" + n);
    Queues.SameParts(a, m, b, n);
    assert a[..|x|] == Queues.Dashed(x) && b[..|y|] == Queues.Dashed(y);
  }

  lemma Ipv6LabelsDetermine(c: string, m: nat, d: string, n: nat)
    requires forall k :: 0 <= k < |c| ==> IsCanonicalChar(c[k])
    requires forall k :: 0 <= k < |d| ==> IsCanonicalChar(d[k])
    requires Ipv6Label(c, m) == Ipv6Label(d, n)
    ensures WithoutLeadingColons(c) == WithoutLeadingColons(d) && m == n
  {
    var x, y := WithoutLeadingColons(c), WithoutLeadingColons(d);
    DecimalDetermines(m, n);
    DigitsOnly(m);
    DigitsOnly(n);
    DashInLabel(c, m);
    DashInLabel(d, n);
    if x != "" && y != "" {
      BareIsCanonical(c);
      BareIsCanonical(d);
      BareLabelsDetermine(x, Decimal(m), y, Decimal(n));
      DashedDetermines(x, y);
    }
  }

  lemma DashInLabel(c: string, m: nat)
    ensures '-' in Ipv6Label(c, m) <==> WithoutLeadingColons(c) != ""
  {
    DigitsOnly(m);
    var bare := WithoutLeadingColons(c);
    assert bare != "" ==> Ipv6Label(c, m)[|bare|] == '-';
  }

  lemma DigitsOnly(n: nat)
    ensures '-' !in Decimal(n)
  {
  }

  lemma LabelsTell(h: string, m: nat, g: string, n: nat, v6: Ipv6Text)
    requires Lawful(v6) && IsParsedHost(h, v6) && IsParsedHost(g, v6)
    requires Queues.AddressLabel(Normalized(h, m)) == Queues.AddressLabel(Normalized(g, n))
    ensures h == g && m == n
  {
    if ':' in h && ':' in g {
      BracketedLabel(h, m);
      BracketedLabel(g, n);
      Ipv6LabelsDetermine(h, m, g, n);
    } else if ':' in h {
      BracketedLabel(h, m);
      HostLabel(g, n);
      KindsDiffer(g, n, h, m);
    } else if ':' in g {
      HostLabel(h, m);
      BracketedLabel(g, n);
      KindsDiffer(h, m, g, n);
    } else {
      HostLabel(h, m);
      HostLabel(g, n);
      Queues.SameParts(h, Decimal(m), g, Decimal(n));
      DecimalDetermines(m, n);
    }
  }

  /** The queue name keeps servers and printers apart: for every two addresses the client accepts, the
      derived names are equal exactly when printer and normalised address are. */
  lemma QueueNamesTellServersApart(p: string, a: string, q: string, b: string, v6: Ipv6Text)
    requires Lawful(v6) && Parse(a, v6).Ok? && Parse(b, v6).Ok?
    ensures var x, y := Parse(a, v6).value.normalized, Parse(b, v6).value.normalized;
      Queues.DerivedName(p, x) == Queues.DerivedName(q, y) <==> p == q && x == y
  {
    var x, y := Parse(a, v6).value, Parse(b, v6).value;
    Queues.DerivedNameIdentifies(p, x.normalized, q, y.normalized);
    PartsParsed(Trim(a), v6);
    PartsParsed(Trim(b), v6);
    if Queues.AddressLabel(x.normalized) == Queues.AddressLabel(y.normalized) {
      LabelsTell(x.host, x.port, y.host, y.port, v6);
    }
  }

  ghost predicate DottedQuad(s: string, a: nat, b: nat, c: nat, d: nat) {
    s == Decimal(a) + "." + (Decimal(b) + "." + (Decimal(c) + "." + Decimal(d)))
  }

  lemma OctetExactly(o: string)
    ensures IsOctet(o) <==> exists a: nat :: a <= 255 && o == Decimal(a)
  {
    if IsOctet(o) {
      CanonicalDigits(o);
      assert o == Decimal(Value(o));
    }
    forall a: nat | a <= 255 && o == Decimal(a) ensures IsOctet(o) {
      DecimalRoundTrip(a);
      assert a < 1000 == Power10(3);
      DecimalLength(a, 3);
      DecimalStarts(a);
    }
  }

  lemma OctetJoins(a: nat, rest: string, n: nat)
    requires a <= 255 && n >= 2
    ensures AreOctets(Decimal(a) + "." + rest, n) <==> AreOctets(rest, n - 1)
  {
    var o := Decimal(a);
    OctetExactly(o);
    IndexOfJoin(o, '.', rest);
    assert (o + "." + rest)[..|o|] == o;
    assert (o + "." + rest)[|o| + 1..] == rest;
  }

  lemma OctetAlone(a: nat)
    requires a <= 255
    ensures AreOctets(Decimal(a), 1)
  {
    var o := Decimal(a);
    OctetExactly(o);
    assert IndexOf(o, '.') == |o|;
    assert o[..|o|] == o;
  }

  lemma OctetTaken(s: string, n: nat) returns (a: nat, rest: string)
    requires AreOctets(s, n) && n >= 2
    ensures a <= 255 && s == Decimal(a) + "." + rest && AreOctets(rest, n - 1)
  {
    var dot := IndexOf(s, '.');
    OctetExactly(s[..dot]);
    a :| a <= 255 && s[..dot] == Decimal(a);
    rest := s[dot + 1..];
    CutAt(s, dot);
  }

  lemma LastOctet(s: string) returns (a: nat)
    requires AreOctets(s, 1)
    ensures a <= 255 && s == Decimal(a)
  {
    assert s[..|s|] == s;
    OctetExactly(s);
    a :| a <= 255 && s == Decimal(a);
  }

  /** An IPv4 address is four numbers up to 255, each in its decimal form. */
  lemma Ipv4Exactly(s: string)
    ensures IsIpv4(s) <==> exists a: nat, b: nat, c: nat, d: nat ::
      a <= 255 && b <= 255 && c <= 255 && d <= 255 && DottedQuad(s, a, b, c, d)
  {
    if IsIpv4(s) {
      var a, s1 := OctetTaken(s, 4);
      var b, s2 := OctetTaken(s1, 3);
      var c, s3 := OctetTaken(s2, 2);
      var d := LastOctet(s3);
      assert DottedQuad(s, a, b, c, d);
    }
    forall a: nat, b: nat, c: nat, d: nat | a <= 255 && b <= 255 && c <= 255 && d <= 255 && DottedQuad(s, a, b, c, d)
      ensures IsIpv4(s)
    {
      OctetAlone(d);
      OctetJoins(c, Decimal(d), 2);
      OctetJoins(b, Decimal(c) + "." + Decimal(d), 3);
      OctetJoins(a, Decimal(b) + "." + (Decimal(c) + "." + Decimal(d)), 4);
    }
  }
}
