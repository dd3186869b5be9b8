/** The loopback queue URIs (adapters/client_proxy.rs) and the percent coding they use
    (adapters/ipps/protocol.rs; section 2.1 of RFC 3986). */
module Routing {
  import opened Common
  import opened Bytes
  import opened Text
  import opened Address
  import Queues

  // ---------------------------------------------------------------- percent coding

  predicate IsUnreserved(b: byte) {
    0x30 <= b <= 0x39 || 0x41 <= b <= 0x5A || 0x61 <= b <= 0x7A || b == 0x2D || b == 0x2E || b == 0x5F || b == 0x7E
  }

  function HexChar(d: nat): (c: char)
    requires d < 16
  {
    if d < 10 then (0x30 + d) as char else (0x37 + d) as char
  }

  function HexValue(b: byte): Option<nat> {
    if 0x30 <= b <= 0x39 then Some(b as int - 0x30)
    else if 0x61 <= b <= 0x66 then Some(b as int - 0x61 + 10)
    else if 0x41 <= b <= 0x46 then Some(b as int - 0x41 + 10)
    else None
  }

  function Escape(b: byte): string {
    if IsUnreserved(b) then [b as char] else ['%', HexChar(b / 16), HexChar(b % 16)]
  }

  function EscapeAll(b: bytes): string {
    if b == [] then "" else Escape(b[0]) + EscapeAll(b[1..])
  }

  function PercentEncode(value: string): string {
    EscapeAll(EncodeUtf8(value))
  }

  /** Usable escapes are decoded and everything else is kept. */
  function Unescape(b: bytes): bytes {
    if b == [] then []
    else if b[0] == 0x25 && |b| > 2 && HexValue(b[1]).Some? && HexValue(b[2]).Some? then
      [HexValue(b[1]).value * 16 + HexValue(b[2]).value] + Unescape(b[3..])
    else [b[0]] + Unescape(b[1..])
  }

  function PercentDecode(value: string): string {
    LossyUtf8(Unescape(EncodeUtf8(value)))
  }

  lemma OneAscii(c: char)
    requires c as int < 0x80
    ensures EncodeUtf8([c]) == [c as int]
  {
    assert [c][1..] == "";
  }

  lemma ThreeAscii(x: char, y: char, z: char)
    requires x as int < 0x80 && y as int < 0x80 && z as int < 0x80
    ensures EncodeUtf8([x, y, z]) == [x as int, y as int, z as int]
  {
    OneAscii(x);
    OneAscii(y);
    OneAscii(z);
    assert [x, y, z] == [x] + ([y] + [z]);
    EncodeJoin([y], [z]);
    EncodeJoin([x], [y] + [z]);
  }

  lemma EscapeReads(b: byte, rest: bytes)
    ensures Unescape(EncodeUtf8(Escape(b)) + rest) == [b] + Unescape(rest)
  {
    var e := EncodeUtf8(Escape(b));
    if IsUnreserved(b) {
      OneAscii(b as char);
    } else {
      var high, low := HexChar(b / 16), HexChar(b % 16);
      ThreeAscii('%', high, low);
      assert (e + rest)[3..] == rest;
      assert b / 16 * 16 + b % 16 == b;
    }
  }

  lemma {:induction false} EscapesRead(b: bytes)
    ensures Unescape(EncodeUtf8(EscapeAll(b))) == b
    decreases |b|
  {
    if b != [] {
      EncodeJoin(Escape(b[0]), EscapeAll(b[1..]));
      EscapeReads(b[0], EncodeUtf8(EscapeAll(b[1..])));
      EscapesRead(b[1..]);
    }
  }

  /** Decoding an encoded text gives the text, whatever characters it has. */
  lemma PercentRoundTrip(value: string)
    ensures PercentDecode(PercentEncode(value)) == value
  {
    var b := EncodeUtf8(value);
    EscapesRead(b);
    Utf8RoundTrip(value);
    LossyIsExact(b);
  }

  /** The characters of an encoded text. */
  predicate IsCoded(c: char) {
    IsAlphanumeric(c) || c == '-' || c == '.' || c == '_' || c == '~' || c == '%'
  }

  lemma {:induction false} EncodedIsCoded(b: bytes)
    ensures forall k :: 0 <= k < |EscapeAll(b)| ==> IsCoded(EscapeAll(b)[k])
    ensures b != [] ==> EscapeAll(b) != ""
    decreases |b|
  {
    if b != [] {
      EncodedIsCoded(b[1..]);
    }
  }

  /** Unreserved characters stay as they are. */
  lemma {:induction false} UnreservedStays(b: bytes)
    requires forall k :: 0 <= k < |b| ==> IsUnreserved(b[k])
    ensures |EscapeAll(b)| == |b| && forall k :: 0 <= k < |b| ==> EscapeAll(b)[k] as int == b[k]
    decreases |b|
  {
    if b != [] {
      UnreservedStays(b[1..]);
    }
  }

  /** Without an escape there is nothing to decode. */
  lemma {:induction false} NothingToUnescape(b: bytes)
    requires 0x25 !in b
    ensures Unescape(b) == b
    decreases |b|
  {
    if b != [] {
      NothingToUnescape(b[1..]);
    }
  }

  // ---------------------------------------------------------------- routes

  datatype RouteError = BadAddress(address: AddressError) | BadPrinter(printer: Queues.InvalidInput) | NotThisProxy | BadDestination | NoDestination

  function ProxyUri(authority: string, server: string, printer: string): string {
    "ipp" + ("://" + (authority + ("/ipp/print/" + (PercentEncode(server) + ("/" + PercentEncode(printer))))))
  }

  /** The URI a native queue uses for a printer. */
  function ClientQueueUri(authority: string, server: string, printer: string, v6: Ipv6Text): Result<string, RouteError> {
    match Parse(server, v6)
    case Err(e) => Err(BadAddress(e))
    case Ok(address) =>
      match Queues.ParsePrinterName(printer)
      case Err(e) => Err(BadPrinter(e))
      case Ok(name) => Ok(ProxyUri(authority, address.normalized, name))
  }

  /** The two segments of a route, neither of them empty. */
  function Segments(route: string): Option<(string, string)> {
    var slash := IndexOf(route, '/');
    var server := route[..slash];
    var printer := if slash < |route| then route[slash + 1..] else "";
    if server == "" || printer == "" || '/' in printer then None else Some((server, printer))
  }

  function ParseRoute(route: string, v6: Ipv6Text): Result<(string, string), RouteError> {
    match Segments(route)
    case None => Err(BadDestination)
    case Some((server, printer)) => Destination(PercentDecode(server), PercentDecode(printer), v6)
  }

  function Destination(server: string, printer: string, v6: Ipv6Text): Result<(string, string), RouteError> {
    match Parse(server, v6)
    case Err(e) => Err(BadAddress(e))
    case Ok(address) =>
      match Queues.ParsePrinterName(printer)
      case Err(e) => Err(BadPrinter(e))
      case Ok(name) => Ok((address.normalized, name))
  }

  /** What precedes a query or a fragment. */
  function PathOnly(s: string): string {
    Before(Before(s, '?'), '#')
  }

  /** A query or a fragment after the path does not matter. */
  lemma QueriesDoNotMatter(path: string, rest: string)
    requires '?' !in path && '#' !in path && (rest == "" || rest[0] == '?' || rest[0] == '#')
    ensures PathOnly(path + rest) == path
  {
    var s := path + rest;
    assert forall k :: 0 <= k < |path| ==> s[k] == path[k];
    assert rest != "" ==> s[|path|] == rest[0];
    assert path + "" == path;
    var cut := Before(s, '?');
    assert |cut| >= |path| && cut[..|path|] == path;
    assert |cut| > |path| ==> cut[|path|] == s[|path|];
  }

  const ROUTE := "ipp/print/"

  predicate EqIgnoreCase(s: string, lower: string) {
    Lower(s) == lower
  }

  /** The first position of `://`. */
  function SchemeEnd(uri: string): (end: Option<nat>)
    ensures end.Some? ==> end.value + 3 <= |uri|
  {
    if HasPrefix(uri, "://") then Some(0)
    else if uri == "" then None
    else match SchemeEnd(uri[1..]) case None => None case Some(i) => Some(i + 1)
  }

  predicate IsLoopbackHost(host: string) {
    EqIgnoreCase(host, "localhost") || host == "127.0.0.1"
  }

  function AuthorityHost(authority: string): string {
    match LastIndexOf(authority, ':') case None => authority case Some(i) => authority[..i]
  }

  /** The text after the last colon, if there is a colon. */
  function AuthorityPort(authority: string): Option<string> {
    match LastIndexOf(authority, ':') case None => None case Some(i) => Some(authority[i + 1..])
  }

  /** Splits a loopback queue URI into the server it targets and the printer's name. */
  function RouteUri(uri: string, proxy: string, v6: Ipv6Text): Result<(string, string), RouteError> {
    match SchemeEnd(uri)
    case None => Err(NotThisProxy)
    case Some(i) =>
      var scheme, remainder := uri[..i], uri[i + 3..];
      if !EqIgnoreCase(scheme, "ipp") && !EqIgnoreCase(scheme, "http") then Err(NotThisProxy)
      else RouteRemainder(remainder, proxy, v6)
  }

  function RouteRemainder(remainder: string, proxy: string, v6: Ipv6Text): Result<(string, string), RouteError> {
    var slash := IndexOf(remainder, '/');
    if slash == |remainder| then Err(BadDestination)
    else RouteParts(remainder[..slash], remainder[slash + 1..], proxy, v6)
  }

  function RouteParts(authority: string, path: string, proxy: string, v6: Ipv6Text): Result<(string, string), RouteError> {
    var port := AuthorityPort(authority);
    if port.Some? && ParseU16(port.value).None? then Err(BadDestination)
    else if !IsLoopbackHost(AuthorityHost(authority)) then Err(NotThisProxy)
    else if port.Some? && ProxyPort(proxy) != ParseU16(port.value) then Err(NotThisProxy)
    else RoutePlain(PathOnly(path), v6)
  }

  function RoutePlain(path: string, v6: Ipv6Text): Result<(string, string), RouteError> {
    if HasPrefix(path, ROUTE) then ParseRoute(path[|ROUTE|..], v6) else Err(BadDestination)
  }

  function ProxyPort(proxy: string): Option<nat> {
    var port := AuthorityPort(proxy);
    if port.None? then None else ParseU16(port.value)
  }

  /** The route in an HTTP request path, and the queue URI it stands for. */
  function RouteFromRequestPath(path: string, proxy: string, v6: Ipv6Text): Result<(string, string, string), RouteError> {
    var plain := PathOnly(path);
    if !HasPrefix(plain, "/" + ROUTE) then Err(NoDestination)
    else
      match ParseRoute(plain[|ROUTE| + 1..], v6)
      case Err(e) => Err(e)
      case Ok((server, printer)) => Ok((server, printer, ProxyUri(proxy, server, printer)))
  }

  // ---------------------------------------------------------------- routing back

  /** A server and printer as routing reports them. */
  ghost predicate IsDestination(server: string, printer: string, v6: Ipv6Text) {
    && Parse(server, v6).Ok? && Parse(server, v6).value.normalized == server
    && Queues.ParsePrinterName(printer) == Ok(printer)
  }

  function Route(server: string, printer: string): string {
    PercentEncode(server) + ("/" + PercentEncode(printer))
  }

  lemma CodedText(s: string)
    requires s != ""
    ensures var e := PercentEncode(s);
      e != "" && '/' !in e && '?' !in e && '#' !in e && ':' !in e
  {
    EncodedIsCoded(EncodeUtf8(s));
  }

  lemma RouteReads(server: string, printer: string, v6: Ipv6Text)
    requires IsDestination(server, printer, v6)
    ensures ParseRoute(Route(server, printer), v6) == Ok((server, printer))
  {
    var s, p := PercentEncode(server), PercentEncode(printer);
    CodedText(server);
    CodedText(printer);
    IndexOfJoin(s, '/', p);
    Regroup(s, "/", p);
    assert Route(server, printer)[..|s|] == s && Route(server, printer)[|s| + 1..] == p;
    PercentRoundTrip(server);
    PercentRoundTrip(printer);
  }

  lemma NothingBefore(s: string, c: char)
    requires c !in s
    ensures Before(s, c) == s
  {
    assert IndexOf(s, c) == |s|;
  }

  lemma RoutePath(prefix: string, server: string, printer: string)
    requires server != "" && printer != "" && '?' !in prefix && '#' !in prefix
    ensures PathOnly(prefix + Route(server, printer)) == prefix + Route(server, printer)
    ensures HasPrefix(prefix + Route(server, printer), prefix)
    ensures (prefix + Route(server, printer))[|prefix|..] == Route(server, printer)
  {
    CodedText(server);
    CodedText(printer);
    var path := prefix + Route(server, printer);
    assert forall c :: c in path ==> c in prefix || c in PercentEncode(server) || c == '/' || c in PercentEncode(printer);
    NothingBefore(path, '?');
    NothingBefore(path, '#');
  }

  /** The authority a proxy is reached at: a loopback host, and a port when there is a colon. */
  predicate IsLoopback(authority: string) {
    && IsLoopbackHost(AuthorityHost(authority))
    && (AuthorityPort(authority).Some? ==> ProxyPort(authority).Some?)
  }

  lemma PartsRead(authority: string, path: string, server: string, printer: string, v6: Ipv6Text)
    requires RoutePlain(PathOnly(path), v6) == Ok((server, printer))
    ensures RouteParts(authority, path, authority, v6) == Ok((server, printer)) <==> IsLoopback(authority)
  {
  }

  lemma RemainderSplits(authority: string, path: string, proxy: string, v6: Ipv6Text)
    requires '/' !in authority
    ensures RouteRemainder(authority + ("/" + path), proxy, v6) == RouteParts(authority, path, proxy, v6)
  {
    var remainder := authority + ("/" + path);
    IndexOfJoin(authority, '/', path);
    Regroup(authority, "/", path);
    assert remainder[..|authority|] == authority && remainder[|authority| + 1..] == path;
  }

  lemma PathReads(server: string, printer: string, v6: Ipv6Text)
    requires IsDestination(server, printer, v6)
    ensures RoutePlain(PathOnly(ROUTE + Route(server, printer)), v6) == Ok((server, printer))
  {
    RouteReads(server, printer, v6);
    RouteIsPlain();
    RoutePath(ROUTE, server, printer);
  }

  lemma RouteIsPlain()
    ensures '?' !in ROUTE && '#' !in ROUTE && '?' !in "/" + ROUTE && '#' !in "/" + ROUTE
  {
  }

  lemma {:induction false} SchemeReads(scheme: string, rest: string)
    requires ':' !in scheme
    ensures SchemeEnd(scheme + ("://" + rest)) == Some(|scheme|)
    decreases |scheme|
  {
    var uri := scheme + ("://" + rest);
    if scheme == "" {
      assert uri == "://" + rest && uri[..3] == "://";
    } else {
      assert uri[0] != ':' && uri[1..] == scheme[1..] + ("://" + rest);
      NoScheme(uri);
      SchemeReads(scheme[1..], rest);
    }
  }

  lemma NoScheme(s: string)
    requires s != "" && s[0] != ':'
    ensures !HasPrefix(s, "://")
  {
    assert |s| >= 3 ==> s[..3][0] == s[0];
  }

  /** Routing an `ipp` URI looks at what follows the scheme. */
  lemma IppRoutes(rest: string, proxy: string, v6: Ipv6Text)
    ensures RouteUri("ipp" + ("://" + rest), proxy, v6) == RouteRemainder(rest, proxy, v6)
  {
    var uri := "ipp" + ("://" + rest);
    SchemeReads("ipp", rest);
    assert uri[..3] == "ipp" && uri[6..] == rest;
    assert Lower("ipp") == "ipp";
  }

  lemma UriShape(authority: string, server: string, printer: string)
    ensures ProxyUri(authority, server, printer) == "ipp" + ("://" + (authority + ("/" + (ROUTE + Route(server, printer)))))
  {
    Regroup("/", ROUTE, Route(server, printer));
    assert "/" + ROUTE == "/ipp/print/";
  }

  /** A queue URI routes back to its server and printer at exactly the loopback proxies. */
  lemma UriRoutesBack(authority: string, server: string, printer: string, v6: Ipv6Text)
    requires '/' !in authority && IsDestination(server, printer, v6)
    ensures RouteUri(ProxyUri(authority, server, printer), authority, v6) == Ok((server, printer)) <==> IsLoopback(authority)
  {
    UriShape(authority, server, printer);
    IppRoutes(authority + ("/" + (ROUTE + Route(server, printer))), authority, v6);
    RemainderSplits(authority, ROUTE + Route(server, printer), authority, v6);
    PathReads(server, printer, v6);
    PartsRead(authority, ROUTE + Route(server, printer), server, printer, v6);
  }

  lemma ParsedDestination(server: string, printer: string, address: ServerAddress, name: string, v6: Ipv6Text)
    requires Lawful(v6) && Parse(server, v6) == Ok(address) && Queues.ParsePrinterName(printer) == Ok(name)
    ensures IsDestination(address.normalized, name, v6)
  {
    NormalisationIsIdempotent(server, v6);
    TrimIsIdempotent(printer);
  }

  /** The URI of a manually configured queue leads to exactly the normalised server and printer it was
      made for. */
  lemma QueueUriRoundTrip(authority: string, server: string, printer: string, v6: Ipv6Text)
    requires Lawful(v6) && '/' !in authority && ClientQueueUri(authority, server, printer, v6).Ok?
    ensures RouteUri(ClientQueueUri(authority, server, printer, v6).value, authority, v6)
            == Ok((Parse(server, v6).value.normalized, Queues.ParsePrinterName(printer).value))
            <==> IsLoopback(authority)
  {
    var address, name := Parse(server, v6).value, Queues.ParsePrinterName(printer).value;
    ParsedDestination(server, printer, address, name, v6);
    UriRoutesBack(authority, address.normalized, name, v6);
  }

  lemma DestinationIsOne(server: string, printer: string, v6: Ipv6Text)
    requires Lawful(v6) && Destination(server, printer, v6).Ok?
    ensures IsDestination(Destination(server, printer, v6).value.0, Destination(server, printer, v6).value.1, v6)
  {
    ParsedDestination(server, printer, Parse(server, v6).value, Queues.ParsePrinterName(printer).value, v6);
  }

  lemma RouteGivesDestination(route: string, v6: Ipv6Text, server: string, printer: string)
    requires Lawful(v6) && ParseRoute(route, v6) == Ok((server, printer))
    ensures IsDestination(server, printer, v6)
  {
    var segments := Segments(route).value;
    DestinationIsOne(PercentDecode(segments.0), PercentDecode(segments.1), v6);
  }

  /** Whatever request path the spooler sends: when it is accepted, the URI rebuilt from it routes to
      the same server and printer, and is the queue URI of that destination. */
  lemma RequestPathAgreesWithUri(path: string, authority: string, v6: Ipv6Text)
    requires Lawful(v6) && '/' !in authority && IsLoopback(authority)
    requires RouteFromRequestPath(path, authority, v6).Ok?
    ensures var (server, printer, uri) := RouteFromRequestPath(path, authority, v6).value;
      && RouteUri(uri, authority, v6) == Ok((server, printer))
      && ClientQueueUri(authority, server, printer, v6) == Ok(uri)
  {
    var (server, printer, uri) := RouteFromRequestPath(path, authority, v6).value;
    RouteGivesDestination(PathOnly(path)[|ROUTE| + 1..], v6, server, printer);
    UriRoutesBack(authority, server, printer, v6);
  }

  /** The path of a queue URI is accepted and stands for that URI. */
  lemma RequestPathRoundTrip(authority: string, server: string, printer: string, v6: Ipv6Text)
    requires IsDestination(server, printer, v6)
    ensures RouteFromRequestPath("/" + ROUTE + Route(server, printer), authority, v6)
            == Ok((server, printer, ProxyUri(authority, server, printer)))
  {
    RouteIsPlain();
    RoutePath("/" + ROUTE, server, printer);
    RouteReads(server, printer, v6);
  }

  // ---------------------------------------------------------------- exactly what is routed

  /** The authority is a host, or a host and a port after its last colon. */
  ghost predicate AuthorityIs(authority: string, host: string, port: Option<string>) {
    if port.Some? then authority == host + ":" + port.value && ':' !in port.value else authority == host && ':' !in host
  }

  lemma AuthoritySplits(authority: string, host: string, port: Option<string>)
    ensures AuthorityIs(authority, host, port) <==> AuthorityHost(authority) == host && AuthorityPort(authority) == port
  {
    var colon := LastIndexOf(authority, ':');
    if colon.Some? {
      CutAt(authority, colon.value);
      var after := authority[colon.value + 1..];
      assert forall k :: 0 <= k < |after| ==> after[k] == authority[colon.value + 1 + k];
      assert ':' in authority;
    }
    if port.Some? && AuthorityIs(authority, host, port) {
      LastIndexOfJoin(host, ':', port.value);
      assert authority == host + [':'] + port.value;
      assert authority[..|host|] == host && authority[|host| + 1..] == port.value;
    }
  }

  /** The authority reaches this proxy: a loopback host, and no port or the proxy's own. */
  ghost predicate ReachesProxy(authority: string, proxy: string) {
    exists host: string, port: Option<string> ::
      && AuthorityIs(authority, host, port)
      && (Lower(host) == "localhost" || host == "127.0.0.1")
      && (port.Some? ==> ParseU16(port.value).Some? && ParseU16(port.value) == ProxyPort(proxy))
  }

  lemma PartsExactly(authority: string, path: string, proxy: string, v6: Ipv6Text, d: (string, string))
    ensures RouteParts(authority, path, proxy, v6) == Ok(d)
            <==> ReachesProxy(authority, proxy) && RoutePlain(PathOnly(path), v6) == Ok(d)
  {
    var host, port := AuthorityHost(authority), AuthorityPort(authority);
    AuthoritySplits(authority, host, port);
    if ReachesProxy(authority, proxy) {
      var h: string, q: Option<string> :|
        && AuthorityIs(authority, h, q) && (Lower(h) == "localhost" || h == "127.0.0.1")
        && (q.Some? ==> ParseU16(q.value).Some? && ParseU16(q.value) == ProxyPort(proxy));
      AuthoritySplits(authority, h, q);
    }
  }

  /** The path is `ipp/print/` and a route, before any query or fragment. */
  lemma PlainExactly(path: string, v6: Ipv6Text, d: (string, string))
    ensures RoutePlain(path, v6) == Ok(d) <==> exists route :: path == "ipp/print/" + route && ParseRoute(route, v6) == Ok(d)
  {
    if HasPrefix(path, ROUTE) {
      assert path == "ipp/print/" + path[|ROUTE|..];
    }
    forall route | path == "ipp/print/" + route ensures HasPrefix(path, ROUTE) && path[|ROUTE|..] == route {
    }
  }

  /** The route is two segments, neither of them empty. */
  ghost predicate SegmentsAre(route: string, a: string, b: string) {
    a != "" && b != "" && '/' !in a && '/' !in b && route == a + "/" + b
  }

  lemma SegmentsExactly(route: string, a: string, b: string)
    ensures Segments(route) == Some((a, b)) <==> SegmentsAre(route, a, b)
  {
    if Segments(route) == Some((a, b)) {
      CutAt(route, IndexOf(route, '/'));
      assert forall k :: 0 <= k < |a| ==> a[k] == route[k];
    }
    if SegmentsAre(route, a, b) {
      SegmentsJoin(a, b);
    }
  }

  /** The decoded segments must be an address and a printer name. */
  lemma DestinationExactly(server: string, printer: string, v6: Ipv6Text, address: string, name: string)
    ensures Destination(server, printer, v6) == Ok((address, name)) <==>
              Parse(server, v6).Ok? && Parse(server, v6).value.normalized == address
              && Queues.ParsePrinterName(printer) == Ok(name)
  {
  }

  /** Exactly which routes name which destination. */
  lemma RoutesNameExactly(route: string, v6: Ipv6Text, d: (string, string))
    ensures ParseRoute(route, v6) == Ok(d) <==>
              exists a, b :: SegmentsAre(route, a, b) && Destination(PercentDecode(a), PercentDecode(b), v6) == Ok(d)
  {
    forall a, b ensures Segments(route) == Some((a, b)) <==> SegmentsAre(route, a, b) {
      SegmentsExactly(route, a, b);
    }
    if Segments(route).Some? {
      assert SegmentsAre(route, Segments(route).value.0, Segments(route).value.1);
    }
  }

  lemma SegmentsJoin(a: string, b: string)
    requires a != "" && b != "" && '/' !in a && '/' !in b
    ensures Segments(a + "/" + b) == Some((a, b))
  {
    IndexOfJoin(a, '/', b);
    assert (a + "/" + b)[..|a|] == a && (a + "/" + b)[|a| + 1..] == b;
  }

  lemma PrefixCut(s: string, prefix: string)
    requires HasPrefix(s, prefix)
    ensures s == prefix + s[|prefix|..]
  {
  }

  lemma FirstAndRest(s: string, i: nat)
    requires i + 4 <= |s|
    ensures s[1..][..i] == s[1..i + 1] && s[1..][i + 3..] == s[i + 4..] && [s[0]] + s[1..i + 1] == s[..i + 1]
    ensures s == [s[0]] + s[1..]
  {
  }

  lemma {:induction false} SchemeIsFirst(uri: string)
    requires SchemeEnd(uri).Some?
    ensures uri == uri[..SchemeEnd(uri).value] + ("://" + uri[SchemeEnd(uri).value + 3..])
    decreases |uri|
  {
    if HasPrefix(uri, "://") {
      PrefixCut(uri, "://");
      assert uri[..0] == "" && "" + uri == uri;
    } else {
      var i := SchemeEnd(uri[1..]).value;
      SchemeIsFirst(uri[1..]);
      FirstAndRest(uri, i);
      Regroup([uri[0]], uri[1..i + 1], "://" + uri[i + 4..]);
    }
  }

  ghost predicate RemainderIs(remainder: string, authority: string, path: string) {
    '/' !in authority && remainder == authority + ("/" + path)
  }

  lemma SlashSplits(remainder: string)
    requires IndexOf(remainder, '/') < |remainder|
    ensures var slash := IndexOf(remainder, '/'); RemainderIs(remainder, remainder[..slash], remainder[slash + 1..])
  {
    var slash := IndexOf(remainder, '/');
    CutAt(remainder, slash);
    Regroup(remainder[..slash], [remainder[slash]], remainder[slash + 1..]);
    NotBefore(remainder, '/');
  }

  /** What follows the scheme must be an authority, a slash and a path; `RemainderSplits` says that these
      then decide. */
  lemma RoutedHasParts(remainder: string, proxy: string, v6: Ipv6Text) returns (authority: string, path: string)
    requires RouteRemainder(remainder, proxy, v6).Ok?
    ensures RemainderIs(remainder, authority, path) && RouteRemainder(remainder, proxy, v6) == RouteParts(authority, path, proxy, v6)
  {
    SlashSplits(remainder);
    var slash := IndexOf(remainder, '/');
    authority, path := remainder[..slash], remainder[slash + 1..];
  }

  /** A scheme this proxy answers to, in any case. */
  predicate IsScheme(scheme: string) {
    Lower(scheme) == "ipp" || Lower(scheme) == "http"
  }

  lemma SchemesHaveNoColon(scheme: string)
    requires IsScheme(scheme)
    ensures ':' !in scheme
  {
    assert forall k :: 0 <= k < |scheme| && scheme[k] == ':' ==> Lower(scheme)[k] == ':';
  }

  ghost predicate UriIs(uri: string, scheme: string, rest: string) {
    IsScheme(scheme) && uri == scheme + ("://" + rest)
  }

  /** An ipp or http URI, in any case, is routed by what follows its scheme. */
  lemma UriRoutes(uri: string, scheme: string, rest: string, proxy: string, v6: Ipv6Text)
    requires UriIs(uri, scheme, rest)
    ensures RouteUri(uri, proxy, v6) == RouteRemainder(rest, proxy, v6)
  {
    SchemesHaveNoColon(scheme);
    SchemeReads(scheme, rest);
    CutUri(scheme, rest);
  }

  lemma CutUri(scheme: string, rest: string)
    ensures var uri := scheme + ("://" + rest); uri[..|scheme|] == scheme && uri[|scheme| + 3..] == rest
  {
  }

  /** Only ipp and http URIs are routed, each to where the rest of it leads, as `UriRoutes` says. */
  lemma RoutedIsUri(uri: string, proxy: string, v6: Ipv6Text) returns (scheme: string, rest: string)
    requires RouteUri(uri, proxy, v6).Ok?
    ensures UriIs(uri, scheme, rest) && RouteUri(uri, proxy, v6) == RouteRemainder(rest, proxy, v6)
  {
    SchemeIsFirst(uri);
    scheme, rest := uri[..SchemeEnd(uri).value], uri[SchemeEnd(uri).value + 3..];
  }

  /** A byte that is a hexadecimal digit of the given value, in either case. */
  predicate IsHexByte(b: byte, d: nat) {
    (d < 10 && b == 0x30 + d) || (10 <= d < 16 && (b == 0x41 + d - 10 || b == 0x61 + d - 10))
  }

  /** Every escape is read, whichever case its digits have. */
  lemma EscapeIsRead(high: byte, low: byte, h: nat, l: nat, rest: bytes)
    requires IsHexByte(high, h) && IsHexByte(low, l)
    ensures Unescape([0x25, high, low] + rest) == [h * 16 + l] + Unescape(rest)
  {
    assert ([0x25, high, low] + rest)[3..] == rest;
  }

  lemma HexByteExactly(b: byte)
    ensures HexValue(b).Some? <==> exists d :: IsHexByte(b, d)
  {
    if HexValue(b).Some? {
      assert IsHexByte(b, HexValue(b).value);
    }
  }

  /** A percent sign that starts no escape stands for itself. */
  lemma LonePercentStays(b: bytes)
    requires b != [] && b[0] == 0x25
    requires |b| < 3 || (forall d :: !IsHexByte(b[1], d)) || (forall d :: !IsHexByte(b[2], d))
    ensures Unescape(b) == [0x25] + Unescape(b[1..])
  {
    if |b| >= 3 {
      HexByteExactly(b[1]);
      HexByteExactly(b[2]);
    }
  }

  /** What section 2.3 of RFC 3986 calls unreserved. */
  predicate IsUnreservedChar(c: char) {
    '0' <= c <= '9' || 'A' <= c <= 'Z' || 'a' <= c <= 'z' || c == '-' || c == '.' || c == '_' || c == '~'
  }

  lemma {:induction false} EscapeJoin(a: bytes, b: bytes)
    ensures EscapeAll(a + b) == EscapeAll(a) + EscapeAll(b)
    decreases |a|
  {
    if a == [] {
      assert a + b == b;
    } else {
      assert (a + b)[1..] == a[1..] + b;
      EscapeJoin(a[1..], b);
    }
  }

  lemma {:induction false} EscapeIsLonger(b: bytes)
    ensures |EscapeAll(b)| >= |b|
    decreases |b|
  {
    if b != [] {
      EscapeIsLonger(b[1..]);
    }
  }

  lemma EncodeOne(c: char)
    ensures |PercentEncode([c])| >= 1
    ensures |PercentEncode([c])| == 1 <==> IsUnreservedChar(c)
    ensures IsUnreservedChar(c) ==> PercentEncode([c]) == [c]
  {
    var b := EncodeChar(c);
    assert [c][1..] == "";
    assert EncodeUtf8([c]) == b;
    assert b == [b[0]] + b[1..];
    EscapeIsLonger(b[1..]);
    EscapeIsLonger(b);
  }

  /** A text is its own encoding exactly when all its characters are unreserved. */
  lemma {:induction false} StaysExactly(s: string)
    ensures |PercentEncode(s)| >= |s|
    ensures |PercentEncode(s)| == |s| <==> forall k :: 0 <= k < |s| ==> IsUnreservedChar(s[k])
    ensures PercentEncode(s) == s <==> forall k :: 0 <= k < |s| ==> IsUnreservedChar(s[k])
    decreases |s|
  {
    if s != "" {
      var c, rest := s[0], s[1..];
      assert s == [c] + rest;
      EncodeJoin([c], rest);
      EscapeJoin(EncodeUtf8([c]), EncodeUtf8(rest));
      assert PercentEncode(s) == PercentEncode([c]) + PercentEncode(rest);
      EncodeOne(c);
      StaysExactly(rest);
      assert forall k :: 0 < k < |s| ==> s[k] == rest[k - 1];
    }
  }
}
