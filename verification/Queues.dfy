/** Printer names and the requests for native client queues (domain/printer.rs, domain/queue.rs):
    what a request must look like before the elevated helper acts on it, and how far the derived queue
    name identifies the printer and the server. */
module Queues {
  import opened Common
  import opened Text

  const NAME_LIMIT: nat := 220
  const ADDRESS_LIMIT: nat := 300

  /** Why a value is refused. */
  datatype InvalidInput =
    | PrinterNameEmpty | PrinterNameTooLong | PrinterNameControl
    | QueueNameEmpty | QueueNameTooLong | QueueNameControl | QueueNameRejects(c: char)
    | AddressEmpty | AddressTooLong | AddressMalformed

  predicate HasControl(s: string) {
    exists k :: 0 <= k < |s| && IsControl(s[k])
  }

  /** Validates a printer name; the result is the trimmed name. */
  function ParsePrinterName(value: string): (r: Result<string, InvalidInput>)
  {
    var name := Trim(value);
    if name == "" then Err(PrinterNameEmpty)
    else if |name| > NAME_LIMIT then Err(PrinterNameTooLong)
    else if HasControl(name) then Err(PrinterNameControl)
    else Ok(name)
  }

  /** The name of the Windows queue, refused when the spooler could not carry it. */
  function ParseQueueName(value: string): Result<string, InvalidInput> {
    var name := Trim(value);
    if name == "" then Err(QueueNameEmpty)
    else if |name| > NAME_LIMIT then Err(QueueNameTooLong)
    else if HasControl(name) then Err(QueueNameControl)
    else
      var rejected := FirstRejected(name);
      if rejected < |name| then Err(QueueNameRejects(name[rejected])) else Ok(name)
  }

  function FirstRejected(s: string): (i: nat)
    ensures i <= |s|
    ensures i < |s| ==> s[i] == '\\' || s[i] == ','
    ensures forall k :: 0 <= k < i ==> s[k] != '\\' && s[k] != ','
  {
    if s == "" || s[0] == '\\' || s[0] == ',' then 0 else 1 + FirstRejected(s[1..])
  }

  // ---------------------------------------------------------------- queue names

  function LabelChar(c: char): char {
    if IsAlphanumeric(c) || c == '.' || c == '-' then c else '-'
  }

  function TrimDashesStart(s: string): (r: string)
    ensures forall c :: c in r ==> c in s
  {
    if s != "" && s[0] == '-' then TrimDashesStart(s[1..]) else s
  }

  function TrimDashesEnd(s: string): (r: string)
    ensures forall c :: c in r ==> c in s
  {
    if s != "" && s[|s| - 1] == '-' then TrimDashesEnd(s[..|s| - 1]) else s
  }

  /** Every character a queue name cannot carry becomes a dash. */
  function Dashed(address: string): (r: string)
    ensures |r| == |address| && forall k :: 0 <= k < |r| ==> r[k] == LabelChar(address[k])
  {
    seq(|address|, k requires 0 <= k < |address| => LabelChar(address[k]))
  }

  function AddressLabel(address: string): string {
    var slug := TrimDashesEnd(TrimDashesStart(Dashed(address)));
    if slug == "" then "server" else slug
  }

  /** The queue name for a printer and a server, before validation. */
  function DerivedName(printer: string, address: string): string {
    printer + " " + "(" + ("ShaPrint " + AddressLabel(address) + ")")
  }

  lemma LabelHasNoParenthesis(address: string)
    ensures '(' !in AddressLabel(address)
  {
    assert forall c :: LabelChar(c) != '(';
  }

  /** The derived name determines the printer and the label of the address, and nothing more. */
  lemma DerivedNameIdentifies(p: string, a: string, q: string, b: string)
    ensures DerivedName(p, a) == DerivedName(q, b) <==> p == q && AddressLabel(a) == AddressLabel(b)
  {
    if DerivedName(p, a) == DerivedName(q, b) {
      var name := DerivedName(p, a);
      LabelHasNoParenthesis(a);
      LabelHasNoParenthesis(b);
      LastParenthesis(p, AddressLabel(a));
      LastParenthesis(q, AddressLabel(b));
      assert |p| == |q|;
      assert p == name[..|p|] && q == name[..|p|];
      assert AddressLabel(a) == name[|p| + 11..|name| - 1];
      assert AddressLabel(b) == name[|p| + 11..|name| - 1];
    }
  }

  lemma LastParenthesis(printer: string, slug: string)
    requires '(' !in slug
    ensures LastIndexOf(printer + " " + "(" + ("ShaPrint " + slug + ")"), '(') == Some(|printer| + 1)
  {
    var after := "ShaPrint " + slug + ")";
    assert '(' !in after by {
      assert '(' !in "ShaPrint " && '(' !in ")";
    }
    LastIndexOfJoin(printer + " ", '(', after);
  }

  /** `host:port` with a host that is not an IPv6 literal and does not start with a dash. */
  ghost predicate PlainHostPort(address: string, host: string, port: string) {
    && address == host + ":" + port
    && host != "" && host[0] != '-'
    && (forall c :: c in host ==> IsAlphanumeric(c) || c == '.' || c == '-')
    && port != "" && AllDigits(port)
  }

  lemma DashedPlain(host: string, port: string)
    requires (forall c :: c in host ==> IsAlphanumeric(c) || c == '.' || c == '-') && AllDigits(port)
    ensures Dashed(host + ":" + port) == host + "-" + port
  {
    var dashed := Dashed(host + ":" + port);
    assert forall k :: 0 <= k < |host| ==> dashed[k] == host[k];
    assert forall k :: 0 <= k < |port| ==> dashed[|host| + 1 + k] == port[k];
  }

  lemma PlainLabel(address: string, host: string, port: string)
    requires PlainHostPort(address, host, port)
    ensures AddressLabel(address) == host + "-" + port
  {
    DashedPlain(host, port);
    var slug := host + "-" + port;
    assert slug[0] == host[0] && slug[|slug| - 1] == port[|port| - 1];
  }

  lemma SameParts(ha: string, pa: string, hb: string, pb: string)
    requires '-' !in pa && '-' !in pb && ha + "-" + pa == hb + "-" + pb
    ensures ha == hb && pa == pb
  {
    LastIndexOfJoin(ha, '-', pa);
    LastIndexOfJoin(hb, '-', pb);
    var whole := ha + "-" + pa;
    assert ha == whole[..|ha|] && hb == whole[..|ha|];
    assert pa == whole[|ha| + 1..] && pb == whole[|ha| + 1..];
  }

  // ---------------------------------------------------------------- requests

  predicate ValidPort(port: string) {
    |port| <= 5 && AllDigits(port) && var n := ParseU16(port); n.Some? && n.value > 0
  }

  /** The host and the optional port of an address, or None when it has neither shape. */
  function SplitAddress(address: string): Option<(string, Option<string>)> {
    if address != "" && address[0] == '[' then
      var rest := address[1..];
      var close := IndexOf(rest, ']');
      if close == |rest| then None
      else
        var host, after := rest[..close], rest[close + 1..];
        if host == "" || !(forall k :: 0 <= k < |host| ==> IsHexDigit(host[k]) || host[k] == ':' || host[k] == '.') then None
        else if after == "" then Some((host, None))
        else if after[0] == ':' && after[1..] != "" then Some((host, Some(after[1..])))
        else None
    else
      var colon := IndexOf(address, ':');
      var host := address[..colon];
      if host == "" || !(forall k :: 0 <= k < |host| ==> IsAlphanumeric(host[k]) || host[k] == '.' || host[k] == '-') then None
      else if colon == |address| then Some((host, None))
      else if address[colon + 1..] != "" then Some((host, Some(address[colon + 1..])))
      else None
  }

  lemma BracketedAddress(host: string, port: string)
    requires host != "" && port != ""
    requires forall k :: 0 <= k < |host| ==> IsHexDigit(host[k]) || host[k] == ':' || host[k] == '.'
    ensures SplitAddress("[" + host + "]:" + port) == Some((host, Some(port)))
  {
    var address := "[" + host + "]:" + port;
    var rest := address[1..];
    assert rest == host + [']'] + (":" + port);
    IndexOfJoin(host, ']', ":" + port);
    assert rest[..|host|] == host && rest[|host| + 1..] == ":" + port;
    assert (":" + port)[1..] == port;
  }

  lemma HostAddress(host: string, port: string)
    requires host != "" && port != ""
    requires forall k :: 0 <= k < |host| ==> IsAlphanumeric(host[k]) || host[k] == '.' || host[k] == '-'
    ensures SplitAddress(host + ":" + port) == Some((host, Some(port)))
  {
    var address := host + ":" + port;
    assert address[0] == host[0];
    IndexOfJoin(host, ':', port);
    assert address == host + [':'] + port;
    assert address[..|host|] == host && address[|host| + 1..] == port;
  }

  function ValidateAddress(address: string): Result<(), InvalidInput> {
    if address == "" then Err(AddressEmpty)
    else if |address| > ADDRESS_LIMIT then Err(AddressTooLong)
    else
      match SplitAddress(address)
      case None => Err(AddressMalformed)
      case Some((host, port)) => if port.None? || ValidPort(port.value) then Ok(()) else Err(AddressMalformed)
  }

  /** The text is a host, or a bracketed one, with an optional port. */
  ghost predicate HasShape(address: string, host: string, port: Option<string>) {
    && host != "" && (port.Some? ==> port.value != "")
    && (|| (&& (forall k :: 0 <= k < |host| ==> IsHexDigit(host[k]) || host[k] == ':' || host[k] == '.')
            && address == "[" + host + "]" + (if port.Some? then ":" + port.value else ""))
        || (&& (forall k :: 0 <= k < |host| ==> IsAlphanumeric(host[k]) || host[k] == '.' || host[k] == '-')
            && address == host + (if port.Some? then ":" + port.value else "")))
  }

  lemma BracketedAlone(host: string)
    requires host != ""
    requires forall k :: 0 <= k < |host| ==> IsHexDigit(host[k]) || host[k] == ':' || host[k] == '.'
    ensures SplitAddress("[" + host + "]") == Some((host, None))
  {
    var address := "[" + host + "]";
    assert address[1..] == host + [']'] + "";
    IndexOfJoin(host, ']', "");
    assert address[1..][..|host|] == host && address[1..][|host| + 1..] == "";
  }

  lemma HostAlone(host: string)
    requires host != ""
    requires forall k :: 0 <= k < |host| ==> IsAlphanumeric(host[k]) || host[k] == '.' || host[k] == '-'
    ensures SplitAddress(host) == Some((host, None))
  {
    assert IndexOf(host, ':') == |host| && host[..|host|] == host;
  }

  lemma ShapeSplits(address: string, host: string, port: Option<string>)
    requires HasShape(address, host, port)
    ensures SplitAddress(address) == Some((host, port))
  {
    if address[0] == '[' {
      if port.Some? {
        assert address == "[" + host + "]:" + port.value;
        BracketedAddress(host, port.value);
      } else {
        assert address == "[" + host + "]";
        BracketedAlone(host);
      }
    } else if port.Some? {
      assert address == host + ":" + port.value;
      HostAddress(host, port.value);
    } else {
      assert address == host;
      HostAlone(host);
    }
  }

  lemma SplitHasShape(address: string)
    requires SplitAddress(address).Some?
    ensures HasShape(address, SplitAddress(address).value.0, SplitAddress(address).value.1)
  {
    var (host, port) := SplitAddress(address).value;
    if address[0] == '[' {
      var rest := address[1..];
      var close := IndexOf(rest, ']');
      var after := rest[close + 1..];
      assert address == "[" + host + "]" + after;
      assert port.Some? ==> after == ":" + after[1..];
    } else {
      var colon := IndexOf(address, ':');
      assert colon < |address| ==> address == host + ":" + address[colon + 1..];
      assert colon == |address| ==> address == host + "";
    }
  }

  /** Exactly which addresses a queue request may carry. */
  lemma ValidatesExactly(address: string)
    ensures ValidateAddress(address).Ok? <==>
              && 0 < |address| <= 300
              && exists host: string, port: Option<string> ::
                   HasShape(address, host, port)
                   && (port.Some? ==> |port.value| <= 5 && AllDigits(port.value) && 0 < Value(port.value) <= 65535)
  {
    if SplitAddress(address).Some? {
      SplitHasShape(address);
    }
    forall host: string, port: Option<string> | HasShape(address, host, port)
      ensures SplitAddress(address) == Some((host, port))
      ensures port.Some? ==>
                (ValidPort(port.value) <==> |port.value| <= 5 && AllDigits(port.value) && 0 < Value(port.value) <= 65535)
    {
      ShapeSplits(address, host, port);
      if port.Some? {
        PortExactly(port.value);
      }
    }
  }

  lemma PortExactly(port: string)
    requires port != ""
    ensures ValidPort(port) <==> |port| <= 5 && AllDigits(port) && 0 < Value(port) <= 65535
  {
    if AllDigits(port) {
      assert IsDigit(port[0]);
    }
  }

  /** Exactly which names a printer can have. */
  lemma PrinterNamesExactly(value: string, name: string)
    ensures ParsePrinterName(value) == Ok(name) <==>
              && name == Trim(value) && 0 < |name| <= 220
              && forall k :: 0 <= k < |name| ==> !IsControl(name[k])
  {
  }

  datatype QueueRequest = QueueRequest(queue_name: string, server_address: string, printer: string)

  /** Builds the request that installs `printer` from the server at `server_address`. */
  function NewQueueRequest(server_address: string, printer: string): Result<QueueRequest, InvalidInput> {
    var address := Trim(server_address);
    match ValidateAddress(address)
    case Err(e) => Err(e)
    case Ok(_) =>
      match ParseQueueName(DerivedName(printer, address))
      case Err(e) => Err(e)
      case Ok(queue_name) => Ok(QueueRequest(queue_name, address, printer))
  }

  /** A request the desktop can hold: its constructor accepted some address and printer name. */
  ghost predicate IsRequest(r: QueueRequest) {
    exists address: string, printer: string, name: string ::
      ParsePrinterName(printer) == Ok(name) && NewQueueRequest(address, name) == Ok(r)
  }

  /** Exactly when a request is built, and what it carries: the trimmed address must be a valid one, and
      the derived queue name one the spooler can carry. */
  lemma RequestsExactly(address: string, printer: string, r: QueueRequest)
    requires ParsePrinterName(printer) == Ok(printer)
    ensures NewQueueRequest(address, printer) == Ok(r) <==>
              && r == QueueRequest(DerivedName(printer, Trim(address)), Trim(address), printer)
              && ValidateAddress(Trim(address)).Ok?
              && |r.queue_name| <= 220 && '\\' !in r.queue_name && ',' !in r.queue_name
              && forall k :: 0 <= k < |r.queue_name| ==> !IsControl(r.queue_name[k])
  {
    var name := DerivedName(printer, Trim(address));
    TrimTrims(printer);
    AlreadyTrimmed(name);
    RejectedExactly(name);
  }

  lemma RejectedExactly(name: string)
    ensures FirstRejected(name) == |name| <==> '\\' !in name && ',' !in name
  {
  }

  /** Validation is idempotent: what it accepted once it accepts again, unchanged. */
  lemma RevalidationAccepts(r: QueueRequest)
    requires IsRequest(r)
    ensures ParsePrinterName(r.printer) == Ok(r.printer)
    ensures NewQueueRequest(r.server_address, r.printer) == Ok(r)
  {
    var address: string, printer: string, name: string :|
      ParsePrinterName(printer) == Ok(name) && NewQueueRequest(address, name) == Ok(r);
    TrimIsIdempotent(printer);
    TrimIsIdempotent(address);
  }

  /** The queue name is the derived one, verbatim, and nothing the spooler's name syntax uses is in it. */
  lemma RequestNamesItsQueue(r: QueueRequest)
    requires IsRequest(r)
    ensures r.queue_name == DerivedName(r.printer, r.server_address)
    ensures '\\' !in r.queue_name && ',' !in r.queue_name && '"' !in r.server_address && ' ' !in r.server_address
  {
    var address: string, printer: string, name: string :|
      ParsePrinterName(printer) == Ok(name) && NewQueueRequest(address, name) == Ok(r);
    TrimIsIdempotent(printer);
    RequestsExactly(address, name, r);
    AddressCharacters(r.server_address);
  }

  lemma AlreadyTrimmed(s: string)
    requires IsTrimmed(s)
    ensures Trim(s) == s
  {
  }

  lemma AddressCharacters(address: string)
    requires ValidateAddress(address).Ok?
    ensures '"' !in address && ' ' !in address
  {
    var parts := SplitAddress(address).value;
    AddressParts(address);
    assert parts.1.Some? ==> '"' !in parts.1.value && ' ' !in parts.1.value;
  }

  lemma AddressParts(address: string)
    requires SplitAddress(address).Some?
    ensures var parts := SplitAddress(address).value;
      && '"' !in parts.0 && ' ' !in parts.0
      && (forall c :: c in address ==>
            c in parts.0 || c == '[' || c == ']' || c == ':' || (parts.1.Some? && c in parts.1.value))
  {
    SplitHasShape(address);
  }

  lemma {:induction false} OnlyDashesTrimmed(s: string)
    requires forall k :: 0 <= k < |s| ==> s[k] == '-'
    ensures TrimDashesStart(s) == ""
    decreases |s|
  {
    if s != "" {
      OnlyDashesTrimmed(s[1..]);
    }
  }

  /** An address with nothing readable in it is called server. */
  lemma UnreadableAddress(address: string)
    requires forall k :: 0 <= k < |address| ==>
      !('a' <= address[k] <= 'z' || 'A' <= address[k] <= 'Z' || '0' <= address[k] <= '9' || address[k] == '.')
    ensures AddressLabel(address) == "server"
  {
    OnlyDashesTrimmed(Dashed(address));
  }
}
