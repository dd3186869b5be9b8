/** The whole grammar of the control program's command line (`parse_cli_args` in adapters/daemon.rs):
    which options are read from the arguments, which words are which command, and which options may
    stand with it. */
module ControlGrammar {
  import opened Common
  import opened Text
  import opened ControlArguments
  import S = StatusRegistry

  // ---------------------------------------------------------------- options

  /** One option or word as it stands on the command line. */
  datatype Token =
    | Confirming(word: string) | SocketAt(path: string) | AsJson | FromStdin
    | TimeoutOf(seconds: string) | TimeoutIs(seconds: string) | FdOf(number: string)
    | CredentialAt(path: string) | FingerprintOf(value: string) | Bare(word: string)

  function Render(t: Token): seq<string> {
    match t
    case Confirming(word) => [word]
    case SocketAt(path) => ["--socket", path]
    case AsJson => ["--json"]
    case FromStdin => ["--stdin"]
    case TimeoutOf(seconds) => ["--timeout", seconds]
    case TimeoutIs(seconds) => ["--timeout=" + seconds]
    case FdOf(number) => ["--fd", number]
    case CredentialAt(path) => ["--credential-file", path]
    case FingerprintOf(value) => ["--fingerprint", value]
    case Bare(word) => [word]
  }

  /** The values an option can have. */
  ghost predicate IsToken(t: Token) {
    match t
    case Confirming(word) => word == "--confirm" || word == "--yes" || word == "-y"
    case TimeoutOf(seconds) => ParseUnsigned(seconds, U64_MAX).Some?
    case TimeoutIs(seconds) => ParseUnsigned(seconds, U64_MAX).Some?
    case FdOf(number) => ParseDescriptor(number).Some?
    case Bare(word) => word == "" || word[0] != '-'
    case _ => true
  }

  /** What it sets; a later one of the same kind replaces an earlier one. */
  function Effect(f: Flags, t: Token): Flags {
    match t
    case Confirming(_) => f.(confirm := true)
    case SocketAt(path) => f.(socket := path)
    case AsJson => f.(json := true)
    case FromStdin => f.(stdin := true)
    case TimeoutOf(seconds) => f.(timeout := ParseUnsigned(seconds, U64_MAX))
    case TimeoutIs(seconds) => f.(timeout := ParseUnsigned(seconds, U64_MAX))
    case FdOf(number) => f.(fd := ParseDescriptor(number))
    case CredentialAt(path) => f.(credential := Some(path))
    case FingerprintOf(value) => f.(fingerprint := Some(value))
    case Bare(word) => f.(positional := f.positional + [word])
  }

  function RenderAll(ts: seq<Token>): seq<string> {
    if ts == [] then [] else Render(ts[0]) + RenderAll(ts[1..])
  }

  function Effects(f: Flags, ts: seq<Token>): Flags
    decreases |ts|
  {
    if ts == [] then f else Effects(Effect(f, ts[0]), ts[1..])
  }

  ghost predicate AreTokens(ts: seq<Token>) {
    forall k :: 0 <= k < |ts| ==> IsToken(ts[k])
  }

  lemma ConfirmWords(w: string)
    ensures Classify(w) == Confirm <==> w == "--confirm" || w == "--yes" || w == "-y"
  {
  }

  lemma ShortOptions(w: string)
    ensures Classify(w) == Socket <==> w == "--socket"
    ensures Classify(w) == Json <==> w == "--json"
  {
  }

  lemma StdinOption(w: string)
    ensures Classify(w) == StdinFlag <==> w == "--stdin"
  {
  }

  lemma TimeoutOption(w: string)
    ensures Classify(w) == Timeout <==> w == "--timeout"
  {
  }

  lemma FdOption(w: string)
    ensures Classify(w) == Fd <==> w == "--fd"
  {
  }

  lemma NotTimeout(w: string)
    ensures HasPrefix(w, "--timeout=") ==> |w| >= 10 && w[2] == 't'
  {
    assert |w| >= 10 ==> w[..10][2] == w[2];
  }

  lemma CredentialOption(w: string)
    ensures Classify(w) == Credential <==> w == "--credential-file"
  {
    NotTimeout(w);
  }

  lemma FingerprintOption(w: string)
    ensures Classify(w) == Fingerprint <==> w == "--fingerprint"
  {
    NotTimeout(w);
  }

  lemma TimeoutValueOption(w: string)
    ensures Classify(w) == TimeoutValue <==> HasPrefix(w, "--timeout=")
  {
  }

  lemma TimeoutValueText(seconds: string)
    ensures Classify("--timeout=" + seconds) == TimeoutValue && ("--timeout=" + seconds)[10..] == seconds
  {
    var w := "--timeout=" + seconds;
    assert w[..10] == "--timeout=";
    TimeoutValueOption(w);
  }

  /** One token is read for what it is. */
  lemma TokenRead(t: Token, rest: seq<string>, f: Flags)
    requires IsToken(t)
    ensures Scan(Render(t) + rest, f) == Scan(rest, Effect(f, t))
  {
    match t
    case Confirming(word) =>
      ConfirmWords(word);
      ScanFlag(word, rest, f);
    case SocketAt(path) =>
      ShortOptions("--socket");
      ScanValue("--socket", path, rest, f);
    case AsJson =>
      ShortOptions("--json");
      ScanFlag("--json", rest, f);
    case FromStdin =>
      StdinOption("--stdin");
      ScanFlag("--stdin", rest, f);
    case TimeoutOf(seconds) =>
      TimeoutOption("--timeout");
      ScanValue("--timeout", seconds, rest, f);
    case TimeoutIs(seconds) =>
      TimeoutValueText(seconds);
      ScanFlag("--timeout=" + seconds, rest, f);
    case FdOf(number) =>
      FdOption("--fd");
      ScanValue("--fd", number, rest, f);
    case CredentialAt(path) =>
      CredentialOption("--credential-file");
      ScanValue("--credential-file", path, rest, f);
    case FingerprintOf(value) =>
      FingerprintOption("--fingerprint");
      ScanValue("--fingerprint", value, rest, f);
    case Bare(word) =>
      ScanFlag(word, rest, f);
  }

  lemma ScanValue(arg: string, value: string, rest: seq<string>, f: Flags)
    requires TakesValue(Classify(arg)) && Apply(f, Classify(arg), arg, value).Ok?
    ensures Scan([arg, value] + rest, f) == Scan(rest, Apply(f, Classify(arg), arg, value).value)
  {
    assert ([arg, value] + rest)[2..] == rest;
  }

  lemma {:induction false} TokensRead(ts: seq<Token>, f: Flags)
    requires AreTokens(ts)
    ensures Scan(RenderAll(ts), f) == Ok(Effects(f, ts))
    decreases |ts|
  {
    if ts != [] {
      TokenRead(ts[0], RenderAll(ts[1..]), f);
      TokensRead(ts[1..], Effect(f, ts[0]));
    }
  }

  /** The token an accepted argument, with its value, stands for. */
  function TokenOf(kind: Kind, arg: string, value: string): Token {
    match kind
    case Confirm => Confirming(arg)
    case Socket => SocketAt(value)
    case Json => AsJson
    case StdinFlag => FromStdin
    case Timeout => TimeoutOf(value)
    case TimeoutValue => TimeoutIs(if |arg| >= 10 then arg[10..] else "")
    case Fd => FdOf(value)
    case Credential => CredentialAt(value)
    case Fingerprint => FingerprintOf(value)
    case Forbidden => Bare(arg)
    case Unknown => Bare(arg)
    case Positional => Bare(arg)
  }

  lemma AcceptedIsToken(f: Flags, arg: string, value: string)
    requires Apply(f, Classify(arg), arg, value).Ok?
    ensures var t := TokenOf(Classify(arg), arg, value);
      IsToken(t) && Apply(f, Classify(arg), arg, value) == Ok(Effect(f, t))
      && Render(t) == if TakesValue(Classify(arg)) then [arg, value] else [arg]
  {
    match Classify(arg)
    case Confirm => ConfirmWords(arg);
    case Socket => ShortOptions(arg);
    case Json => ShortOptions(arg);
    case StdinFlag => StdinOption(arg);
    case Timeout => TimeoutOption(arg);
    case TimeoutValue =>
      TimeoutValueOption(arg);
      assert arg == arg[..10] + arg[10..];
    case Fd => FdOption(arg);
    case Credential => CredentialOption(arg);
    case Fingerprint => FingerprintOption(arg);
    case Forbidden =>
    case Unknown =>
    case Positional =>
  }

  lemma {:induction false} ScannedAreTokens(args: seq<string>, f: Flags) returns (ts: seq<Token>)
    requires Scan(args, f).Ok?
    ensures AreTokens(ts) && RenderAll(ts) == args && Scan(args, f) == Ok(Effects(f, ts))
    decreases |args|
  {
    if args == [] {
      ts := [];
    } else {
      var kind := Classify(args[0]);
      var skip := if TakesValue(kind) then 2 else 1;
      var value := if TakesValue(kind) then args[1] else "";
      AcceptedIsToken(f, args[0], value);
      var t := TokenOf(kind, args[0], value);
      var more := ScannedAreTokens(args[skip..], Effect(f, t));
      ts := [t] + more;
      assert ts[1..] == more;
      assert args == Render(t) + args[skip..];
    }
  }

  /** Exactly which arguments are read, and what they set. */
  lemma ScansExactly(args: seq<string>, f: Flags, g: Flags)
    ensures Scan(args, f) == Ok(g) <==> exists ts :: AreTokens(ts) && RenderAll(ts) == args && Effects(f, ts) == g
  {
    if Scan(args, f) == Ok(g) {
      var ts := ScannedAreTokens(args, f);
    }
    if ts :| AreTokens(ts) && RenderAll(ts) == args && Effects(f, ts) == g {
      TokensRead(ts, f);
    }
  }

  // ---------------------------------------------------------------- words

  /** The words that are recognised. */
  function Spelled(k: Keyword): seq<string> {
    match k
    case KStatus => ["status"]
    case KDiagnostics => ["diagnostics", "diag"]
    case KStart => ["start"]
    case KStop => ["stop"]
    case KDaemon => ["daemon"]
    case KShutdown => ["shutdown"]
    case KDrain => ["drain"]
    case KChannel => ["network-channel"]
    case KSet => ["set"]
    case KTrust => ["trust"]
    case KList => ["list"]
    case KTrusted => ["trusted-servers"]
    case KInspect => ["inspect"]
    case KApprove => ["approve"]
    case KForget => ["forget"]
    case KPrinters => ["printers"]
    case KQueue => ["queue"]
    case KInstall => ["install"]
    case KRepair => ["repair"]
    case KQueues => ["queues"]
    case KSharing => ["sharing"]
    case KClear => ["clear"]
    case KPurge => ["purge"]
    case Other => []
  }

  lemma Words1()
    ensures KeywordOf("status") == KStatus && KeywordOf("diagnostics") == KDiagnostics
  {
  }

  lemma Words2()
    ensures KeywordOf("diag") == KDiagnostics && KeywordOf("daemon") == KDaemon
  {
  }

  lemma Words3()
    ensures KeywordOf("shutdown") == KShutdown && KeywordOf("drain") == KDrain
  {
  }

  lemma Words4()
    ensures KeywordOf("list") == KList && KeywordOf("trusted-servers") == KTrusted
  {
  }

  lemma Words5()
    ensures KeywordOf("inspect") == KInspect && KeywordOf("printers") == KPrinters
  {
  }

  lemma Words6()
    ensures KeywordOf("queues") == KQueues && KeywordOf("purge") == KPurge
  {
  }

  lemma SpelledIsRecognised(k: Keyword, w: string)
    requires w in Spelled(k)
    ensures KeywordOf(w) == k
  {
    Keywords3();
    Keywords5();
    Keywords5b();
    Keywords6();
    Keywords7();
    Keywords7b();
    Words1();
    Words2();
    Words3();
    Words4();
    Words5();
    Words6();
  }

  lemma EarlierSpelled(w: string)
    requires KeywordOf(w) in {KStatus, KDiagnostics, KStart, KStop, KDaemon, KShutdown, KDrain, KChannel, KSet, KTrust, KList}
    ensures w in Spelled(KeywordOf(w))
  {
  }

  lemma RecognisedIsSpelled(w: string)
    ensures KeywordOf(w) != Other ==> w in Spelled(KeywordOf(w))
  {
    if KeywordOf(w) in {KStatus, KDiagnostics, KStart, KStop, KDaemon, KShutdown, KDrain, KChannel, KSet, KTrust, KList} {
      EarlierSpelled(w);
    }
  }

  /** Exactly which words are recognised, and as what. */
  lemma KeywordsExactly(w: string, k: Keyword)
    requires k != Other
    ensures KeywordOf(w) == k <==> w in Spelled(k)
  {
    RecognisedIsSpelled(w);
    if w in Spelled(k) {
      SpelledIsRecognised(k, w);
    }
  }

  // ---------------------------------------------------------------- commands

  /** Where the channel secret comes from. */
  predicate SourceIs(f: Flags, source: SecretSource) {
    match source
    case Stdin => f.stdin
    case FileDescriptor(fd) => !f.stdin && f.fd == Some(fd)
    case CredentialFile(path) => !f.stdin && f.fd.None? && f.credential == Some(path)
    case PromptOrStdin => !f.stdin && f.fd.None? && f.credential.None?
  }

  /** The word lists and options that mean a command; `a` and `b` are what the first two words are
      recognised as. */
  ghost predicate Means(f: Flags, a: Keyword, b: Keyword, c: Command) {
    var p := f.positional;
    var n := |p|;
    match c
    case Status => n == 1 && a == KStatus
    case Diagnostics => n == 1 && a == KDiagnostics
    case StartService(id) => n == 2 && a == KStart && p[1] == ServiceName(id)
    case StopService(id) => n == 2 && a == KStop && b != KDaemon && p[1] == ServiceName(id)
    case Shutdown => (n == 1 && (a == KStop || a == KShutdown)) || (n == 2 && a == KStop && b == KDaemon)
    case Drain(timeout) => n == 1 && a == KDrain && timeout == f.timeout
    case NetworkChannelStatus => (n == 1 && a == KChannel) || (n == 2 && a == KChannel && b == KStatus)
    case SetNetworkChannel(source) => n == 2 && a == KChannel && b == KSet && SourceIs(f, source)
    case InspectServer(address) =>
      (n == 3 && a == KTrust && b == KInspect && p[2] == address) || (n == 2 && a == KInspect && p[1] == address)
    case ApproveServer(address, fingerprint) =>
      || (n == 3 && a == KTrust && b == KApprove && p[2] == address && f.fingerprint == Some(fingerprint))
      || (n == 4 && a == KTrust && b == KApprove && p[2] == address && p[3] == fingerprint && f.fingerprint.None?)
    case ForgetServer(address) =>
      (n == 3 && a == KTrust && b == KForget && p[2] == address) || (n == 2 && a == KForget && p[1] == address)
    case ListTrustedServers => (n == 2 && a == KTrust && b == KList) || (n == 1 && a == KTrusted)
    case ListServerPrinters(address) =>
      (n == 3 && a == KTrust && b == KPrinters && p[2] == address) || (n == 2 && a == KPrinters && p[1] == address)
    case InstallClientQueue(address, printer) => n == 4 && a == KQueue && b == KInstall && p[2] == address && p[3] == printer
    case RepairClientQueue(address, printer) => n == 4 && a == KQueue && b == KRepair && p[2] == address && p[3] == printer
    case ListClientQueues => (n == 2 && a == KQueue && b == KList) || (n == 1 && a == KQueues)
    case ListLocalPrinters => (n == 1 && a == KSharing) || (n == 2 && a == KSharing && (b == KPrinters || b == KList))
    case SetSharedPrinters(printers) =>
      (n == 2 && a == KSharing && b == KClear && printers == [])
      || (n >= 3 && a == KSharing && b == KSet && printers == p[2..])
    case Purge(confirm) => n == 1 && a == KPurge && confirm == f.confirm
  }

  lemma ServicesExactly(w: string, id: S.ServiceId)
    ensures ParseService(w) == Ok(id) <==> w == ServiceName(id)
  {
    var other := ParseService(w);
    if w == ServiceName(id) && other.Ok? && other.value != id {
      NamesDiffer(id, other.value);
    }
  }

  lemma NamesDiffer(a: S.ServiceId, b: S.ServiceId)
    ensures ServiceName(a) == ServiceName(b) <==> a == b
  {
    assert |ServiceName(S.ClientProxyId)| == 12 && |ServiceName(S.ServerSharingId)| == 14 && |ServiceName(S.ServerDiscoveryId)| == 16;
  }

  lemma NoWordsExactly(f: Flags, a: Keyword, b: Keyword, c: Command)
    requires f.positional == []
    ensures CommandOf(f, a, b) != Ok(c) && !Means(f, a, b, c)
  {
  }

  lemma OneWordExactly(f: Flags, a: Keyword, b: Keyword, c: Command)
    requires |f.positional| == 1
    ensures CommandOf(f, a, b) == Ok(c) <==> Means(f, a, b, c)
  {
  }

  lemma TwoWordsExactly(f: Flags, a: Keyword, b: Keyword, c: Command)
    requires |f.positional| == 2
    ensures CommandOf(f, a, b) == Ok(c) <==> Means(f, a, b, c)
  {
    if c.StartService? || c.StopService? {
      ServicesExactly(f.positional[1], c.id);
    }
    SourceExactly(f);
  }

  lemma SourceExactly(f: Flags)
    ensures forall source :: Source(f) == source <==> SourceIs(f, source)
  {
  }

  lemma MoreWordsExactly(f: Flags, a: Keyword, b: Keyword, c: Command)
    requires |f.positional| >= 3
    ensures CommandOf(f, a, b) == Ok(c) <==> Means(f, a, b, c)
  {
  }

  /** Exactly which words and options are which command. */
  lemma CommandExactly(f: Flags, a: Keyword, b: Keyword, c: Command)
    ensures CommandOf(f, a, b) == Ok(c) <==> Means(f, a, b, c)
  {
    if f.positional == [] {
      NoWordsExactly(f, a, b, c);
    } else if |f.positional| == 1 {
      OneWordExactly(f, a, b, c);
    } else if |f.positional| == 2 {
      TwoWordsExactly(f, a, b, c);
    } else {
      MoreWordsExactly(f, a, b, c);
    }
  }

  /** At most one source is given for the secret, and every option stands with the command it is for. */
  ghost predicate OptionsFit(f: Flags, c: Command) {
    && !(f.stdin && f.fd.Some?) && !(f.stdin && f.credential.Some?) && !(f.fd.Some? && f.credential.Some?)
    && (f.stdin || f.fd.Some? || f.credential.Some? ==> c.SetNetworkChannel?)
    && (f.fingerprint.Some? ==> c.ApproveServer?)
    && (f.timeout.Some? ==> c.Drain?)
  }

  lemma InterpretsAsExactly(f: Flags, a: Keyword, b: Keyword, o: Options)
    requires |f.positional| < 2 ==> b == Other
    ensures InterpretAs(f, a, b) == Ok(o)
            <==> o.socket == f.socket && o.json == f.json && Means(f, a, b, o.command) && OptionsFit(f, o.command)
  {
    CommandExactly(f, a, b, o.command);
    if CommandOf(f, a, b) == Ok(o.command) {
      MisplacedExactly(f, a, b, o.command);
    }
  }

  lemma MisplacedExactly(f: Flags, a: Keyword, b: Keyword, c: Command)
    requires Means(f, a, b, c) && (|f.positional| < 2 ==> b == Other)
    ensures Misplaced(f, a, b).None? <==> OptionsFit(f, c)
  {
  }

  /** Exactly which command lines mean what: the arguments are options and words, the words and options
      mean the command, and every option stands with the command it is for. */
  lemma ParsesExactly(program: string, args: seq<string>, o: Options)
    ensures Parsed([program] + args) == Ok(o) <==>
              exists ts :: AreTokens(ts) && RenderAll(ts) == args
                           && var f := Effects(NO_FLAGS, ts);
                              && o.socket == f.socket && o.json == f.json
                              && Means(f, First(f.positional), Second(f.positional), o.command) && OptionsFit(f, o.command)
  {
    assert ([program] + args)[1..] == args;
    if Parsed([program] + args) == Ok(o) {
      var ts := ScannedAreTokens(args, NO_FLAGS);
      var f := Effects(NO_FLAGS, ts);
      InterpretsAsExactly(f, First(f.positional), Second(f.positional), o);
    }
    if ts :| AreTokens(ts) && RenderAll(ts) == args
             && var f := Effects(NO_FLAGS, ts);
                && o.socket == f.socket && o.json == f.json
                && Means(f, First(f.positional), Second(f.positional), o.command) && OptionsFit(f, o.command)
    {
      TokensRead(ts, NO_FLAGS);
      var f := Effects(NO_FLAGS, ts);
      InterpretsAsExactly(f, First(f.positional), Second(f.positional), o);
    }
  }

  lemma {:induction false} ConfirmComesFromAToken(f: Flags, ts: seq<Token>)
    ensures Effects(f, ts).confirm <==> f.confirm || exists k :: 0 <= k < |ts| && ts[k].Confirming?
    decreases |ts|
  {
    if ts != [] {
      ConfirmComesFromAToken(Effect(f, ts[0]), ts[1..]);
      if k :| 0 <= k < |ts| && ts[k].Confirming? {
        assert k > 0 ==> ts[1..][k - 1].Confirming?;
      }
    }
  }

  lemma {:induction false} TokenStands(ts: seq<Token>, k: nat)
    requires k < |ts| && ts[k].Confirming?
    ensures ts[k].word in RenderAll(ts)
    decreases k
  {
    if k > 0 {
      TokenStands(ts[1..], k - 1);
    }
  }

  lemma ConfirmStands(ts: seq<Token>)
    requires AreTokens(ts) && Effects(NO_FLAGS, ts).confirm
    ensures "--confirm" in RenderAll(ts) || "--yes" in RenderAll(ts) || "-y" in RenderAll(ts)
  {
    ConfirmComesFromAToken(NO_FLAGS, ts);
    var k :| 0 <= k < |ts| && ts[k].Confirming?;
    TokenStands(ts, k);
    assert IsToken(ts[k]);
  }

  /** A purge is confirmed only by an option that says so. */
  lemma PurgeIsConfirmed(program: string, args: seq<string>, o: Options)
    requires Parsed([program] + args) == Ok(o) && o.command == Purge(true)
    ensures "--confirm" in args || "--yes" in args || "-y" in args
  {
    ParsesExactly(program, args, o);
    var ts: seq<Token> :| AreTokens(ts) && RenderAll(ts) == args && Effects(NO_FLAGS, ts).confirm;
    ConfirmStands(ts);
  }

  /** A descriptor is a number of at most 31 bits; the only one that may be written negative is zero. */
  lemma DescriptorsExactly(value: string, n: nat)
    ensures ParseDescriptor(value) == Some(n)
            <==> exists digits :: (n < 0x8000_0000 && Spells(value, digits, n)) || (n == 0 && value == "-" + digits && Spells(digits, digits, 0))
  {
    if ParseDescriptor(value) == Some(n) {
      var digits := if value[0] == '+' || value[0] == '-' then value[1..] else value;
      if value[0] == '-' {
        assert value == "-" + digits && Spells(digits, digits, 0);
      } else {
        assert Spells(value, digits, n);
      }
    }
    forall digits | Spells(value, digits, n) && n < 0x8000_0000 ensures ParseDescriptor(value) == Some(n) {
      assert IsDigit(digits[0]);
      assert value != digits ==> value[1..] == digits;
    }
    forall digits | value == "-" + digits && Spells(digits, digits, 0) ensures ParseDescriptor(value) == Some(0) {
      assert value[1..] == digits;
    }
  }
}
