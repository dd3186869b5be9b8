/** The control program's command line (`parse_cli_args` in adapters/daemon.rs) and the arguments the
    desktop passes to it (adapters/elevated_ctl.rs). */
module ControlArguments {
  import opened Common
  import opened Text
  import S = StatusRegistry

  const DEFAULT_SOCKET_PATH := "/run/shaprint/shaprintd.sock"
  const U64_MAX: nat := 0xFFFF_FFFF_FFFF_FFFF
  const I32_MAX: nat := 0x7FFF_FFFF

  function ServiceName(id: S.ServiceId): string {
    match id
    case ClientProxyId => "client-proxy"
    case ServerSharingId => "server-sharing"
    case ServerDiscoveryId => "server-discovery"
  }

  function ParseService(value: string): (r: Result<S.ServiceId, CliError>)
    ensures r.Ok? ==> ServiceName(r.value) == value
    ensures r.Err? ==> r == Err(UnknownService(value)) && forall id :: ServiceName(id) != value
  {
    if value == ServiceName(S.ClientProxyId) then Ok(S.ClientProxyId)
    else if value == ServiceName(S.ServerSharingId) then Ok(S.ServerSharingId)
    else if value == ServiceName(S.ServerDiscoveryId) then Ok(S.ServerDiscoveryId)
    else Err(UnknownService(value))
  }

  datatype SecretSource = PromptOrStdin | Stdin | FileDescriptor(fd: nat) | CredentialFile(path: string)

  datatype Command =
    | Status | Diagnostics
    | StartService(id: S.ServiceId) | StopService(id: S.ServiceId)
    | Shutdown | Drain(timeout: Option<nat>)
    | NetworkChannelStatus | SetNetworkChannel(source: SecretSource)
    | InspectServer(address: string) | ApproveServer(address: string, fingerprint: string)
    | ForgetServer(address: string) | ListTrustedServers | ListServerPrinters(address: string)
    | InstallClientQueue(address: string, printer: string)
    | RepairClientQueue(address: string, printer: string)
    | ListClientQueues | ListLocalPrinters | SetSharedPrinters(printers: seq<string>)
    | Purge(confirm: bool)

  datatype Options = Options(socket: string, json: bool, command: Command)

  datatype CliError =
    | MissingValue(flag: Kind) | InvalidTimeout(value: string) | InvalidDescriptor(value: string)
    | ChannelOnCommandLine | Unrecognized(option: string)
    | SeveralSources | SourceElsewhere | FingerprintElsewhere | TimeoutElsewhere
    | UnknownService(service: string) | MissingFingerprint | FingerprintTwice
    | NoPrinters | MissingCommand | InvalidCommand(words: seq<string>)

  // ---------------------------------------------------------------- one argument

  datatype Kind =
    | Confirm | Socket | Json | StdinFlag | Timeout | TimeoutValue | Fd | Credential | Fingerprint
    | Forbidden | Unknown | Positional

  /** `name` itself, or `name=...`. */
  predicate Names(arg: string, name: string) {
    arg == name || HasPrefix(arg, name + "=")
  }

  function Classify(arg: string): (k: Kind)
    ensures k == Positional <==> arg == "" || arg[0] != '-'
  {
    if arg == "" || arg[0] != '-' then Positional
    else if arg == "--confirm" || arg == "--yes" || arg == "-y" then Confirm
    else if arg == "--socket" then Socket
    else if arg == "--json" then Json
    else if arg == "--stdin" then StdinFlag
    else if arg == "--timeout" then Timeout
    else if HasPrefix(arg, "--timeout=") then TimeoutValue
    else if arg == "--fd" then Fd
    else if arg == "--credential-file" then Credential
    else if arg == "--fingerprint" then Fingerprint
    else if Names(arg, "--network-channel") || Names(arg, "--channel") || Names(arg, "--value") || Names(arg, "--secret")
      then Forbidden
    else Unknown
  }

  predicate TakesValue(k: Kind) {
    k in {Socket, Timeout, Fd, Credential, Fingerprint}
  }

  /** Rust's `parse::<i32>` restricted to values that are not negative. */
  function ParseDescriptor(value: string): Option<nat> {
    if value != "" && value[0] == '-' then
      if value[1..] != "" && AllDigits(value[1..]) && Value(value[1..]) == 0 then Some(0) else None
    else ParseUnsigned(value, I32_MAX)
  }

  /** Everything the loop over the arguments collects. */
  datatype Flags = Flags(
    socket: string, json: bool, stdin: bool, fd: Option<nat>, credential: Option<string>,
    fingerprint: Option<string>, timeout: Option<nat>, confirm: bool, positional: seq<string>)

  const NO_FLAGS := Flags(DEFAULT_SOCKET_PATH, false, false, None, None, None, None, false, [])

  /** What one argument and, for an option that takes one, its value do. */
  function Apply(f: Flags, kind: Kind, arg: string, value: string): Result<Flags, CliError> {
    match kind
    case Confirm => Ok(f.(confirm := true))
    case Socket => Ok(f.(socket := value))
    case Json => Ok(f.(json := true))
    case StdinFlag => Ok(f.(stdin := true))
    case Timeout => WithTimeout(f, value)
    case TimeoutValue => WithTimeout(f, if |arg| >= 10 then arg[10..] else "")
    case Fd =>
      var fd := ParseDescriptor(value);
      if fd.Some? then Ok(f.(fd := fd)) else Err(InvalidDescriptor(value))
    case Credential => Ok(f.(credential := Some(value)))
    case Fingerprint => Ok(f.(fingerprint := Some(value)))
    case Forbidden => Err(ChannelOnCommandLine)
    case Unknown => Err(Unrecognized(arg[..IndexOf(arg, '=')]))
    case Positional => Ok(f.(positional := f.positional + [arg]))
  }

  function WithTimeout(f: Flags, value: string): Result<Flags, CliError> {
    var timeout := ParseUnsigned(value, U64_MAX);
    if timeout.Some? then Ok(f.(timeout := timeout)) else Err(InvalidTimeout(value))
  }

  function Scan(args: seq<string>, f: Flags): Result<Flags, CliError>
    decreases |args|
  {
    if args == [] then Ok(f)
    else
      var kind := Classify(args[0]);
      if TakesValue(kind) then
        if |args| == 1 then Err(MissingValue(kind))
        else
          var next := Apply(f, kind, args[0], args[1]);
          if next.Err? then next else Scan(args[2..], next.value)
      else
        var next := Apply(f, kind, args[0], "");
        if next.Err? then next else Scan(args[1..], next.value)
  }

  // ---------------------------------------------------------------- the command

  /** The words commands are made of; Other is anything else. */
  datatype Keyword =
    | KStatus | KDiagnostics | KStart | KStop | KDaemon | KShutdown | KDrain | KChannel | KSet | KTrust | KList
    | KTrusted | KInspect | KApprove | KForget | KPrinters | KQueue | KInstall | KRepair | KQueues | KSharing
    | KClear | KPurge | Other

  function KeywordOf(s: string): Keyword {
    if s == "status" then KStatus
    else if s == "diagnostics" || s == "diag" then KDiagnostics
    else if s == "start" then KStart
    else if s == "stop" then KStop
    else if s == "daemon" then KDaemon
    else if s == "shutdown" then KShutdown
    else if s == "drain" then KDrain
    else if s == "network-channel" then KChannel
    else if s == "set" then KSet
    else if s == "trust" then KTrust
    else if s == "list" then KList
    else if s == "trusted-servers" then KTrusted
    else if s == "inspect" then KInspect
    else if s == "approve" then KApprove
    else if s == "forget" then KForget
    else if s == "printers" then KPrinters
    else if s == "queue" then KQueue
    else if s == "install" then KInstall
    else if s == "repair" then KRepair
    else if s == "queues" then KQueues
    else if s == "sharing" then KSharing
    else if s == "clear" then KClear
    else if s == "purge" then KPurge
    else Other
  }

  /** The first two words, as far as there are any. */
  function First(p: seq<string>): Keyword {
    if p == [] then Other else KeywordOf(p[0])
  }

  function Second(p: seq<string>): Keyword {
    if |p| < 2 then Other else KeywordOf(p[1])
  }

  /** The options that only some commands take. */
  function Misplaced(f: Flags, first: Keyword, second: Keyword): Option<CliError> {
    var sources := (if f.stdin then 1 else 0) + (if f.fd.Some? then 1 else 0) + (if f.credential.Some? then 1 else 0);
    if sources > 1 then Some(SeveralSources)
    else if sources > 0 && !(first == KChannel && second == KSet) then Some(SourceElsewhere)
    else if f.fingerprint.Some? && !(first == KTrust && second == KApprove) then Some(FingerprintElsewhere)
    else if f.timeout.Some? && first != KDrain then Some(TimeoutElsewhere)
    else None
  }

  function Source(f: Flags): SecretSource {
    if f.stdin then Stdin
    else if f.fd.Some? then FileDescriptor(f.fd.value)
    else if f.credential.Some? then CredentialFile(f.credential.value)
    else PromptOrStdin
  }

  function OneWord(f: Flags, first: Keyword): Result<Command, CliError> {
    match first
    case KStatus => Ok(Status)
    case KDiagnostics => Ok(Diagnostics)
    case KStop => Ok(Shutdown)
    case KShutdown => Ok(Shutdown)
    case KDrain => Ok(Drain(f.timeout))
    case KChannel => Ok(NetworkChannelStatus)
    case KTrusted => Ok(ListTrustedServers)
    case KQueues => Ok(ListClientQueues)
    case KSharing => Ok(ListLocalPrinters)
    case KPurge => Ok(Purge(f.confirm))
    case _ => Err(InvalidCommand(f.positional))
  }

  function TwoWords(f: Flags, first: Keyword, second: Keyword): Result<Command, CliError>
    requires |f.positional| == 2
  {
    var p := f.positional;
    match first
    case KStart =>
      var id := ParseService(p[1]);
      if id.Ok? then Ok(StartService(id.value)) else Err(id.error)
    case KStop =>
      if second == KDaemon then Ok(Shutdown)
      else
        var id := ParseService(p[1]);
        if id.Ok? then Ok(StopService(id.value)) else Err(id.error)
    case KChannel =>
      if second == KStatus then Ok(NetworkChannelStatus)
      else if second == KSet then Ok(SetNetworkChannel(Source(f)))
      else Err(InvalidCommand(p))
    case KTrust => if second == KList then Ok(ListTrustedServers) else Err(InvalidCommand(p))
    case KInspect => Ok(InspectServer(p[1]))
    case KForget => Ok(ForgetServer(p[1]))
    case KPrinters => Ok(ListServerPrinters(p[1]))
    case KQueue => if second == KList then Ok(ListClientQueues) else Err(InvalidCommand(p))
    case KSharing =>
      if second == KPrinters || second == KList then Ok(ListLocalPrinters)
      else if second == KClear then Ok(SetSharedPrinters([]))
      else if second == KSet then Err(NoPrinters)
      else Err(InvalidCommand(p))
    case _ => Err(InvalidCommand(p))
  }

  function MoreWords(f: Flags, first: Keyword, second: Keyword): Result<Command, CliError>
    requires |f.positional| >= 3
  {
    var p := f.positional;
    match (first, second)
    case (KChannel, KSet) => Err(ChannelOnCommandLine)
    case (KSharing, KSet) => Ok(SetSharedPrinters(p[2..]))
    case (KTrust, KApprove) =>
      if |p| == 3 then
        if f.fingerprint.Some? then Ok(ApproveServer(p[2], f.fingerprint.value)) else Err(MissingFingerprint)
      else if |p| == 4 then
        if f.fingerprint.Some? then Err(FingerprintTwice) else Ok(ApproveServer(p[2], p[3]))
      else Err(InvalidCommand(p))
    case (KTrust, KInspect) => if |p| == 3 then Ok(InspectServer(p[2])) else Err(InvalidCommand(p))
    case (KTrust, KForget) => if |p| == 3 then Ok(ForgetServer(p[2])) else Err(InvalidCommand(p))
    case (KTrust, KPrinters) => if |p| == 3 then Ok(ListServerPrinters(p[2])) else Err(InvalidCommand(p))
    case (KQueue, KInstall) => if |p| == 4 then Ok(InstallClientQueue(p[2], p[3])) else Err(InvalidCommand(p))
    case (KQueue, KRepair) => if |p| == 4 then Ok(RepairClientQueue(p[2], p[3])) else Err(InvalidCommand(p))
    case _ => Err(InvalidCommand(p))
  }

  function CommandOf(f: Flags, first: Keyword, second: Keyword): Result<Command, CliError> {
    var n := |f.positional|;
    if n == 0 then Err(MissingCommand)
    else if n == 1 then OneWord(f, first)
    else if n == 2 then TwoWords(f, first, second)
    else MoreWords(f, first, second)
  }

  function InterpretAs(f: Flags, first: Keyword, second: Keyword): Result<Options, CliError> {
    var misplaced := Misplaced(f, first, second);
    if misplaced.Some? then Err(misplaced.value)
    else
      var command := CommandOf(f, first, second);
      if command.Err? then Err(command.error) else Ok(Options(f.socket, f.json, command.value))
  }

  function Interpret(f: Flags): Result<Options, CliError> {
    InterpretAs(f, First(f.positional), Second(f.positional))
  }

  /** The meaning of a command line; its first argument is the program. */
  function Parsed(args: seq<string>): Result<Options, CliError> {
    var f := Scan(if args == [] then [] else args[1..], NO_FLAGS);
    if f.Err? then Err(f.error) else Interpret(f.value)
  }

  method ParseCliArgs(args: seq<string>) returns (r: Result<Options, CliError>)
    ensures r == Parsed(args)
  {
    var f := NO_FLAGS;
    var i := if args == [] then 0 else 1;
    ghost var rest := args[i..];
    while i < |args|
      invariant 0 <= i <= |args|
      invariant Scan(rest, NO_FLAGS) == Scan(args[i..], f)
    {
      var arg, value := args[i], "";
      var kind := Classify(arg);
      assert args[i..][1..] == args[i + 1..];
      if TakesValue(kind) {
        i := i + 1;
        if i == |args| {
          return Err(MissingValue(kind));
        }
        value := args[i];
        assert args[i - 1..][2..] == args[i + 1..];
      }
      var next := Apply(f, kind, arg, value);
      if next.Err? {
        return Err(next.error);
      }
      f := next.value;
      i := i + 1;
    }
    assert args[i..] == [];
    r := Interpret(f);
  }

  // ---------------------------------------------------------------- the desktop's side

  datatype Mutation =
    | Start(id: string) | Stop(id: string) | StopDaemon
    | Channel(secret: string)
    | Approve(address: string, fingerprint: string) | Forget(address: string)
    | Install(address: string, printer: string) | Repair(address: string, printer: string)
    | Share(printers: seq<string>)

  function Words(m: Mutation): seq<string> {
    match m
    case Start(id) => ["start", id]
    case Stop(id) => ["stop", id]
    case StopDaemon => ["stop"]
    case Channel(_) => ["network-channel", "set", "--stdin"]
    case Approve(address, fingerprint) => ["trust", "approve", address, fingerprint]
    case Forget(address) => ["trust", "forget", address]
    case Install(address, printer) => ["queue", "install", address, printer]
    case Repair(address, printer) => ["queue", "repair", address, printer]
    case Share(printers) => if printers == [] then ["sharing", "clear"] else ["sharing", "set"] + printers
  }

  function Arguments(m: Mutation, socket: string): seq<string> {
    Words(m) + ["--json", "--socket", socket]
  }

  /** The command a mutation stands for, when its service exists. */
  function Wanted(m: Mutation): Option<Command> {
    match m
    case Start(id) => var s := ParseService(id); if s.Ok? then Some(StartService(s.value)) else None
    case Stop(id) => var s := ParseService(id); if s.Ok? then Some(StopService(s.value)) else None
    case StopDaemon => Some(Shutdown)
    case Channel(_) => Some(SetNetworkChannel(Stdin))
    case Approve(address, fingerprint) => Some(ApproveServer(address, fingerprint))
    case Forget(address) => Some(ForgetServer(address))
    case Install(address, printer) => Some(InstallClientQueue(address, printer))
    case Repair(address, printer) => Some(RepairClientQueue(address, printer))
    case Share(printers) => Some(SetSharedPrinters(printers))
  }

  /** The values of a mutation that stand on the command line. */
  function Values(m: Mutation): seq<string> {
    match m
    case Approve(address, fingerprint) => [address, fingerprint]
    case Forget(address) => [address]
    case Install(address, printer) => [address, printer]
    case Repair(address, printer) => [address, printer]
    case Share(printers) => printers
    case _ => []
  }

  predicate IsDashed(s: string) {
    s != "" && s[0] == '-'
  }

  // ---------------------------------------------------------------- reading the arguments back

  /** Words that do not begin with a dash are kept, in order. */
  lemma {:induction false} WordsAreKept(words: seq<string>, rest: seq<string>, f: Flags)
    requires forall w :: w in words ==> !IsDashed(w)
    ensures Scan(words + rest, f) == Scan(rest, f.(positional := f.positional + words))
    decreases |words|
  {
    if words == [] {
      assert words + rest == rest && f.positional + words == f.positional;
    } else {
      var g := f.(positional := f.positional + [words[0]]);
      assert (words + rest)[0] == words[0] && (words + rest)[1..] == words[1..] + rest;
      WordsAreKept(words[1..], rest, g);
      assert g.positional + words[1..] == f.positional + words;
      assert g.(positional := g.positional + words[1..]) == f.(positional := f.positional + words);
      assert words[0] in words && Classify(words[0]) == Positional;
      assert Apply(f, Positional, words[0], "") == Ok(g);
    }
  }

  lemma TailKinds()
    ensures Classify("--json") == Json && Classify("--socket") == Socket && Classify("--stdin") == StdinFlag
  {
    assert |"--json"| == 6 && |"--socket"| == 8 && |"--stdin"| == 7;
    assert "--json"[2] == 'j';
  }

  lemma ScanFlag(arg: string, rest: seq<string>, f: Flags)
    requires !TakesValue(Classify(arg)) && Apply(f, Classify(arg), arg, "").Ok?
    ensures Scan([arg] + rest, f) == Scan(rest, Apply(f, Classify(arg), arg, "").value)
  {
    assert ([arg] + rest)[1..] == rest;
  }

  lemma ScanOption(arg: string, value: string, f: Flags)
    requires TakesValue(Classify(arg)) && Apply(f, Classify(arg), arg, value).Ok?
    ensures Scan([arg, value], f) == Apply(f, Classify(arg), arg, value)
  {
    assert [arg, value][2..] == [];
  }

  lemma TailReads(socket: string, f: Flags)
    ensures Scan(["--json", "--socket", socket], f) == Ok(f.(json := true, socket := socket))
  {
    TailKinds();
    ScanFlag("--json", ["--socket", socket], f);
    assert ["--json"] + ["--socket", socket] == ["--json", "--socket", socket];
    ScanOption("--socket", socket, f.(json := true));
  }

  /** The flags the scan ends with when no value begins with a dash. */
  function ScanOf(m: Mutation, socket: string): Flags {
    NO_FLAGS.(json := true, socket := socket, stdin := m.Channel?,
              positional := if m.Channel? then ["network-channel", "set"] else Words(m))
  }

  lemma CommandWordsPlain(m: Mutation)
    requires forall v :: v in Values(m) ==> !IsDashed(v)
    requires Wanted(m).Some? && !m.Channel?
    ensures forall w :: w in Words(m) ==> !IsDashed(w)
  {
    if m.Share? && m.printers != [] {
      forall w | w in Words(m) ensures !IsDashed(w) {
        assert w in ["sharing", "set"] || w in m.printers;
      }
    }
  }

  lemma ChannelScan(m: Mutation, socket: string)
    requires m.Channel?
    ensures Scan(Arguments(m, socket), NO_FLAGS) == Ok(ScanOf(m, socket))
  {
    TailKinds();
    var tail := ["--json", "--socket", socket];
    var f := NO_FLAGS.(positional := ["network-channel", "set"]);
    assert Arguments(m, socket) == ["network-channel", "set"] + (["--stdin"] + tail);
    WordsAreKept(["network-channel", "set"], ["--stdin"] + tail, NO_FLAGS);
    assert NO_FLAGS.positional + ["network-channel", "set"] == ["network-channel", "set"];
    ScanFlag("--stdin", tail, f);
    TailReads(socket, f.(stdin := true));
  }

  lemma ArgumentsScan(m: Mutation, socket: string)
    requires forall v :: v in Values(m) ==> !IsDashed(v)
    requires Wanted(m).Some?
    ensures Scan(Arguments(m, socket), NO_FLAGS) == Ok(ScanOf(m, socket))
  {
    var tail := ["--json", "--socket", socket];
    if m.Channel? {
      ChannelScan(m, socket);
    } else {
      CommandWordsPlain(m);
      WordsAreKept(Words(m), tail, NO_FLAGS);
      assert NO_FLAGS.positional + Words(m) == Words(m);
      TailReads(socket, NO_FLAGS.(positional := Words(m)));
    }
  }

  /** The keywords the desktop uses are told apart. */
  lemma Keywords3()
    ensures KeywordOf("set") == KSet && KeywordOf("stop") == KStop
  {
  }

  lemma Keywords5()
    ensures KeywordOf("start") == KStart && KeywordOf("trust") == KTrust
  {
  }

  lemma Keywords5b()
    ensures KeywordOf("queue") == KQueue && KeywordOf("clear") == KClear
  {
  }

  lemma Keywords6()
    ensures KeywordOf("forget") == KForget && KeywordOf("repair") == KRepair
  {
  }

  lemma Keywords7()
    ensures KeywordOf("sharing") == KSharing && KeywordOf("approve") == KApprove
  {
  }

  lemma Keywords7b()
    ensures KeywordOf("install") == KInstall && KeywordOf("network-channel") == KChannel
  {
  }

  lemma ServicesAreNotDaemon(id: S.ServiceId)
    ensures KeywordOf(ServiceName(id)) == Other
  {
  }

  /** The keywords a mutation's words are recognised as. */
  function Recognised(m: Mutation): (Keyword, Keyword) {
    match m
    case Start(id) => (KStart, KeywordOf(id))
    case Stop(id) => (KStop, KeywordOf(id))
    case StopDaemon => (KStop, Other)
    case Channel(_) => (KChannel, KSet)
    case Approve(_, _) => (KTrust, KApprove)
    case Forget(_) => (KTrust, KForget)
    case Install(_, _) => (KQueue, KInstall)
    case Repair(_, _) => (KQueue, KRepair)
    case Share(printers) => (KSharing, if printers == [] then KClear else KSet)
  }

  lemma WordsRecognised(m: Mutation)
    ensures First(Words(m)) == Recognised(m).0
    ensures Second(Words(m)) == Recognised(m).1
    ensures Words(m) != []
  {
    Keywords3();
    Keywords5();
    Keywords5b();
    Keywords6();
    Keywords7();
    Keywords7b();
  }

  lemma WordsMean(m: Mutation, socket: string)
    requires Wanted(m).Some?
    ensures Interpret(ScanOf(m, socket)) == Ok(Options(socket, true, Wanted(m).value))
  {
    var f := ScanOf(m, socket);
    WordsRecognised(m);
    assert First(f.positional) == Recognised(m).0 && Second(f.positional) == Recognised(m).1;
    if m.Stop? {
      ServicesAreNotDaemon(Wanted(m).value.id);
    }
    RecognisedMean(m, f);
  }

  lemma RecognisedMean(m: Mutation, f: Flags)
    requires Wanted(m).Some? && (m.Stop? ==> KeywordOf(m.id) == Other)
    requires f.json && f.stdin == m.Channel? && f.fd.None? && f.credential.None? && f.fingerprint.None? && f.timeout.None?
    requires f.positional == if m.Channel? then Words(m)[..2] else Words(m)
    ensures InterpretAs(f, Recognised(m).0, Recognised(m).1) == Ok(Options(f.socket, true, Wanted(m).value))
  {
    if m.Share? && m.printers != [] {
      assert Words(m)[2..] == m.printers;
    }
  }

  // ---------------------------------------------------------------- and nothing else reads back

  /** Only arguments without a leading dash become positional. */
  lemma {:induction false} PositionalsAreBare(args: seq<string>, f: Flags)
    requires Scan(args, f).Ok?
    ensures forall w :: w in Scan(args, f).value.positional ==> w in f.positional || !IsDashed(w)
    decreases |args|
  {
    if args != [] {
      var kind := Classify(args[0]);
      var value := if TakesValue(kind) then args[1] else "";
      var next := Apply(f, kind, args[0], value).value;
      PositionalsAreBare(if TakesValue(kind) then args[2..] else args[1..], next);
    }
  }

  ghost predicate Follows(args: seq<string>, i: int, fingerprint: Option<string>) {
    0 <= i < |args| - 1 && Classify(args[i]) == Fingerprint && fingerprint == Some(args[i + 1])
  }

  /** A fingerprint option's value is the argument right after it. */
  lemma {:induction false} FingerprintFollows(args: seq<string>, f: Flags)
    requires Scan(args, f).Ok?
    ensures Scan(args, f).value.fingerprint == f.fingerprint || exists i :: Follows(args, i, Scan(args, f).value.fingerprint)
    decreases |args|
  {
    if args != [] {
      var kind := Classify(args[0]);
      var skip := if TakesValue(kind) then 2 else 1;
      var next := Apply(f, kind, args[0], if TakesValue(kind) then args[1] else "").value;
      var g := Scan(args, f).value;
      FingerprintFollows(args[skip..], next);
      if g.fingerprint != next.fingerprint {
        var i :| Follows(args[skip..], i, g.fingerprint);
        assert Follows(args, skip + i, g.fingerprint);
      } else if kind == Fingerprint {
        assert Follows(args, 0, g.fingerprint);
      }
    }
  }

  /** The values of a command come from the positional words, or from the fingerprint option. */
  ghost predicate TakenFrom(c: Command, f: Flags) {
    match c
    case SetSharedPrinters(printers) => forall v :: v in printers ==> v in f.positional
    case ForgetServer(address) => address in f.positional
    case InstallClientQueue(address, printer) => address in f.positional && printer in f.positional
    case RepairClientQueue(address, printer) => address in f.positional && printer in f.positional
    case ApproveServer(address, fingerprint) =>
      address in f.positional && (fingerprint in f.positional || f.fingerprint == Some(fingerprint))
    case _ => true
  }

  lemma CommandValues(f: Flags, first: Keyword, second: Keyword)
    requires CommandOf(f, first, second).Ok?
    ensures TakenFrom(CommandOf(f, first, second).value, f)
  {
    if |f.positional| == 2 {
      TwoWordValues(f, first, second);
    } else if |f.positional| > 2 {
      MoreWordValues(f, first, second);
    }
  }

  lemma TwoWordValues(f: Flags, first: Keyword, second: Keyword)
    requires |f.positional| == 2 && TwoWords(f, first, second).Ok?
    ensures TakenFrom(TwoWords(f, first, second).value, f)
  {
  }

  lemma MoreWordValues(f: Flags, first: Keyword, second: Keyword)
    requires |f.positional| > 2 && MoreWords(f, first, second).Ok?
    ensures TakenFrom(MoreWords(f, first, second).value, f)
  {
    assert f.positional[2] in f.positional;
    assert |f.positional| == 4 ==> f.positional[3] in f.positional;
  }

  /** No fingerprint option can deliver a fingerprint that itself begins with a dash. */
  lemma ApproveFingerprint(m: Mutation, socket: string, g: Flags)
    requires m.Approve? && Scan(Arguments(m, socket), NO_FLAGS) == Ok(g)
    requires !IsDashed(m.address) && IsDashed(m.fingerprint)
    ensures g.fingerprint != Some(m.fingerprint)
  {
    var args := Arguments(m, socket);
    FingerprintFollows(args, NO_FLAGS);
    TailKinds();
    assert args == ["trust", "approve", m.address, m.fingerprint, "--json", "--socket", socket];
  }

  /** The command the control program runs is the one the desktop asked for. */
  ghost predicate ReadsBack(program: string, m: Mutation, socket: string) {
    && Wanted(m).Some?
    && Parsed([program] + Arguments(m, socket)) == Ok(Options(socket, true, Wanted(m).value))
  }

  lemma ReadBackIsBare(program: string, m: Mutation, socket: string, v: string)
    requires ReadsBack(program, m, socket) && v in Values(m)
    ensures !IsDashed(v)
  {
    var args := [program] + Arguments(m, socket);
    assert args[1..] == Arguments(m, socket);
    var g := Scan(args[1..], NO_FLAGS).value;
    PositionalsAreBare(args[1..], NO_FLAGS);
    CommandValues(g, First(g.positional), Second(g.positional));
    if m.Approve? && v == m.fingerprint && IsDashed(v) {
      ApproveFingerprint(m, socket, g);
      assert false;
    }
  }

  /** The helper arguments round trip, with its exact condition: the service is known and no value
      begins with a dash. The socket path may be anything. */
  lemma ArgumentsRoundTrip(program: string, m: Mutation, socket: string)
    ensures ReadsBack(program, m, socket) <==> Wanted(m).Some? && forall v :: v in Values(m) ==> !IsDashed(v)
  {
    var args := [program] + Arguments(m, socket);
    assert args[1..] == Arguments(m, socket);
    if Wanted(m).Some? && forall v :: v in Values(m) ==> !IsDashed(v) {
      ArgumentsScan(m, socket);
      WordsMean(m, socket);
    }
    if ReadsBack(program, m, socket) {
      forall v | v in Values(m) ensures !IsDashed(v) {
        ReadBackIsBare(program, m, socket, v);
      }
    }
  }

  /** The words `stop daemon` are the command that shuts the daemon down, so a stop naming no service
      is not always refused. The desktop only sends names of services, which read back as themselves. */
  lemma StoppingDaemonShutsDown(program: string, socket: string)
    ensures Wanted(Stop("daemon")).None?
    ensures Parsed([program] + Arguments(Stop("daemon"), socket)) == Ok(Options(socket, true, Shutdown))
  {
    DaemonIsNoService();
    StopWordReads(program, "daemon", socket);
  }

  lemma StopWordReads(program: string, word: string, socket: string)
    requires !IsDashed(word) && KeywordOf(word) == KDaemon
    ensures Parsed([program] + Arguments(Stop(word), socket)) == Ok(Options(socket, true, Shutdown))
  {
    var tail := ["--json", "--socket", socket];
    assert ([program] + Arguments(Stop(word), socket))[1..] == ["stop", word] + tail;
    Keywords3();
    assert !IsDashed("stop");
    TwoWordsRead("stop", word, tail);
    TailReads(socket, NO_FLAGS.(positional := ["stop", word]));
  }

  lemma TwoWordsRead(a: string, b: string, rest: seq<string>)
    requires !IsDashed(a) && !IsDashed(b)
    ensures Scan([a, b] + rest, NO_FLAGS) == Scan(rest, NO_FLAGS.(positional := [a, b]))
  {
    WordsAreKept([a, b], rest, NO_FLAGS);
    assert NO_FLAGS.positional + [a, b] == [a, b];
  }

  lemma DaemonIsNoService()
    ensures ParseService("daemon").Err? && KeywordOf("daemon") == KDaemon
  {
    assert |"daemon"| == 6;
  }

  /** The channel secret never reaches the command line: the arguments do not depend on it. */
  lemma SecretStaysOff(secret: string, other: string, socket: string, program: string)
    ensures Arguments(Channel(secret), socket) == Arguments(Channel(other), socket)
    ensures ReadsBack(program, Channel(secret), socket)
  {
    ArgumentsRoundTrip(program, Channel(secret), socket);
  }
}
