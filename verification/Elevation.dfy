/** The elevated helper's command line (adapters/elevation.rs): what the desktop passes and what the
    helper reads back out of it. */
module Elevation {
  import opened Common
  import opened Queues
  import CommandLine

  const SETUP_FLAG := "--setup"
  const SERVER_OPTION := "--server"
  const PRINTER_OPTION := "--printer"

  datatype SetupAction =
    | AllowInboundSharing | SelectPrinters | StartSharing | StopSharing | ShowCertificateFingerprint
    | InstallPrinter | RepairPrinter

  function ActionName(a: SetupAction): string {
    match a
    case AllowInboundSharing => "allow-inbound-sharing"
    case SelectPrinters => "select-printers"
    case StartSharing => "start-sharing"
    case StopSharing => "stop-sharing"
    case ShowCertificateFingerprint => "show-certificate-fingerprint"
    case InstallPrinter => "install-printer"
    case RepairPrinter => "repair-printer"
  }

  /** The first action of the given name, in the declared order. */
  function ParseAction(value: string): Option<SetupAction> {
    if value == ActionName(AllowInboundSharing) then Some(AllowInboundSharing)
    else if value == ActionName(SelectPrinters) then Some(SelectPrinters)
    else if value == ActionName(StartSharing) then Some(StartSharing)
    else if value == ActionName(StopSharing) then Some(StopSharing)
    else if value == ActionName(ShowCertificateFingerprint) then Some(ShowCertificateFingerprint)
    else if value == ActionName(InstallPrinter) then Some(InstallPrinter)
    else if value == ActionName(RepairPrinter) then Some(RepairPrinter)
    else None
  }

  datatype HelperRequest =
    | Action(action: SetupAction)
    | InstallClientQueue(request: QueueRequest)
    | RepairClientQueue(request: QueueRequest)

  /** What was wrong: the offending word, or the refused value. */
  datatype Reason = Word(word: string) | Refused(error: InvalidInput)

  datatype Meaning = Run | Setup(request: HelperRequest) | Invalid(reason: Reason)

  // ---------------------------------------------------------------- what the desktop passes

  function QueueParameters(action: SetupAction, r: QueueRequest): string {
    SETUP_FLAG + " " + ActionName(action) + " " + SERVER_OPTION + " " + CommandLine.Quote(r.server_address)
    + " " + PRINTER_OPTION + " " + CommandLine.Quote(r.printer)
  }

  function HelperParameters(request: HelperRequest): string {
    match request
    case Action(action) => SETUP_FLAG + " " + ActionName(action)
    case InstallClientQueue(r) => QueueParameters(InstallPrinter, r)
    case RepairClientQueue(r) => QueueParameters(RepairPrinter, r)
  }

  // ---------------------------------------------------------------- what the helper reads

  /** Both options read so far, in any order, or the word that stops the reading. */
  function ReadOptions(args: seq<string>, server: Option<string>, printer: Option<string>)
    : Result<(Option<string>, Option<string>), string>
    decreases |args|
  {
    if args == [] then Ok((server, printer))
    else if args[0] != SERVER_OPTION && args[0] != PRINTER_OPTION then Err(args[0])
    else if |args| == 1 then Err(args[0])
    else if args[0] == SERVER_OPTION then
      if server.Some? then Err(args[0]) else ReadOptions(args[2..], Some(args[1]), printer)
    else
      if printer.Some? then Err(args[0]) else ReadOptions(args[2..], server, Some(args[1]))
  }

  /** The helper validates again everything it was handed. */
  function Accept(server: string, printer: string, repair: bool): Meaning {
    match ParsePrinterName(printer)
    case Err(e) => Invalid(Refused(e))
    case Ok(name) =>
      match NewQueueRequest(server, name)
      case Err(e) => Invalid(Refused(e))
      case Ok(r) => Setup(if repair then RepairClientQueue(r) else InstallClientQueue(r))
  }

  function QueueMeaning(args: seq<string>, repair: bool): Meaning {
    match ReadOptions(args, None, None)
    case Err(word) => Invalid(Word(word))
    case Ok((Some(server), Some(printer))) => Accept(server, printer, repair)
    case Ok(_) => Invalid(Word(ActionName(if repair then RepairPrinter else InstallPrinter)))
  }

  /** Reads `--server` and `--printer`, both required exactly once. */
  method ParseQueueRequest(args: seq<string>, repair: bool) returns (m: Meaning)
    ensures m == QueueMeaning(args, repair)
  {
    var server: Option<string> := None;
    var printer: Option<string> := None;
    var i := 0;
    while i < |args|
      invariant 0 <= i <= |args|
      invariant ReadOptions(args, None, None) == ReadOptions(args[i..], server, printer)
    {
      var option := args[i];
      if option != SERVER_OPTION && option != PRINTER_OPTION {
        return Invalid(Word(option));
      }
      i := i + 1;
      if i == |args| {
        return Invalid(Word(option));
      }
      if (if option == SERVER_OPTION then server else printer).Some? {
        return Invalid(Word(option));
      }
      assert args[i - 1..][2..] == args[i + 1..];
      if option == SERVER_OPTION { server := Some(args[i]); } else { printer := Some(args[i]); }
      i := i + 1;
    }
    assert args[i..] == [];
    if server.None? || printer.None? {
      return Invalid(Word(ActionName(if repair then RepairPrinter else InstallPrinter)));
    }
    m := Accept(server.value, printer.value, repair);
  }

  function ParseSetup(args: seq<string>): Meaning {
    if args == [] then Invalid(Word(SETUP_FLAG))
    else
      match ParseAction(args[0])
      case None => Invalid(Word(args[0]))
      case Some(action) =>
        if action == InstallPrinter then QueueMeaning(args[1..], false)
        else if action == RepairPrinter then QueueMeaning(args[1..], true)
        else Setup(Action(action))
  }

  function AfterSetup(args: seq<string>): Meaning {
    if args == [] then Run
    else if args[0] == SETUP_FLAG then ParseSetup(args[1..])
    else AfterSetup(args[1..])
  }

  /** The meaning of a whole command line; its first argument is the program. */
  function ParseCommandLine(args: seq<string>): Meaning {
    AfterSetup(if args == [] then [] else args[1..])
  }

  // ---------------------------------------------------------------- reading is exact

  /** The two ways to give each option exactly once. */
  ghost predicate BothOptions(args: seq<string>, server: string, printer: string) {
    || args == [SERVER_OPTION, server, PRINTER_OPTION, printer]
    || args == [PRINTER_OPTION, printer, SERVER_OPTION, server]
  }

  lemma OneOptionLeft(args: seq<string>, server: Option<string>, printer: Option<string>, s: string, p: string)
    requires server.Some? != printer.Some?
    ensures ReadOptions(args, server, printer) == Ok((Some(s), Some(p)))
            <==> (server == Some(s) && args == [PRINTER_OPTION, p]) || (printer == Some(p) && args == [SERVER_OPTION, s])
  {
    if |args| > 2 {
      assert args[2..] != [];
    } else if |args| == 2 {
      assert args[2..] == [] && args == [args[0], args[1]];
    }
  }

  /** An option is neither missing, repeated nor unknown exactly when both stand there once. */
  lemma OptionsExactly(args: seq<string>, s: string, p: string)
    ensures ReadOptions(args, None, None) == Ok((Some(s), Some(p))) <==> BothOptions(args, s, p)
  {
    if |args| >= 2 {
      OneOptionLeft(args[2..], Some(args[1]), None, s, p);
      OneOptionLeft(args[2..], None, Some(args[1]), s, p);
      assert args == [args[0], args[1]] + args[2..];
    }
  }

  /** A queue is only ever installed or repaired for a server and printer that were each named once
      and that validation accepts. */
  lemma QueueRequestExactly(args: seq<string>, repair: bool)
    ensures QueueMeaning(args, repair).Setup?
            <==> exists s: string, p: string :: BothOptions(args, s, p) && Accept(s, p, repair).Setup?
    ensures forall s: string, p: string :: BothOptions(args, s, p) ==> QueueMeaning(args, repair) == Accept(s, p, repair)
  {
    forall s: string, p: string ensures ReadOptions(args, None, None) == Ok((Some(s), Some(p))) <==> BothOptions(args, s, p) {
      OptionsExactly(args, s, p);
    }
    var read := ReadOptions(args, None, None);
    if read.Ok? && read.value.0.Some? && read.value.1.Some? {
      assert BothOptions(args, read.value.0.value, read.value.1.value);
    }
  }

  lemma {:induction false} AfterSetupExactly(args: seq<string>)
    ensures AfterSetup(args) == Run <==> forall k :: 0 <= k < |args| ==> args[k] != "--setup"
    ensures forall k :: 0 <= k < |args| && args[k] == "--setup" && (forall i :: 0 <= i < k ==> args[i] != "--setup") ==>
              AfterSetup(args) == ParseSetup(args[k + 1..])
    decreases |args|
  {
    if args != [] {
      var rest := args[1..];
      AfterSetupExactly(rest);
      if args[0] == "--setup" {
        SetupNeverRuns(rest);
      } else {
        forall k | 0 <= k < |args| && args[k] == "--setup" && (forall i :: 0 <= i < k ==> args[i] != "--setup")
          ensures AfterSetup(args) == ParseSetup(args[k + 1..])
        {
          assert rest[k - 1] == "--setup" && forall i :: 0 <= i < k - 1 ==> rest[i] == args[i + 1];
          assert rest[k - 1 + 1..] == args[k + 1..];
        }
        assert (forall k :: 0 <= k < |args| ==> args[k] != "--setup") <==> (forall k :: 0 <= k < |rest| ==> rest[k] != "--setup") by {
          assert forall k :: 0 <= k < |rest| ==> rest[k] == args[k + 1];
          assert forall k :: 1 <= k < |args| ==> args[k] == rest[k - 1];
        }
      }
    }
  }

  lemma SetupNeverRuns(args: seq<string>)
    ensures !ParseSetup(args).Run?
  {
  }

  /** The app starts normally exactly when no argument asks for a setup; otherwise the first such argument
      decides. */
  lemma CommandLineExactly(program: string, args: seq<string>)
    ensures ParseCommandLine([program] + args) == Run <==> forall k :: 0 <= k < |args| ==> args[k] != "--setup"
    ensures forall k :: 0 <= k < |args| && args[k] == "--setup" && (forall i :: 0 <= i < k ==> args[i] != "--setup") ==>
              ParseCommandLine([program] + args) == ParseSetup(args[k + 1..])
  {
    assert ([program] + args)[1..] == args;
    AfterSetupExactly(args);
  }

  // ---------------------------------------------------------------- the round trip

  /** Four plain words and two quoted values, each pair separated by a space. */
  lemma SixWords(a: string, b: string, c: string, d: string, e: string, f: string, doubling: bool)
    requires CommandLine.IsPlain(a) && CommandLine.IsPlain(b) && CommandLine.IsPlain(c) && CommandLine.IsPlain(e)
    ensures CommandLine.SplitArguments(
              a + " " + b + " " + c + " " + CommandLine.Quote(d) + " " + e + " " + CommandLine.Quote(f), doubling)
            == [a, b, c, d, e, f]
  {
    var w := [CommandLine.Plain(a), CommandLine.Plain(b), CommandLine.Plain(c), CommandLine.Quoted(d),
              CommandLine.Plain(e), CommandLine.Quoted(f)];
    Line6(w);
    CommandLine.LineRoundTrip(w, doubling);
  }

  lemma Line2(w: seq<CommandLine.Word>)
    requires |w| == 2
    ensures CommandLine.Line(w) == CommandLine.Render(w[0]) + " " + CommandLine.Render(w[1])
  {
    assert w[1..] == [w[1]];
  }

  lemma {:induction false} LineGrows(w: seq<CommandLine.Word>, n: nat)
    requires 0 < n < |w|
    ensures CommandLine.Line(w[..n + 1]) == CommandLine.Line(w[..n]) + " " + CommandLine.Render(w[n])
    decreases n
  {
    if n > 1 {
      LineGrows(w[1..], n - 1);
      assert w[..n + 1][1..] == w[1..][..n] && w[..n][1..] == w[1..][..n - 1];
      Regroup(CommandLine.Render(w[0]) + " ", CommandLine.Line(w[1..][..n - 1]), " ", CommandLine.Render(w[n]));
    } else {
      assert w[..2] == [w[0], w[1]];
      Line2(w[..2]);
    }
  }

  lemma Regroup(a: string, b: string, c: string, d: string)
    ensures a + (b + c + d) == a + b + c + d
  {
  }

  lemma Line6(w: seq<CommandLine.Word>)
    requires |w| == 6
    ensures CommandLine.Line(w) == CommandLine.Render(w[0]) + " " + CommandLine.Render(w[1]) + " "
                                   + CommandLine.Render(w[2]) + " " + CommandLine.Render(w[3]) + " "
                                   + CommandLine.Render(w[4]) + " " + CommandLine.Render(w[5])
  {
    Line2(w[..2]);
    LineGrows(w, 2);
    LineGrows(w, 3);
    LineGrows(w, 4);
    LineGrows(w, 5);
    assert w[..6] == w;
  }

  lemma FlagsArePlain()
    ensures CommandLine.IsPlain(SETUP_FLAG) && CommandLine.IsPlain(SERVER_OPTION) && CommandLine.IsPlain(PRINTER_OPTION)
  {
  }

  lemma NamesArePlain(action: SetupAction)
    ensures CommandLine.IsPlain(ActionName(action))
  {
    match action
    case AllowInboundSharing => assert CommandLine.IsPlain("allow-inbound-sharing");
    case SelectPrinters => assert CommandLine.IsPlain("select-printers");
    case StartSharing => assert CommandLine.IsPlain("start-sharing");
    case StopSharing => assert CommandLine.IsPlain("stop-sharing");
    case ShowCertificateFingerprint => assert CommandLine.IsPlain("show-certificate-fingerprint");
    case InstallPrinter => assert CommandLine.IsPlain("install-printer");
    case RepairPrinter => assert CommandLine.IsPlain("repair-printer");
  }

  /** The arguments the started helper sees: the program, then its parameters split by Windows. */
  function HelperArguments(program: string, request: HelperRequest, doubling: bool): seq<string> {
    [program] + CommandLine.SplitArguments(HelperParameters(request), doubling)
  }

  lemma QueueArguments(action: SetupAction, r: QueueRequest, doubling: bool)
    ensures CommandLine.SplitArguments(QueueParameters(action, r), doubling)
            == [SETUP_FLAG, ActionName(action), SERVER_OPTION, r.server_address, PRINTER_OPTION, r.printer]
  {
    FlagsArePlain();
    NamesArePlain(action);
    SixWords(SETUP_FLAG, ActionName(action), SERVER_OPTION, r.server_address, PRINTER_OPTION, r.printer, doubling);
  }

  lemma TwoWords(a: string, b: string, doubling: bool)
    requires CommandLine.IsPlain(a) && CommandLine.IsPlain(b)
    ensures CommandLine.SplitArguments(a + " " + b, doubling) == [a, b]
  {
    var w := [CommandLine.Plain(a), CommandLine.Plain(b)];
    Line2(w);
    CommandLine.LineRoundTrip(w, doubling);
  }

  lemma ActionArguments(action: SetupAction, doubling: bool)
    ensures CommandLine.SplitArguments(SETUP_FLAG + " " + ActionName(action), doubling) == [SETUP_FLAG, ActionName(action)]
  {
    FlagsArePlain();
    NamesArePlain(action);
    TwoWords(SETUP_FLAG, ActionName(action), doubling);
  }

  lemma ReadsActions(action: SetupAction)
    ensures ParseAction(ActionName(action)) == Some(action)
  {
    assert |ActionName(AllowInboundSharing)| == 21 && |ActionName(SelectPrinters)| == 15;
    assert |ActionName(StartSharing)| == 13 && |ActionName(StopSharing)| == 12;
    assert |ActionName(ShowCertificateFingerprint)| == 28;
    assert ActionName(SelectPrinters)[0] == 's' && ActionName(InstallPrinter)[0] == 'i';
    assert |ActionName(RepairPrinter)| == 14 && |ActionName(InstallPrinter)| == 15;
  }

  lemma ReadsQueueRequest(program: string, action: SetupAction, r: QueueRequest)
    requires IsRequest(r)
    requires action == InstallPrinter || action == RepairPrinter
    ensures ParseCommandLine([program, SETUP_FLAG, ActionName(action), SERVER_OPTION, r.server_address, PRINTER_OPTION, r.printer])
            == Setup(if action == RepairPrinter then RepairClientQueue(r) else InstallClientQueue(r))
  {
    ReadsActions(action);
    var options := [SERVER_OPTION, r.server_address, PRINTER_OPTION, r.printer];
    OptionsExactly(options, r.server_address, r.printer);
    RevalidationAccepts(r);
    SetupFollows(program, ActionName(action), options);
    assert [program, SETUP_FLAG, ActionName(action)] + options
        == [program, SETUP_FLAG, ActionName(action), SERVER_OPTION, r.server_address, PRINTER_OPTION, r.printer];
  }

  lemma SetupFollows(program: string, word: string, options: seq<string>)
    ensures ParseCommandLine([program, SETUP_FLAG, word] + options) == ParseSetup([word] + options)
    ensures ([word] + options)[1..] == options
  {
    var args := [program, SETUP_FLAG, word] + options;
    assert args[1..][1..] == [word] + options;
  }

  /** Requests the desktop can make: a queue request was validated when it was built. */
  ghost predicate CanBeAsked(request: HelperRequest) {
    request.Action? || IsRequest(request.request)
  }

  /** The helper reads back exactly the request it was started for, whatever the server and printer
      are called; the two queue actions sent as bare actions are the only ones refused. */
  lemma HelperRoundTrip(program: string, request: HelperRequest, doubling: bool)
    requires CanBeAsked(request)
    ensures ParseCommandLine(HelperArguments(program, request, doubling)) == Setup(request)
            <==> request != Action(InstallPrinter) && request != Action(RepairPrinter)
  {
    var args := HelperArguments(program, request, doubling);
    if request.Action? {
      var action := request.action;
      ActionArguments(action, doubling);
      ReadsActions(action);
      var setup := [ActionName(action)];
      assert args == [program, SETUP_FLAG] + setup;
      assert args[1..] == [SETUP_FLAG] + setup && ([SETUP_FLAG] + setup)[1..] == setup;
      assert setup[1..] == [];
    } else {
      var action := if request.RepairClientQueue? then RepairPrinter else InstallPrinter;
      QueueArguments(action, request.request, doubling);
      ReadsQueueRequest(program, action, request.request);
      assert args == [program, SETUP_FLAG, ActionName(action), SERVER_OPTION, request.request.server_address,
                      PRINTER_OPTION, request.request.printer];
    }
  }
}
