/** The command-line front end shared by the client and the server: option
    helpers, the per-verb handler wrapper and the exit codes of Main. */
module App {
  import opened Platform
  import Security
  import Native

  /** App.ExitCodes. */
  const NO_ERROR: int := 0
  const EXCEPTION_OCCURED: int := 1

  /** The options of the two verbs: "send" (SenderOptions) and "receive"
      (ReceiverOpttions). `file` is None when --file was given no value (null). */
  datatype Options =
    | SenderOptions(verbose: bool, bufferSize: int, pipeName: string, file: Option<string>)
    | ReceiverOptions(verbose: bool, bufferSize: int, pipeName: string, file: Option<string>)

  /** The default of --file: "stdin" for send, "stdout" for receive. */
  function DefaultFile(options: Options): string {
    if options.SenderOptions? then "stdin" else "stdout"
  }

  // ---------------------------------------------------------------------------
  // Pipe name and direction
  // ---------------------------------------------------------------------------

  /** The local-pipe namespace, `\\.\pipe\`. */
  const PipePrefix: string := @"\\.\pipe\"

  /** Options.PipeFullName: the pipe name, unchanged, in the local-pipe namespace. */
  function PipeFullName(pipeName: string): (path: string)
    ensures |path| == |PipePrefix| + |pipeName|
    ensures path[..|PipePrefix|] == PipePrefix
    ensures path[|PipePrefix|..] == pipeName
  {
    PipePrefix + pipeName
  }

  /** Different pipe names never share a path. */
  lemma PipeFullNameInjective(a: string, b: string)
    ensures PipeFullName(a) == PipeFullName(b) ==> a == b
  {
    if PipeFullName(a) == PipeFullName(b) {
      assert a == PipeFullName(a)[|PipePrefix|..];
    }
  }

  /** The PipeDirection overrides: receive reads from the pipe, send writes to it. */
  function PipeDirectionOf(options: Options): (direction: PipeDirection)
    ensures direction != InOut
    ensures direction == In <==> options.ReceiverOptions?
  {
    match options
    case ReceiverOptions(_, _, _, _) => In
    case SenderOptions(_, _, _, _) => Out
  }

  /** Neither verb can reach the bidirectional refusals: the server's rights
      and descriptor exist for every security mode, and the client's Open fails,
      if at all, only with the OS error of CreateFile or, for a negative
      --buffer-size, with ArgumentOutOfRangeException. */
  lemma VerbDirectionsAreSupported(options: Options, mode: Security.SecurityMode, logonSid: Option<Sid>,
                                   pipeName: string, fs: Native.FileSystem)
    ensures Security.GetPipeRights(PipeDirectionOf(options)).Ok?
    ensures Security.Descriptor(mode, PipeDirectionOf(options), logonSid).Ok?
    ensures var r := Native.Open(pipeName, PipeDirectionOf(options), options.bufferSize, fs);
            r.Err? ==> r.error.Win32? || (r.error == ArgumentOutOfRange && options.bufferSize < 0)
  {
  }

  // ---------------------------------------------------------------------------
  // Standard stream or file
  // ---------------------------------------------------------------------------

  /** Char.IsWhiteSpace: the Unicode space, line and paragraph separators,
      U+0009 to U+000D, U+0085 and U+00A0. */
  predicate IsWhiteSpace(c: char) {
    var n := c as int;
    || n == 0x20 || (0x09 <= n <= 0x0D) || n == 0x85 || n == 0xA0 || n == 0x1680
    || (0x2000 <= n <= 0x200A) || n == 0x2028 || n == 0x2029 || n == 0x202F
    || n == 0x205F || n == 0x3000
  }

  /** string.IsNullOrWhiteSpace. */
  predicate IsNullOrWhiteSpace(s: Option<string>) {
    s.None? || forall i :: 0 <= i < |s.value| ==> IsWhiteSpace(s.value[i])
  }

  /** Case folding of the ASCII letters. */
  function AsciiLower(c: char): char {
    if 'A' <= c <= 'Z' then (c as int + 32) as char else c
  }

  /** string.Compare(a, b, true) == 0, for ASCII letters. */
  predicate EqualsIgnoreCase(a: string, b: string) {
    |a| == |b| && forall i :: 0 <= i < |a| ==> AsciiLower(a[i]) == AsciiLower(b[i])
  }

  /** The --file value names the standard stream: it is null or blank, the
      keyword in any letter case, or "-". */
  predicate NamesStandardStream(file: Option<string>, keyword: string) {
    || IsNullOrWhiteSpace(file)
    || (file.Some? && EqualsIgnoreCase(file.value, keyword))
    || file == Some("-")
  }

  datatype FileMode = OpenMode | CreateMode

  /** What GetStream hands back. */
  datatype StreamChoice =
    | StandardInput(bufferSize: int)
    | StandardOutput(bufferSize: int)
    | DiskFile(path: string, mode: FileMode, access: FileAccess)

  /** The --file value names a file: it is non-null, not blank, not "-" and
      not the verb's keyword in any letter case. */
  predicate FileRequested(options: Options) {
    && options.file.Some?
    && (exists i :: 0 <= i < |options.file.value| && !IsWhiteSpace(options.file.value[i]))
    && !EqualsIgnoreCase(options.file.value, DefaultFile(options))
    && options.file.value != "-"
  }

  /** Console.OpenStandardInput/OpenStandardOutput(bufferSize): a negative
      buffer size throws ArgumentOutOfRangeException. */
  function OpenStandard(choice: StreamChoice): (r: Result<StreamChoice>)
    requires !choice.DiskFile?
    ensures r.Err? <==> choice.bufferSize < 0
    ensures r.Err? ==> r.error == ArgumentOutOfRange
    ensures r.Ok? ==> r.value == choice
  {
    if choice.bufferSize < 0 then Err(ArgumentOutOfRange) else Ok(choice)
  }

  /** The two GetStream overloads. Send reads standard input or opens the named
      file for reading; receive writes standard output or creates (truncates) the
      named file for writing. A file is used only under a name that is not
      blank, not "-" and not the verb's keyword in any letter case; a standard
      stream refuses a negative buffer size. */
  function GetStream(options: Options): (r: Result<StreamChoice>)
    ensures r.Ok? && options.SenderOptions? ==>
              !r.value.StandardOutput? && (r.value.DiskFile? ==> r.value.mode == OpenMode && r.value.access == ReadAccess)
    ensures r.Ok? && options.ReceiverOptions? ==>
              !r.value.StandardInput? && (r.value.DiskFile? ==> r.value.mode == CreateMode && r.value.access == WriteAccess)
    ensures r.Ok? && !r.value.DiskFile? ==> r.value.bufferSize == options.bufferSize
    ensures r.Ok? && r.value.DiskFile? <==> FileRequested(options)
    ensures r.Ok? && r.value.DiskFile? ==> r.value.path == options.file.value
    ensures r.Err? <==> !FileRequested(options) && options.bufferSize < 0
    ensures r.Err? ==> r.error == ArgumentOutOfRange
  {
    match options
    case SenderOptions(_, bufferSize, _, file) =>
      if NamesStandardStream(file, "stdin") then OpenStandard(StandardInput(bufferSize))
      else Ok(DiskFile(file.value, OpenMode, ReadAccess))
    case ReceiverOptions(_, bufferSize, _, file) =>
      if NamesStandardStream(file, "stdout") then OpenStandard(StandardOutput(bufferSize))
      else Ok(DiskFile(file.value, CreateMode, WriteAccess))
  }

  /** The --file default of each verb selects its standard stream, and so do
      the upper-case keyword and "-". */
  lemma DefaultsSelectStandardStreams(verbose: bool, bufferSize: int, pipeName: string)
    ensures GetStream(SenderOptions(verbose, bufferSize, pipeName, Some("stdin"))) == OpenStandard(StandardInput(bufferSize))
    ensures GetStream(ReceiverOptions(verbose, bufferSize, pipeName, Some("stdout"))) == OpenStandard(StandardOutput(bufferSize))
    ensures GetStream(SenderOptions(verbose, bufferSize, pipeName, Some("STDIN"))) == OpenStandard(StandardInput(bufferSize))
    ensures GetStream(ReceiverOptions(verbose, bufferSize, pipeName, Some("-"))) == OpenStandard(StandardOutput(bufferSize))
  {
    assert EqualsIgnoreCase("STDIN", "stdin");
  }

  /** The keyword of one verb is an ordinary file name for the other:
      `send --file stdout` reads a file named "stdout", and `receive --file stdin`
      creates one named "stdin". */
  lemma OtherVerbsKeywordIsAFile(verbose: bool, bufferSize: int, pipeName: string)
    ensures GetStream(SenderOptions(verbose, bufferSize, pipeName, Some("stdout"))) == Ok(DiskFile("stdout", OpenMode, ReadAccess))
    ensures GetStream(ReceiverOptions(verbose, bufferSize, pipeName, Some("stdin"))) == Ok(DiskFile("stdin", CreateMode, WriteAccess))
  {
    assert !EqualsIgnoreCase("stdout", "stdin");
    assert AsciiLower("stdin"[0]) == 's' && AsciiLower("stdout"[0]) == 's';
    assert AsciiLower("stdin"[3]) != AsciiLower("stdout"[3]);
    assert !IsWhiteSpace('s');
  }

  // ---------------------------------------------------------------------------
  // Console.CancelKeyPress, VerbHandler and Main
  // ---------------------------------------------------------------------------

  /** The invocation list with the last occurrence of `h` removed, as the `-=`
      of a delegate does; unchanged when `h` is not in it. */
  function RemoveLast(handlers: seq<nat>, h: nat): seq<nat> {
    if handlers == [] then []
    else if handlers[|handlers| - 1] == h then handlers[..|handlers| - 1]
    else RemoveLast(handlers[..|handlers| - 1], h) + [handlers[|handlers| - 1]]
  }

  /** `-=` undoes the `+=` of the same handler. */
  lemma RemoveLastUndoesAdd(handlers: seq<nat>, h: nat)
    ensures RemoveLast(handlers + [h], h) == handlers
  {
    assert (handlers + [h])[..|handlers|] == handlers;
  }

  /** `-=` removes exactly one subscription of the handler, if it has one. */
  lemma {:induction false} RemoveLastRemovesOne(handlers: seq<nat>, h: nat)
    ensures h in handlers ==> multiset(RemoveLast(handlers, h)) + multiset{h} == multiset(handlers)
    ensures h !in handlers ==> RemoveLast(handlers, h) == handlers
  {
    if handlers != [] {
      var init := handlers[..|handlers| - 1];
      var last := handlers[|handlers| - 1];
      assert handlers == init + [last];
      if last != h {
        RemoveLastRemovesOne(init, h);
      }
    }
  }

  /** The Console.CancelKeyPress event: its invocation list of handler ids. */
  class CancelKeyPress {
    var handlers: seq<nat>

    constructor ()
      ensures handlers == []
    {
      handlers := [];
    }

    method Subscribe(h: nat)
      modifies this
      ensures handlers == old(handlers) + [h]
    {
      handlers := handlers + [h];
    }

    method Unsubscribe(h: nat)
      modifies this
      ensures handlers == RemoveLast(old(handlers), h)
    {
      handlers := RemoveLast(handlers, h);
    }
  }

  /** How a verb handler ends. */
  datatype Outcome = Completed | Threw(exception: Exception)

  /** What VerbHandler lets escape from a verb handler's outcome: completion
      as it is, any exception wrapped in a HandledException. */
  function Wrap(outcome: Outcome): (r: Outcome)
    ensures r.Completed? <==> outcome.Completed?
    ensures outcome.Threw? ==> r.exception.Handled? && r.exception.inner == outcome.exception
  {
    match outcome
    case Completed => Completed
    case Threw(ex) => Threw(Handled(ex))
  }

  /** VerbHandler: subscribe the cancel handler `cancelHandler`, run the verb
      handler, rethrow any exception wrapped in a HandledException, and
      unsubscribe in the `finally` block. The verb handler is given as its
      outcome for each invocation list of Console.CancelKeyPress it may run
      under, so that it is seen to run with `cancelHandler` subscribed. */
  method VerbHandler(options: Options, console: CancelKeyPress, cancelHandler: nat,
                     handler: seq<nat> -> Outcome)
    returns (result: Outcome)
    modifies console
    ensures console.handlers == old(console.handlers)
    ensures result == Wrap(handler(old(console.handlers) + [cancelHandler]))
  {
    console.Subscribe(cancelHandler);
    // try
    var outcome := handler(console.handlers);
    match outcome {
      case Completed =>
        result := Completed;
      case Threw(ex) =>
        result := Threw(Handled(ex));
    }
    // finally
    console.Unsubscribe(cancelHandler);
    RemoveLastUndoesAdd(old(console.handlers), cancelHandler);
  }

  /** The exit code for what escaped the verb handlers: NO_ERROR when nothing
      did, EXCEPTION_OCCURED for a HandledException or any other exception. */
  function ExitCodeOf(escaped: Option<Exception>): (code: int)
    ensures code == NO_ERROR <==> escaped.None?
    ensures code == EXCEPTION_OCCURED <==> escaped.Some?
  {
    match escaped
    case None => NO_ERROR
    case Some(Handled(_)) => EXCEPTION_OCCURED
    case Some(_) => EXCEPTION_OCCURED
  }

  /** A verb handler that throws OperationCanceledException ends like any
      other failure: VerbHandler wraps it and Main returns EXCEPTION_OCCURED. */
  lemma HandlerCancellationExitsWithError()
    ensures ExitCodeOf(Some(Handled(OperationCanceled))) == EXCEPTION_OCCURED
  {
  }

  /** The outcome of command-line parsing. */
  datatype ParseResult = Parsed(options: Options) | NotParsed

  /** Program.Main: run the verb handler of the parsed verb, if any, and map what
      escapes to an exit code. When parsing fails neither handler runs and the
      exit code is NO_ERROR. */
  method RunMain(parsed: ParseResult, console: CancelKeyPress, cancelHandler: nat,
              senderHandler: seq<nat> -> Outcome, receiverHandler: seq<nat> -> Outcome)
    returns (exitCode: int)
    modifies console
    ensures console.handlers == old(console.handlers)
    ensures exitCode == NO_ERROR || exitCode == EXCEPTION_OCCURED
    ensures exitCode == EXCEPTION_OCCURED <==>
              parsed.Parsed? &&
              (if parsed.options.SenderOptions?
               then senderHandler(old(console.handlers) + [cancelHandler])
               else receiverHandler(old(console.handlers) + [cancelHandler])).Threw?
  {
    // try
    if parsed.Parsed? && parsed.options.SenderOptions? {
      var result := VerbHandler(parsed.options, console, cancelHandler, senderHandler);
      if result.Threw? {
        return ExitCodeOf(Some(result.exception));
      }
    }
    if parsed.Parsed? && parsed.options.ReceiverOptions? {
      var result := VerbHandler(parsed.options, console, cancelHandler, receiverHandler);
      if result.Threw? {
        return ExitCodeOf(Some(result.exception));
      }
    }
    return ExitCodeOf(None);
  }
}
