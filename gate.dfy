/**
 * `executeCommand`: the chain of guards between an untrusted command line and
 * a process run. Each guard either ends the call with its error or passes on
 * to the next, in this order: empty command, argument validation, extension,
 * existence, the two `Abs` calls, the string-prefix containment test, and the
 * run, whose timeout outranks its error.
 *
 * The filesystem, the working directory and process execution are oracles
 * passed in. The reply records, besides the result, every oracle call the
 * gate made, in order, so that "never touches the filesystem" can be stated.
 */
module Gate {
  import opened Wrappers
  import opened Strings
  import opened FilePath
  import opened Policy
  import opened Validate

  /** What `os.Stat` reports; only a not-exist error stops the gate (`os.IsNotExist`). */
  datatype StatResult = Present | NotExist | OtherStatError

  /**
   * What `CombinedOutput` under the timeout context leaves behind: whether the
   * context's deadline passed (`ctx.Err() == context.DeadlineExceeded`), the
   * run's error, and the combined output.
   */
  datatype RunOutcome = RunOutcome(deadlineExceeded: bool, err: Option<string>, output: string)

  /** One call the gate makes to the outside world. */
  datatype Effect = Stat(path: string) | AbsCall(path: string) | Run(path: string, args: seq<string>)

  /** The texts `executeCommand` can return, as constructors carrying what each message embeds. */
  datatype GateResult =
    | EmptyCommand
    | InvalidArgs(error: ArgError)
    | BadExtension(ext: string)
    | NotFound(name: string)
    | PathError(reason: string)
    | RootPathError(reason: string)
    | EscapesRoot
    | Timeout(seconds: nat)
    | ExecError(reason: string)
    | Output(text: string)

  /** The gate's answer together with the oracle calls made to reach it. */
  datatype Reply = Reply(result: GateResult, effects: seq<Effect>)

  /** True of the results produced after the process has been run. */
  predicate FromRun(g: GateResult) {
    g.Timeout? || g.ExecError? || g.Output?
  }

  /** The oracle calls of a command that reaches the run, in the order the gate makes them. */
  function FullTrace(cmdPath: string, args: seq<string>): seq<Effect> {
    [Stat(cmdPath), AbsCall(cmdPath), AbsCall(CmdDir), Run(cmdPath, args)]
  }

  /** How a finished run is reported: timeout first, then the error, else the output verbatim. */
  function RunResult(o: RunOutcome): (g: GateResult)
    ensures FromRun(g)
    ensures o.deadlineExceeded <==> g == Timeout(CmdTimeoutSeconds)
    ensures !o.deadlineExceeded && o.err.Some? <==> g == ExecError(if o.err.Some? then o.err.value else "")
    ensures !o.deadlineExceeded && o.err.None? <==> g == Output(o.output)
  {
    if o.deadlineExceeded then Timeout(CmdTimeoutSeconds)
    else if o.err.Some? then ExecError(o.err.value)
    else Output(o.output)
  }

  /**
   * The guards after tokenisation, argument validation and the join, for the
   * program name `name`, its joined path `cmdPath` and the arguments `args`:
   * extension, existence, the two `Abs` calls, containment, then the run.
   */
  function ResolveAndRun(
    name: string,
    cmdPath: string,
    args: seq<string>,
    stat: string -> StatResult,
    abs: string -> Result<string>,
    run: (string, seq<string>) -> RunOutcome
  ): (r: Reply)
    ensures !r.result.EmptyCommand? && !r.result.InvalidArgs?
    ensures r.effects <= FullTrace(cmdPath, args)
    ensures FromRun(r.result) <==> |r.effects| == 4
  {
    var ext := Ext(cmdPath);
    if ext !in AllowedExtensions then Reply(BadExtension(ext), [])
    else if stat(cmdPath) == NotExist then Reply(NotFound(name), [Stat(cmdPath)])
    else
      var absPath := abs(cmdPath);
      if absPath.Err? then Reply(PathError(absPath.msg), [Stat(cmdPath), AbsCall(cmdPath)])
      else
        var absCmdDir := abs(CmdDir);
        if absCmdDir.Err? then Reply(RootPathError(absCmdDir.msg), [Stat(cmdPath), AbsCall(cmdPath), AbsCall(CmdDir)])
        else if !HasPrefix(absPath.value, absCmdDir.value) then Reply(EscapesRoot, [Stat(cmdPath), AbsCall(cmdPath), AbsCall(CmdDir)])
        else Reply(RunResult(run(cmdPath, args)), FullTrace(cmdPath, args))
  }

  /** `executeCommand(command)` with the filesystem, `Abs` and the process run as oracles. */
  function ExecuteCommand(
    command: string,
    stat: string -> StatResult,
    abs: string -> Result<string>,
    run: (string, seq<string>) -> RunOutcome
  ): (r: Reply)
    ensures Fields(command) == [] ==> r.effects == []
    ensures Fields(command) != [] ==> r.effects <= FullTrace(Join(CmdDir, Fields(command)[0]), Fields(command)[1..])
    ensures FromRun(r.result) <==> |r.effects| == 4
    ensures !FromRun(r.result) ==> forall i :: 0 <= i < |r.effects| ==> !r.effects[i].Run?
  {
    var parts := Fields(command);
    if |parts| == 0 then Reply(EmptyCommand, [])
    else
      var invalid := ValidateArgs(parts[1..]);
      if invalid.Some? then Reply(InvalidArgs(invalid.value), [])
      else ResolveAndRun(parts[0], Join(CmdDir, parts[0]), parts[1..], stat, abs, run)
  }

  // ---------------------------------------------------------------------------
  // The guards, one lemma each, in the order the gate applies them
  // ---------------------------------------------------------------------------

  /** An empty or all-white-space command is answered `EmptyCommand` without any oracle call, and only such a command is. */
  lemma EmptyCommandIff(
    command: string,
    stat: string -> StatResult,
    abs: string -> Result<string>,
    run: (string, seq<string>) -> RunOutcome
  )
    ensures ExecuteCommand(command, stat, abs, run).result == EmptyCommand <==> AllIn(command, AsciiSpace)
    ensures AllIn(command, AsciiSpace) ==> ExecuteCommand(command, stat, abs, run).effects == []
  {
    FieldsEmptyIff(command);
  }

  /**
   * An invalid argument list is reported as such before any path work, whatever
   * the oracles would say, in particular even when the program would resolve.
   */
  lemma ValidationBeforePaths(
    command: string,
    stat: string -> StatResult,
    abs: string -> Result<string>,
    run: (string, seq<string>) -> RunOutcome
  )
    requires Fields(command) != []
    requires !(|Fields(command)[1..]| <= MaxArgsCount && forall i :: 0 <= i < |Fields(command)[1..]| ==> ArgOk(Fields(command)[1..][i]))
    ensures ExecuteCommand(command, stat, abs, run) == Reply(InvalidArgs(ValidateArgs(Fields(command)[1..]).value), [])
  {
  }

  /** More than `MaxArgsCount` arguments: the count error, with no oracle call. */
  lemma TooManyArgsRejected(
    command: string,
    stat: string -> StatResult,
    abs: string -> Result<string>,
    run: (string, seq<string>) -> RunOutcome
  )
    requires |Fields(command)| > MaxArgsCount + 1
    ensures ExecuteCommand(command, stat, abs, run) == Reply(InvalidArgs(TooManyArgs), [])
  {
  }

  /**
   * An argument holding one of `< > | & ; $`: the gate refuses with a validation
   * error and no oracle call, whether or not the program exists.
   */
  lemma IllegalCharRejected(
    command: string,
    stat: string -> StatResult,
    abs: string -> Result<string>,
    run: (string, seq<string>) -> RunOutcome,
    i: nat
  )
    requires Fields(command) != []
    requires 1 <= i < |Fields(command)|
    requires ContainsAny(Fields(command)[i], IllegalChars)
    ensures ExecuteCommand(command, stat, abs, run).result.InvalidArgs?
    ensures ExecuteCommand(command, stat, abs, run).effects == []
  {
    var args := Fields(command)[1..];
    assert !ArgOk(args[i - 1]);
  }

  /**
   * The extension is checked before existence: the answer is a disallowed
   * extension exactly when the arguments are valid and the joined path's
   * extension is not allowed, and then no `Stat` call is made, so even an
   * existing file of that type is refused.
   */
  lemma ExtensionBeforeExistence(
    command: string,
    stat: string -> StatResult,
    abs: string -> Result<string>,
    run: (string, seq<string>) -> RunOutcome
  )
    ensures var r := ExecuteCommand(command, stat, abs, run);
      r.result.BadExtension? <==>
        (Fields(command) != [] && ValidateArgs(Fields(command)[1..]).None? &&
         Ext(Join(CmdDir, Fields(command)[0])) !in AllowedExtensions)
    ensures var r := ExecuteCommand(command, stat, abs, run);
      r.result.BadExtension? ==>
        r == Reply(BadExtension(Ext(Join(CmdDir, Fields(command)[0]))), [])
  {
  }

  /**
   * The run oracle is consulted exactly when every guard passes: a non-empty
   * command with valid arguments, an allowed extension, a `Stat` that does not
   * report not-exist, both `Abs` calls succeeding, and the absolute command
   * path starting with the absolute command root as a string. The run is then
   * on the joined (not the absolute) path with the arguments as tokenised.
   */
  lemma RunIffAllGuardsPass(
    command: string,
    stat: string -> StatResult,
    abs: string -> Result<string>,
    run: (string, seq<string>) -> RunOutcome
  )
    ensures FromRun(ExecuteCommand(command, stat, abs, run).result) <==>
      var parts := Fields(command);
      |parts| > 0 &&
      var cmdPath := Join(CmdDir, parts[0]);
      ValidateArgs(parts[1..]).None? &&
      Ext(cmdPath) in AllowedExtensions &&
      stat(cmdPath) != NotExist &&
      abs(cmdPath).Ok? && abs(CmdDir).Ok? &&
      HasPrefix(abs(cmdPath).value, abs(CmdDir).value)
    ensures FromRun(ExecuteCommand(command, stat, abs, run).result) ==>
      var parts := Fields(command);
      ExecuteCommand(command, stat, abs, run) ==
        Reply(RunResult(run(Join(CmdDir, parts[0]), parts[1..])), FullTrace(Join(CmdDir, parts[0]), parts[1..]))
  {
  }

  /**
   * When the gate stops before the run, the reason is one of the path checks
   * named by the first failing guard.
   */
  lemma PathGuardsInOrder(
    command: string,
    stat: string -> StatResult,
    abs: string -> Result<string>,
    run: (string, seq<string>) -> RunOutcome
  )
    requires Fields(command) != []
    requires ValidateArgs(Fields(command)[1..]).None?
    requires Ext(Join(CmdDir, Fields(command)[0])) in AllowedExtensions
    ensures var cmdPath := Join(CmdDir, Fields(command)[0]);
      var g := ExecuteCommand(command, stat, abs, run).result;
      && (stat(cmdPath) == NotExist <==> g == NotFound(Fields(command)[0]))
      && (stat(cmdPath) != NotExist && abs(cmdPath).Err? <==> g.PathError?)
      && (g.PathError? ==> g == PathError(abs(cmdPath).msg))
      && (stat(cmdPath) != NotExist && abs(cmdPath).Ok? && abs(CmdDir).Err? <==> g.RootPathError?)
      && (g.RootPathError? ==> g == RootPathError(abs(CmdDir).msg))
      && ((stat(cmdPath) != NotExist && abs(cmdPath).Ok? && abs(CmdDir).Ok? &&
           !HasPrefix(abs(cmdPath).value, abs(CmdDir).value)) <==> g == EscapesRoot)
  {
  }

  /** A `Stat` error other than not-exist (a permission error, say) does not stop the gate. */
  lemma OtherStatErrorPasses(
    command: string,
    stat: string -> StatResult,
    abs: string -> Result<string>,
    run: (string, seq<string>) -> RunOutcome
  )
    requires Fields(command) != []
    requires ValidateArgs(Fields(command)[1..]).None?
    requires Ext(Join(CmdDir, Fields(command)[0])) in AllowedExtensions
    requires stat(Join(CmdDir, Fields(command)[0])) == OtherStatError
    ensures !ExecuteCommand(command, stat, abs, run).result.NotFound?
    ensures |ExecuteCommand(command, stat, abs, run).effects| >= 2
  {
  }

  /**
   * A run that hit the deadline is reported as the timeout, naming the
   * configured duration, even when the run also reported an error; any output
   * is then discarded.
   */
  lemma TimeoutOutranksError(
    command: string,
    stat: string -> StatResult,
    abs: string -> Result<string>,
    run: (string, seq<string>) -> RunOutcome
  )
    requires FromRun(ExecuteCommand(command, stat, abs, run).result)
    requires run(Join(CmdDir, Fields(command)[0]), Fields(command)[1..]).deadlineExceeded
    ensures ExecuteCommand(command, stat, abs, run).result == Timeout(CmdTimeoutSeconds)
  {
    RunIffAllGuardsPass(command, stat, abs, run);
  }

  /** A run that finished in time without error returns its combined output unchanged. */
  lemma OutputVerbatim(
    command: string,
    stat: string -> StatResult,
    abs: string -> Result<string>,
    run: (string, seq<string>) -> RunOutcome
  )
    requires FromRun(ExecuteCommand(command, stat, abs, run).result)
    requires !run(Join(CmdDir, Fields(command)[0]), Fields(command)[1..]).deadlineExceeded
    requires run(Join(CmdDir, Fields(command)[0]), Fields(command)[1..]).err.None?
    ensures ExecuteCommand(command, stat, abs, run).result == Output(run(Join(CmdDir, Fields(command)[0]), Fields(command)[1..]).output)
  {
    RunIffAllGuardsPass(command, stat, abs, run);
  }
}
