# Command gate of a WebSocket command executor

The system reads a text command from a WebSocket connection, runs a whitelisted
executable from the command root `./cmd` with the command's arguments, and
sends back the combined output or an error text. Its core is the command gate,
`executeCommand` in `main.go`, with its argument check `validateArgs`. The gate
runs these guards in order, and each one can end the call early:

1. the command is split on white space (`strings.Fields`); no token means "empty command";
2. the arguments are validated: at most 10 arguments, then, argument by argument, at most 100 bytes and none of `< > | & ; $`;
3. the program name is joined onto `./cmd` (`filepath.Join`), and its extension (`filepath.Ext`) must be `.exe`, `.bat`, `.sh` or empty;
4. `os.Stat` must not report that the file does not exist;
5. `filepath.Abs` of the joined path and of `./cmd` must succeed;
6. the absolute path must start with the absolute root, compared as strings (`strings.HasPrefix`);
7. the process runs under a 30-second deadline. A passed deadline is reported first, then a run error, and otherwise the output is returned unchanged.

The model is in Dafny, one module per concern:

- `wrappers.dfy`, module `Wrappers`: `Option` and `Result` (a value or an error text).
- `strings.dfy`, module `Strings`: the parts of Go's `strings` package the gate uses. `Fields` is built on `Runs`, a splitter into maximal runs of non-separator characters.
- `filepath.dfy`, module `FilePath`: the Unix form of `filepath.Clean`, `Join`, `Ext`, `IsAbs` and `Abs`. `Clean` works element by element. `Abs` takes the working-directory lookup as a parameter.
- `policy.dfy`, module `Policy`: the constants of `main.go:23-36` and `main.go:49`. They are `CmdDir` (`cmdDir`), `CmdTimeoutSeconds` (`cmdTimeout`), `MaxArgLength`, `MaxArgsCount`, `AllowedExtensions` and `IllegalChars`, the forbidden characters.
- `validate.dfy`, module `Validate`: `validateArgs`. Its loop is a method, proved equal to the function `ValidateArgs`, and `ValidateArgs` is characterised by lemmas.
- `gate.dfy`, module `Gate`: `executeCommand` as the pure function `ExecuteCommand`. `os.Stat`, `filepath.Abs` and the process run are oracle parameters. The function returns the result together with the list of oracle calls it made, in order. So "no filesystem access" is a provable statement: the list is empty.
- `containment.dfy`, module `Containment`: the gate with Go's own `Abs` as its `abs` oracle, for any absolute working directory. It proves the traversal, sibling-directory and extension scenarios.

Each Dafny `char` stands for one byte of a Go string. So `|arg|` is Go's `len(arg)`, a byte count.

The containment test is the literal string-prefix test of `main.go:90`. `Containment.SiblingPrefixRuns` proves its known weakness. `../cmd-evil/x.sh` joins to `cmd-evil/x.sh`, which is in a sibling of the root. Its absolute path still starts with the absolute root as a string, so the gate runs it whenever it exists. `Containment.TraversalBesideRoot` shows the same weakness for a single file directly beside the root. A traversal `../f` reaches the run oracle exactly when `f` exists and its name starts with `cmd`. The oracle is then handed the bare name `f`, and what Go executes for such a name is not modelled (see "## Left out"). `Containment.WithinRootPassesPrefix` proves the other direction: a path truly inside the root, element by element, always passes the string test.

Where the design text and the code differ, the model follows the code:

- An execution error's text embeds only the error (`main.go:107`), not the output captured before it.
- Only a not-exist error from `os.Stat` stops the gate (`os.IsNotExist`, `main.go:77`). Any other stat error lets the command through to `Abs`.
- The two `Abs` failures give different texts (`main.go:84` and `main.go:88`). They are the results `PathError` and `RootPathError`.
- The run oracle is handed the joined relative path (`main.go:99`), not the absolute path that was checked.

## Model

| member | source | states |
|---|---|---|
| `Strings.Fields` | main.go:57 | every token is non-empty and holds no ASCII white space |
| `Strings.FieldsConcat` | main.go:57 | the tokens, concatenated, are the command with its white space removed: no non-space character is dropped, added or reordered |
| `Strings.FieldsEmptyIff` | main.go:57-58 | there are no tokens exactly when the command is empty or all white space |
| `Strings.FieldsUnsplit` | main.go:57 | tokens joined by single spaces split back into the same tokens |
| `Strings.RunsAppend` | main.go:57 | one separator between two strings splits their runs apart |
| `Validate.CheckArg` | main.go:45-51 | with `Strings.ContainsAny` and the `Policy` limits: one argument passes exactly when it is at most 100 bytes and holds none of the forbidden characters |
| `Validate.FirstViolation` | main.go:44-53 | there is no violation exactly when every argument passes; a reported violation is the verdict of some failing argument |
| `Validate.ValidateArgs` | main.go:39-54 | validation succeeds exactly when there are at most 10 arguments and each passes; the count error is returned exactly when there are more than 10 |
| `Validate.ValidateArgsScan` | main.go:39-54 | the early-return loop returns what `ValidateArgs` specifies |
| `Validate.FirstViolationAt` | main.go:44-52 | when every argument before index i passes and argument i fails, argument i's verdict is the one returned |
| `Validate.ValidateArgsReportsFirst` | main.go:40-52 | with at most 10 arguments, the first failing argument is named: as too long if it exceeds 100 bytes, else as holding an illegal character |
| `Validate.CountCheckedFirst` | main.go:40-42 | over 10 arguments: the count error, whatever the arguments hold |
| `Validate.LengthBeforeCharacters` | main.go:45-51 | an over-long argument is reported as too long even if it also holds a forbidden character |
| `FilePath.Clean` | main.go:68 | about `FilePath.Join`, which cleans its result: the cleaned path is never empty and is rooted exactly when the input is |
| `FilePath.CleanElementsRoundTrip` | main.go:68 | splitting a cleaned path gives back the elements the cleaning kept (a relative path with none cleans to ".") |
| `FilePath.ResolveAppend` | main.go:68 | cleaning two element lists in sequence is cleaning the first, then continuing with the second |
| `FilePath.JoinRooted` | main.go:82-86 | about `FilePath.Abs`, which joins a relative path onto the working directory: joining a path onto a rooted directory cleans its elements after the directory's |
| `FilePath.ExtScanSpec` | main.go:71 | the scan of `filepath.Ext` finds nothing exactly when the final element has no dot; otherwise it returns the rest of the path from the last dot of that element |
| `FilePath.ExtSpec` | main.go:71 | about `FilePath.Ext`: the extension is "" exactly when the final element has no dot; otherwise it is a suffix of the final element that starts with its only dot |
| `FilePath.ExtAfterSeparator` | main.go:71 | the extension of `d/n` is the extension of `n` |
| `FilePath.ExtAfterDot` | main.go:71 | the extension of `stem.suffix` is `.suffix` when the suffix has no dot and no separator |
| `Gate.RunResult` | main.go:102-110 | a passed deadline gives the timeout naming 30 seconds (`Policy.CmdTimeoutSeconds`), even with a run error; otherwise an error gives the execution error; otherwise the output, verbatim |
| `Gate.ResolveAndRun` | main.go:71-110 | the path guards never answer "empty" or "invalid arguments"; their oracle calls follow Stat, Abs(path), Abs(root), Run in that order, and the run is reached exactly when all four calls are made |
| `Gate.ExecuteCommand` | main.go:56-111 | no tokens: no oracle call; otherwise the calls made are a leading part of Stat, Abs(path), Abs(root), Run; a result from the run comes with all four calls; any other result comes with no Run call |
| `Gate.EmptyCommandIff` | main.go:57-60 | the answer is "empty command" exactly when the command is all white space, and then no oracle is called |
| `Gate.ValidationBeforePaths` | main.go:62-65 | invalid arguments give the validation error with no oracle call, whatever the oracles would answer |
| `Gate.TooManyArgsRejected` | main.go:63-65 | more than 10 arguments give the count error with no oracle call |
| `Gate.IllegalCharRejected` | main.go:63-65 | an argument holding a forbidden character gives a validation error with no oracle call, even if the program exists |
| `Gate.ExtensionBeforeExistence` | main.go:71-79 | the answer is a disallowed extension exactly when the arguments are valid and the extension of the joined path is not in `Policy.AllowedExtensions`; it comes with no Stat call, so even an existing file of that type is refused |
| `Gate.RunIffAllGuardsPass` | main.go:71-100 | the run oracle is called exactly when the arguments are valid, the extension is allowed, stat does not report not-exist, both Abs calls succeed and the absolute path has the absolute root as a string prefix; the run is then on the joined path with the tokenised arguments |
| `Gate.PathGuardsInOrder` | main.go:76-92 | after the extension check, the answer is not-found, path error, root path error or escapes-root exactly when that guard is the first to fail; the two path errors carry the error of the failing `Abs` call |
| `Gate.OtherStatErrorPasses` | main.go:77-79 | a stat error other than not-exist does not stop the gate at the existence check |
| `Gate.TimeoutOutranksError` | main.go:102-104 | a run past its deadline is answered with the timeout naming 30 seconds |
| `Gate.OutputVerbatim` | main.go:106-110 | a run that finished in time without error returns its output unchanged |
| `Containment.JoinCmdDir` | main.go:68 | about `FilePath.Join` and `Policy.CmdDir`: `filepath.Join("./cmd", name)` is the cleaning of `cmd` followed by the name's elements |
| `Containment.AbsCmdDir` | main.go:86 | about `FilePath.Abs`: under a rooted working directory, the absolute root is the directory's cleaned elements followed by `cmd` |
| `Containment.AbsRelative` | main.go:82 | under a rooted working directory, a relative path's absolute form cleans its elements after the directory's |
| `Containment.RenderPrefixLast` | main.go:90 | two absolute paths that differ only in their last element: one string-prefixes the other exactly when the last elements do |
| `Containment.WithinRootPassesPrefix` | main.go:90 | about `Strings.HasPrefix`: a path inside the root, element by element, always passes the string-prefix test |
| `Containment.PlainNamePath` | main.go:68-71 | a plain name joins onto the root as `cmd/<name>` and keeps its extension |
| `Containment.PlainNameInside` | main.go:82-90 | under any rooted working directory, the absolute form of `cmd/<name>` passes the string-prefix test against the absolute root |
| `Containment.PlainNameRuns` | main.go:56-111 | a plain name with an allowed extension and valid arguments runs as `cmd/<name>` with exactly those arguments, and its outcome is the answer |
| `Containment.EchoerReturnsOutput` | main.go:99-110 | `echoer.sh a b` returns what the script printed |
| `Containment.DisallowedExtensionRefused` | main.go:71-74 | a plain name with a disallowed extension is refused with that extension and no Stat call |
| `Containment.PythonScriptRefused` | main.go:71-74 | `evil.py` is refused as `.py` with no filesystem access |
| `Containment.OneToken` | main.go:57 | a command without white space is one token: the program name, with no arguments |
| `Containment.TraversalBesideRoot` | main.go:68-92 | `../f` for a file beside the root reaches the run oracle exactly when f exists and its name starts with `cmd`; a missing f is answered not-found after one Stat call; an existing f not starting with `cmd` is answered escapes-root; neither runs anything |
| `Containment.RootItselfRuns` | main.go:68-100 | the command `.` joins to `cmd`, passes every guard when `cmd` exists, and the run oracle is handed `cmd` with no arguments |
| `Containment.TraversalNeverRuns` | main.go:81-92 | `../evil.sh` is answered with not-found or escapes-root and is never run |
| `Containment.SiblingJoin` | main.go:68 | `../cmd-evil/x.sh` joins to `cmd-evil/x.sh` |
| `Containment.SiblingAbs` | main.go:82-90 | the absolute form of `cmd-evil/x.sh` starts with the absolute root as a string, but is not inside it element by element |
| `Containment.SiblingPrefixRuns` | main.go:90-100 | `../cmd-evil/x.sh` is run whenever it exists, although it lies outside the root |

## Left out

- `handleWebSocket`, `upgrader`, `main` and `http.ListenAndServe` (`main.go:17-21`, `main.go:113-151`): connection handling, with no decision logic. The gate is modelled per command.
- Process execution (`exec.CommandContext`, `CombinedOutput`, `context.WithTimeout`, `main.go:95-100`): spawning, wall-clock time and killing on timeout are an oracle. The oracle returns whether the deadline passed, an optional error and the output. The 30-second timeout appears only as the number the timeout reply names.
- Program lookup by `exec.CommandContext` (`main.go:99`): the run oracle receives `cmdPath` exactly as the gate passes it. Go looks up a `cmdPath` without a `/` through `$PATH` (`exec.LookPath`) instead of running the checked file. So when `../cmdtool` reaches the run (`Containment.TraversalBesideRoot`), or `.` does (`Containment.RootItselfRuns`), the program Go runs is not the file that was checked, and the model does not say which program it is.
- `os.Stat` and `os.Getwd`: they depend on the filesystem and the process. `os.Stat` is an oracle with three answers. Symbolic links are not modelled: `Stat` follows them, and `Abs` is lexical, so a link inside `./cmd` that points elsewhere is not examined.
- The Windows form of `path/filepath` (back-slash separators, volume names): the model uses the Unix form, with `/` as the only separator.
- `strings.Fields` and non-ASCII white space: only the six ASCII white-space characters separate tokens. `unicode.IsSpace` also accepts U+0085, U+00A0 and other Unicode spaces, written in UTF-8.
- The message texts (in Chinese) and their formatting: each text is a result constructor carrying the values the message embeds. The error detail of `Abs` and of the run is an opaque string.
- `log.Printf`: logging only.
