/**
 * The gate run with Go's own `filepath.Abs` as its `abs` oracle: the working
 * directory lookup is then the only unknown. Here the containment test of
 * main.go is examined: a plain name in the command root is run, a `..`
 * traversal to a file beside the root is refused, and, since the test compares
 * strings and not path elements, a sibling directory whose name starts with
 * "cmd" is let through.
 */
module Containment {
  import opened Wrappers
  import opened Strings
  import opened FilePath
  import opened Policy
  import opened Validate
  import opened Gate

  /** The `abs` oracle the gate really has: `filepath.Abs` over the working directory lookup `wd`. */
  function GoAbs(wd: Result<string>): string -> Result<string> {
    p => Abs(wd, p)
  }

  /** A single path element that names a file: not `.` and not `..`. */
  predicate PlainElement(n: string) {
    IsRun(n, {Separator}) && n != "." && n != ".."
  }

  /** True containment: the root's elements are a leading part of the path's. */
  predicate WithinRoot(path: string, root: string) {
    Elements(root) <= Elements(path)
  }

  // ---------------------------------------------------------------------------
  // Paths the gate computes
  // ---------------------------------------------------------------------------

  lemma CmdDirElements()
    ensures Elements(CmdDir) == [".", "cmd"]
  {
    assert CmdDir == Unsplit([".", "cmd"], Separator);
    RunsUnsplit([".", "cmd"], Separator, {Separator});
  }

  /** `filepath.Join(cmdDir, name)` for a name made of the elements `ns`. */
  lemma JoinCmdDir(ns: seq<string>)
    requires ns != [] && AllElements(ns)
    ensures Join(CmdDir, Unsplit(ns, Separator)) == Render(false, Resolve(false, ["cmd"], ns))
  {
    var name := Unsplit(ns, Separator);
    var p := CmdDir + [Separator] + name;
    assert Join(CmdDir, name) == Clean(p);
    assert p[0] == '.';
    assert !IsAbs(p);
    CmdDirElements();
    RunsUnsplit(ns, Separator, {Separator});
    ElementsAppend(CmdDir, name);
    assert Elements(p) == [".", "cmd"] + ns;
    ResolveAppend(false, [], [".", "cmd"], ns);
    assert Resolve(false, [], [".", "cmd"]) == ["cmd"];
    assert CleanElements(p) == Resolve(false, ["cmd"], ns);
  }

  /** `filepath.Abs(cmdDir)` under a rooted working directory `wd`. */
  lemma AbsCmdDir(wd: string)
    requires IsAbs(wd)
    ensures Abs(Ok(wd), CmdDir) == Ok(Render(true, CleanElements(wd) + ["cmd"]))
  {
    assert !IsAbs(CmdDir);
    CmdDirElements();
    JoinRooted(wd, CmdDir);
    assert Resolve(true, CleanElements(wd), [".", "cmd"]) == CleanElements(wd) + ["cmd"];
  }

  /** `filepath.Abs` of a relative path made of the elements `es`, under a rooted working directory. */
  lemma AbsRelative(wd: string, es: seq<string>)
    requires IsAbs(wd)
    requires es != [] && AllElements(es)
    ensures Abs(Ok(wd), Unsplit(es, Separator)) == Ok(Render(true, Resolve(true, CleanElements(wd), es)))
  {
    RunsUnsplit(es, Separator, {Separator});
    assert Unsplit(es, Separator)[0] == es[0][0];
    JoinRooted(wd, Unsplit(es, Separator));
  }

  /** Two rendered rooted paths that share all elements but the last: a string prefix needs a prefix of the last element. */
  lemma RenderPrefixLast(w: seq<string>, a: string, b: string)
    ensures HasPrefix(Render(true, w + [b]), Render(true, w + [a])) <==> HasPrefix(b, a)
  {
    var pre := [Separator] + (if w == [] then [] else Unsplit(w, Separator) + [Separator]);
    RenderSnoc(w, a, pre);
    RenderSnoc(w, b, pre);
    PrefixCancel(pre, a, b);
  }

  /** A rooted path with one element more is the path written so far followed by that element. */
  lemma RenderSnoc(w: seq<string>, e: string, pre: string)
    requires pre == [Separator] + (if w == [] then [] else Unsplit(w, Separator) + [Separator])
    ensures Render(true, w + [e]) == pre + e
  {
    UnsplitSnoc(w, e);
  }

  /** A common leading part does not change whether one string is a prefix of another. */
  lemma PrefixCancel(pre: string, a: string, b: string)
    ensures HasPrefix(pre + b, pre + a) <==> HasPrefix(b, a)
  {
    if HasPrefix(pre + b, pre + a) {
      assert forall k :: 0 <= k < |a| ==> a[k] == (pre + a)[|pre| + k] == (pre + b)[|pre| + k] == b[k];
    }
    if HasPrefix(b, a) {
      assert pre + a == (pre + b)[..|pre + a|];
    }
  }

  /**
   * True containment always passes the string test: a clean rooted path below
   * a clean rooted root starts with the root as a string.
   */
  lemma {:induction false} WithinRootPassesPrefix(w: seq<string>, es: seq<string>)
    ensures HasPrefix(Render(true, w + es), Render(true, w))
    decreases |es|
  {
    if es != [] {
      var init := es[..|es| - 1];
      var e := es[|es| - 1];
      assert w + es == (w + init) + [e];
      WithinRootPassesPrefix(w, init);
      UnsplitSnoc(w + init, e);
      var shorter, longer := Render(true, w + init), Render(true, w + es);
      if w + init == [] {
        assert w == [];
        assert longer == [Separator] + e;
      } else {
        assert longer == shorter + [Separator] + e;
      }
      assert HasPrefix(longer, shorter);
      assert HasPrefix(shorter, Render(true, w));
    } else {
      assert w + es == w;
    }
  }

  // ---------------------------------------------------------------------------
  // Scenarios
  // ---------------------------------------------------------------------------

  /** A name and arguments joined by spaces tokenise back into that name and those arguments. */
  lemma PlainNameTokens(n: string, args: seq<string>)
    requires IsRun(n, AsciiSpace)
    requires forall i :: 0 <= i < |args| ==> IsRun(args[i], AsciiSpace)
    ensures Fields(Unsplit([n] + args, ' ')) == [n] + args
  {
    FieldsUnsplit([n] + args);
  }

  /** A plain name joins onto the command root as `cmd/<name>`, and keeps its extension. */
  lemma PlainNamePath(n: string)
    requires PlainElement(n)
    ensures Join(CmdDir, n) == "cmd/" + n
    ensures Ext("cmd/" + n) == Ext(n)
  {
    JoinCmdDir([n]);
    ExtAfterSeparator("cmd", n);
  }

  /** Under any rooted working directory, `cmd/<name>` resolves inside the absolute command root. */
  lemma PlainNameInside(wd: string, n: string)
    requires IsAbs(wd)
    requires PlainElement(n)
    ensures Abs(Ok(wd), "cmd/" + n).Ok? && Abs(Ok(wd), CmdDir).Ok?
    ensures HasPrefix(Abs(Ok(wd), "cmd/" + n).value, Abs(Ok(wd), CmdDir).value)
  {
    assert "cmd/" + n == Unsplit(["cmd", n], Separator);
    AbsRelative(wd, ["cmd", n]);
    AbsCmdDir(wd);
    var w := CleanElements(wd);
    assert ["cmd", n][1..] == [n];
    assert Resolve(true, w, ["cmd", n]) == Resolve(true, w + ["cmd"], [n]) == (w + ["cmd"]) + [n];
    WithinRootPassesPrefix(w + ["cmd"], [n]);
  }

  /**
   * A plain name in the command root with an allowed extension and valid
   * arguments is run, as `cmd/<name>` with exactly those arguments, and its
   * outcome is reported; the containment test passes for every rooted working
   * directory.
   */
  lemma PlainNameRuns(
    wd: string,
    n: string,
    args: seq<string>,
    stat: string -> StatResult,
    run: (string, seq<string>) -> RunOutcome
  )
    requires IsAbs(wd)
    requires PlainElement(n) && NoneIn(n, AsciiSpace)
    requires Ext(n) in AllowedExtensions
    requires forall i :: 0 <= i < |args| ==> IsRun(args[i], AsciiSpace)
    requires ValidateArgs(args).None?
    requires stat("cmd/" + n) != NotExist
    ensures ExecuteCommand(Unsplit([n] + args, ' '), stat, GoAbs(Ok(wd)), run) ==
      Reply(RunResult(run("cmd/" + n, args)), FullTrace("cmd/" + n, args))
  {
    var command := Unsplit([n] + args, ' ');
    PlainNameTokens(n, args);
    assert Fields(command)[0] == n && Fields(command)[1..] == args;
    PlainNamePath(n);
    PlainNameInside(wd, n);
    RunIffAllGuardsPass(command, stat, GoAbs(Ok(wd)), run);
  }

  /** The round trip of a script that echoes its arguments: `echoer.sh a b` returns what the script printed. */
  lemma EchoerReturnsOutput(
    wd: string,
    stat: string -> StatResult,
    run: (string, seq<string>) -> RunOutcome
  )
    requires IsAbs(wd)
    requires stat("cmd/echoer.sh") != NotExist
    requires run("cmd/echoer.sh", ["a", "b"]) == RunOutcome(false, None, "a b\n")
    ensures ExecuteCommand("echoer.sh a b", stat, GoAbs(Ok(wd)), run).result == Output("a b\n")
  {
    EchoerCommand();
    PlainNameRuns(wd, "echoer.sh", ["a", "b"], stat, run);
  }

  /** The command `echoer.sh a b` meets the premises of `PlainNameRuns`. */
  lemma EchoerCommand()
    ensures "echoer.sh a b" == Unsplit(["echoer.sh"] + ["a", "b"], ' ')
    ensures PlainElement("echoer.sh") && NoneIn("echoer.sh", AsciiSpace)
    ensures Ext("echoer.sh") in AllowedExtensions
    ensures "cmd/" + "echoer.sh" == "cmd/echoer.sh"
  {
    ShellScriptExt("echoer");
    assert "echoer" + ".sh" == "echoer.sh";
    var ts := ["echoer.sh"] + ["a", "b"];
    assert ts[1..] == ["a", "b"] && ["a", "b"][1..] == ["b"];
    assert Unsplit(["a", "b"], ' ') == "a b";
    assert Unsplit(ts, ' ') == "echoer.sh" + " " + "a b";
    assert NoneIn("echoer.sh", {Separator});
  }

  /**
   * A plain name in the command root whose extension is not allowed (a `.py`
   * script, say) is refused with that extension and no `Stat` call, whether or
   * not the file exists.
   */
  lemma DisallowedExtensionRefused(
    n: string,
    args: seq<string>,
    stat: string -> StatResult,
    abs: string -> Result<string>,
    run: (string, seq<string>) -> RunOutcome
  )
    requires PlainElement(n) && NoneIn(n, AsciiSpace)
    requires Ext(n) !in AllowedExtensions
    requires forall i :: 0 <= i < |args| ==> IsRun(args[i], AsciiSpace)
    requires ValidateArgs(args).None?
    ensures ExecuteCommand(Unsplit([n] + args, ' '), stat, abs, run) == Reply(BadExtension(Ext(n)), [])
  {
    var command := Unsplit([n] + args, ' ');
    PlainNameTokens(n, args);
    assert Fields(command)[0] == n && Fields(command)[1..] == args;
    PlainNamePath(n);
  }

  /** `evil.py` in the command root: refused as a `.py` file, with no filesystem access. */
  lemma PythonScriptRefused(
    stat: string -> StatResult,
    abs: string -> Result<string>,
    run: (string, seq<string>) -> RunOutcome
  )
    ensures ExecuteCommand("evil.py", stat, abs, run) == Reply(BadExtension(".py"), [])
  {
    assert "evil.py" == Unsplit(["evil.py"] + [], ' ');
    assert "evil.py" == "evil" + "." + "py";
    assert NoneIn("py", {Separator, '.'});
    ExtAfterDot("evil", "py");
    assert Ext("evil.py") == ".py";
    assert ".py"[1] == 'p';
    assert ".py" != ".exe" && ".py" != ".bat" && ".py" != ".sh" && ".py" != "";
    DisallowedExtensionRefused("evil.py", [], stat, abs, run);
  }

  /** A command made of one token names that token as the program, with no arguments. */
  lemma OneToken(command: string)
    requires IsRun(command, AsciiSpace)
    ensures Fields(command) == [command]
  {
    assert command == Unsplit([command], ' ');
    FieldsUnsplit([command]);
  }

  /**
   * Traversal to a file `f` beside the command root: `../f` joins to `f`. The
   * gate reaches the run only if `f` exists and its name starts with "cmd" (the
   * string test then mistakes it for a path inside `cmd`). A missing `f` is
   * answered not-found after the one `Stat` call; an existing `f` whose name
   * does not start with "cmd" is answered escapes-root; neither runs anything.
   * This holds for every rooted working directory. The run oracle is then
   * handed `f`, a name without a separator, exactly as the gate passes it.
   */
  lemma TraversalBesideRoot(
    wd: string,
    f: string,
    stat: string -> StatResult,
    run: (string, seq<string>) -> RunOutcome
  )
    requires IsAbs(wd)
    requires PlainElement(f) && NoneIn(f, AsciiSpace)
    requires Ext(f) in AllowedExtensions
    ensures var r := ExecuteCommand("../" + f, stat, GoAbs(Ok(wd)), run);
      && (FromRun(r.result) <==> stat(f) != NotExist && HasPrefix(f, "cmd"))
      && (stat(f) == NotExist ==> r == Reply(NotFound("../" + f), [Stat(f)]))
      && (stat(f) != NotExist && !HasPrefix(f, "cmd") ==> r.result == EscapesRoot)
      && (!HasPrefix(f, "cmd") ==> forall i :: 0 <= i < |r.effects| ==> !r.effects[i].Run?)
  {
    var command := "../" + f;
    assert NoneIn(command, AsciiSpace) by {
      forall k | 0 <= k < |command| ensures command[k] !in AsciiSpace {
        if k >= 3 { assert command[k] == f[k - 3]; }
      }
    }
    OneToken(command);
    assert command == Unsplit(["..", f], Separator);
    JoinCmdDir(["..", f]);
    assert ["..", f][1..] == [f];
    assert Resolve(false, ["cmd"], ["..", f]) == Resolve(false, [], [f]) == [f];
    assert Join(CmdDir, command) == f;
    assert f == Unsplit([f], Separator);
    AbsRelative(wd, [f]);
    AbsCmdDir(wd);
    var w := CleanElements(wd);
    assert Resolve(true, w, [f]) == w + [f];
    RenderPrefixLast(w, "cmd", f);
    ValidateArgsEmpty();
    RunIffAllGuardsPass(command, stat, GoAbs(Ok(wd)), run);
    PathGuardsInOrder(command, stat, GoAbs(Ok(wd)), run);
  }

  /**
   * The command `.` names the command root itself: it joins to `cmd`, has no
   * extension, and passes the string test, since its absolute form is the
   * absolute root. Whenever `cmd` exists the run oracle is handed `cmd`, a
   * name without a separator.
   */
  lemma RootItselfRuns(
    wd: string,
    stat: string -> StatResult,
    run: (string, seq<string>) -> RunOutcome
  )
    requires IsAbs(wd)
    requires stat("cmd") != NotExist
    ensures ExecuteCommand(".", stat, GoAbs(Ok(wd)), run) == Reply(RunResult(run("cmd", [])), FullTrace("cmd", []))
  {
    OneToken(".");
    assert "." == Unsplit(["."], Separator);
    JoinCmdDir(["."]);
    assert Resolve(false, ["cmd"], ["."]) == ["cmd"];
    assert Join(CmdDir, ".") == "cmd";
    assert "cmd"[0] == 'c' && "cmd"[1] == 'm' && "cmd"[2] == 'd';
    assert ExtScan("cmd", 1) == ExtScan("cmd", 0) == "";
    assert Ext("cmd") == ExtScan("cmd", 2) == "";
    assert "cmd" == Unsplit(["cmd"], Separator);
    AbsRelative(wd, ["cmd"]);
    AbsCmdDir(wd);
    var w := CleanElements(wd);
    assert Resolve(true, w, ["cmd"]) == w + ["cmd"];
    ValidateArgsEmpty();
    RunIffAllGuardsPass(".", stat, GoAbs(Ok(wd)), run);
  }

  /**
   * Traversal out of the root: `../evil.sh` joins to `evil.sh` beside the
   * command root; the gate answers not-found or escapes-root and never runs it.
   */
  lemma TraversalNeverRuns(
    wd: string,
    stat: string -> StatResult,
    run: (string, seq<string>) -> RunOutcome
  )
    requires IsAbs(wd)
    ensures var r := ExecuteCommand("../evil.sh", stat, GoAbs(Ok(wd)), run);
      (r.result == NotFound("../evil.sh") || r.result == EscapesRoot) &&
      forall i :: 0 <= i < |r.effects| ==> !r.effects[i].Run?
  {
    ShellScriptExt("evil");
    assert "evil" + ".sh" == "evil.sh";
    assert "../" + "evil.sh" == "../evil.sh";
    assert "evil.sh"[0] != "cmd"[0];
    TraversalBesideRoot(wd, "evil.sh", stat, run);
  }

  /** `filepath.Ext` of a name ending in `.sh`. */
  lemma ShellScriptExt(stem: string)
    ensures Ext(stem + ".sh") == ".sh" && ".sh" in AllowedExtensions
  {
    assert stem + ".sh" == stem + "." + "sh";
    assert NoneIn("sh", {Separator, '.'});
    ExtAfterDot(stem, "sh");
  }

  /** A command with no arguments passes argument validation. */
  lemma ValidateArgsEmpty()
    ensures ValidateArgs([]) == None
  {
  }

  /** `../cmd-evil/x.sh` is a single token: the program name, with no arguments. */
  lemma SiblingTokens()
    ensures Fields("../cmd-evil/x.sh") == ["../cmd-evil/x.sh"]
  {
    OneToken("../cmd-evil/x.sh");
  }

  /** `../cmd-evil/x.sh` joins to `cmd-evil/x.sh`, in a sibling of the command root. */
  lemma SiblingJoin()
    ensures Join(CmdDir, "../cmd-evil/x.sh") == "cmd-evil/x.sh"
  {
    assert "../cmd-evil/x.sh" == Unsplit(["..", "cmd-evil", "x.sh"], Separator);
    JoinCmdDir(["..", "cmd-evil", "x.sh"]);
    assert Resolve(false, ["cmd"], ["..", "cmd-evil", "x.sh"]) == ["cmd-evil", "x.sh"];
  }

  /** `cmd-evil/x.sh` has the allowed extension `.sh`. */
  lemma SiblingExt()
    ensures Ext("cmd-evil/x.sh") == ".sh"
  {
    assert "cmd-evil/x.sh" == "cmd-evil" + [Separator] + ("x" + ".sh");
    ExtAfterSeparator("cmd-evil", "x" + ".sh");
    ShellScriptExt("x");
  }

  /**
   * Under a rooted working directory, the absolute form of `cmd-evil/x.sh`
   * starts with that of the root as a string, but not element by element.
   */
  lemma SiblingAbs(wd: string)
    requires IsAbs(wd)
    ensures Abs(Ok(wd), "cmd-evil/x.sh").Ok? && Abs(Ok(wd), CmdDir).Ok?
    ensures HasPrefix(Abs(Ok(wd), "cmd-evil/x.sh").value, Abs(Ok(wd), CmdDir).value)
    ensures !WithinRoot(Abs(Ok(wd), "cmd-evil/x.sh").value, Abs(Ok(wd), CmdDir).value)
  {
    assert "cmd-evil/x.sh" == Unsplit(["cmd-evil", "x.sh"], Separator);
    AbsRelative(wd, ["cmd-evil", "x.sh"]);
    AbsCmdDir(wd);
    var w := CleanElements(wd);
    var pathEs := (w + ["cmd-evil"]) + ["x.sh"];
    assert ["cmd-evil", "x.sh"][1..] == ["x.sh"];
    assert Resolve(true, w, ["cmd-evil", "x.sh"]) == Resolve(true, w + ["cmd-evil"], ["x.sh"]) == pathEs;
    WithinRootPassesPrefix(w + ["cmd-evil"], ["x.sh"]);
    RenderPrefixLast(w, "cmd", "cmd-evil");
    assert "cmd-evil"[..3] == "cmd";
    var absPath := Render(true, pathEs);
    var absRoot := Render(true, w + ["cmd"]);
    RenderedElements(pathEs);
    RenderedElements(w + ["cmd"]);
    assert Elements(absRoot)[|w|] == "cmd" != "cmd-evil" == Elements(absPath)[|w|];
  }

  /** A rooted path written from its elements splits back into them. */
  lemma RenderedElements(es: seq<string>)
    requires AllElements(es)
    ensures Elements(Render(true, es)) == es
  {
    RunsUnsplit(es, Separator, {Separator});
    assert Render(true, es)[1..] == Unsplit(es, Separator);
  }

  /**
   * The string-prefix weakness: `../cmd-evil/x.sh` joins to `cmd-evil/x.sh`, a
   * file in a sibling of the command root, yet its absolute path starts with the
   * absolute root as a string, so the gate runs it whenever it exists. True
   * containment would have refused it.
   */
  lemma SiblingPrefixRuns(
    wd: string,
    stat: string -> StatResult,
    run: (string, seq<string>) -> RunOutcome
  )
    requires IsAbs(wd)
    requires stat("cmd-evil/x.sh") != NotExist
    ensures ExecuteCommand("../cmd-evil/x.sh", stat, GoAbs(Ok(wd)), run) ==
      Reply(RunResult(run("cmd-evil/x.sh", [])), FullTrace("cmd-evil/x.sh", []))
    ensures !WithinRoot(Abs(Ok(wd), "cmd-evil/x.sh").value, Abs(Ok(wd), CmdDir).value)
  {
    SiblingTokens();
    SiblingJoin();
    SiblingExt();
    ShellScriptExt("x");
    SiblingAbs(wd);
    ValidateArgsEmpty();
    RunIffAllGuardsPass("../cmd-evil/x.sh", stat, GoAbs(Ok(wd)), run);
  }
}
