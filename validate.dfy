/**
 * `validateArgs`: the argument check that runs before any filesystem or
 * process work. Count first, then each argument in order: its length, then
 * its characters. The first violation is the one reported.
 */
module Validate {
  import opened Wrappers
  import opened Strings
  import opened Policy

  /** The three errors `validateArgs` can return; the last two carry the argument. */
  datatype ArgError = TooManyArgs | ArgTooLong(arg: string) | IllegalChar(arg: string)

  /** One argument passes both per-argument rules. */
  predicate ArgOk(a: string) {
    |a| <= MaxArgLength && !ContainsAny(a, IllegalChars)
  }

  /** The verdict on a single argument: the length rule is applied before the character rule. */
  function CheckArg(a: string): (r: Option<ArgError>)
    ensures r.None? <==> ArgOk(a)
  {
    if |a| > MaxArgLength then Some(ArgTooLong(a))
    else if ContainsAny(a, IllegalChars) then Some(IllegalChar(a))
    else None
  }

  /** The verdict of the first argument that fails a per-argument rule, if any. */
  function FirstViolation(args: seq<string>): (r: Option<ArgError>)
    ensures r.None? <==> forall i :: 0 <= i < |args| ==> ArgOk(args[i])
    ensures r.Some? ==> exists i :: 0 <= i < |args| && !ArgOk(args[i]) && r == CheckArg(args[i])
  {
    if args == [] then None
    else if !ArgOk(args[0]) then CheckArg(args[0])
    else FirstViolation(args[1..])
  }

  /** What `validateArgs(args)` returns: `None` stands for a nil error. */
  function ValidateArgs(args: seq<string>): (r: Option<ArgError>)
    ensures r.None? <==> |args| <= MaxArgsCount && forall i :: 0 <= i < |args| ==> ArgOk(args[i])
    ensures r == Some(TooManyArgs) <==> |args| > MaxArgsCount
  {
    if |args| > MaxArgsCount then Some(TooManyArgs) else FirstViolation(args)
  }

  /** The `for ... range` scan of `validateArgs`, with its early returns. */
  method ValidateArgsScan(args: seq<string>) returns (err: Option<ArgError>)
    ensures err == ValidateArgs(args)
  {
    if |args| > MaxArgsCount {
      return Some(TooManyArgs);
    }
    var i := 0;
    while i < |args|
      invariant 0 <= i <= |args|
      invariant FirstViolation(args[i..]) == FirstViolation(args)
    {
      var arg := args[i];
      if |arg| > MaxArgLength {
        return Some(ArgTooLong(arg));
      }
      if ContainsAny(arg, IllegalChars) {
        return Some(IllegalChar(arg));
      }
      assert args[i..][1..] == args[i + 1..];
      i := i + 1;
    }
    return None;
  }

  // ---------------------------------------------------------------------------
  // Fail-fast ordering
  // ---------------------------------------------------------------------------

  /**
   * The reported violation is the one of the first offending argument: if every
   * argument before index `i` passes and `args[i]` does not, `args[i]`'s verdict is returned.
   */
  lemma {:induction false} FirstViolationAt(args: seq<string>, i: nat)
    requires i < |args|
    requires forall j :: 0 <= j < i ==> ArgOk(args[j])
    requires !ArgOk(args[i])
    ensures FirstViolation(args) == CheckArg(args[i])
  {
    if i > 0 {
      assert ArgOk(args[0]);
      FirstViolationAt(args[1..], i - 1);
    }
  }

  /** At most `MaxArgsCount` arguments: validation names the first offending argument. */
  lemma ValidateArgsReportsFirst(args: seq<string>, i: nat)
    requires |args| <= MaxArgsCount
    requires i < |args|
    requires forall j :: 0 <= j < i ==> ArgOk(args[j])
    requires !ArgOk(args[i])
    ensures |args[i]| > MaxArgLength ==> ValidateArgs(args) == Some(ArgTooLong(args[i]))
    ensures |args[i]| <= MaxArgLength ==> ValidateArgs(args) == Some(IllegalChar(args[i]))
  {
    FirstViolationAt(args, i);
  }

  /** Too many arguments: the count error wins whatever the arguments hold. */
  lemma CountCheckedFirst(args: seq<string>, other: seq<string>)
    requires |args| > MaxArgsCount
    requires |other| == |args|
    ensures ValidateArgs(args) == ValidateArgs(other) == Some(TooManyArgs)
  {
  }

  /** Within one argument, an over-long argument is reported as such even if it also holds an illegal character. */
  lemma LengthBeforeCharacters(a: string)
    requires |a| > MaxArgLength
    ensures CheckArg(a) == Some(ArgTooLong(a))
  {
  }
}
