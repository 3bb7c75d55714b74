/**
 * The parts of Go's `strings` package the command gate relies on: `Fields`,
 * `ContainsAny` and `HasPrefix`. A Go string is a byte sequence; here each
 * `char` stands for one byte.
 *
 * `Fields` and the path-element split of `filepath.Clean` are both "maximal
 * runs of non-separator characters", so both are built on `Runs`.
 */
module Strings {

  /** The ASCII characters `unicode.IsSpace` accepts: `\t \n \v \f \r` and space. */
  const AsciiSpace: set<char> := {' ', '\t', '\n', '\U{000B}', '\U{000C}', '\r'}

  /** No character of `s` is in `cs`. */
  predicate NoneIn(s: string, cs: set<char>) {
    forall k :: 0 <= k < |s| ==> s[k] !in cs
  }

  /** Every character of `s` is in `cs`. */
  predicate AllIn(s: string, cs: set<char>) {
    forall k :: 0 <= k < |s| ==> s[k] in cs
  }

  /** A run: a non-empty string holding no separator. */
  predicate IsRun(t: string, seps: set<char>) {
    |t| > 0 && NoneIn(t, seps)
  }

  /** Go's `strings.ContainsAny(s, chars)`: some character of `s` is one of `chars`. */
  predicate ContainsAny(s: string, chars: set<char>) {
    exists k :: 0 <= k < |s| && s[k] in chars
  }

  /** Go's `strings.HasPrefix(s, prefix)`: a literal character-by-character prefix test. */
  predicate HasPrefix(s: string, prefix: string) {
    prefix <= s
  }

  /** The length of the leading run of `s`: the index of its first separator, or `|s|`. */
  function RunLen(s: string, seps: set<char>): (n: nat)
    ensures n <= |s|
    ensures forall k :: 0 <= k < n ==> s[k] !in seps
    ensures n == |s| || s[n] in seps
  {
    if s == [] || s[0] in seps then 0 else 1 + RunLen(s[1..], seps)
  }

  /** The maximal runs of non-separator characters of `s`, left to right. */
  function Runs(s: string, seps: set<char>): (ts: seq<string>)
    ensures forall i :: 0 <= i < |ts| ==> IsRun(ts[i], seps)
    decreases |s|
  {
    if s == [] then []
    else if s[0] in seps then Runs(s[1..], seps)
    else
      var n := RunLen(s, seps);
      [s[..n]] + Runs(s[n..], seps)
  }

  /** `s` with every separator removed. */
  function Squeeze(s: string, seps: set<char>): string {
    if s == [] then []
    else if s[0] in seps then Squeeze(s[1..], seps)
    else [s[0]] + Squeeze(s[1..], seps)
  }

  /** The concatenation of a sequence of strings. */
  function Concat(ts: seq<string>): string {
    if ts == [] then [] else ts[0] + Concat(ts[1..])
  }

  /** Go's `strings.Join(ts, string(sep))`. */
  function Unsplit(ts: seq<string>, sep: char): string {
    if ts == [] then []
    else if |ts| == 1 then ts[0]
    else ts[0] + [sep] + Unsplit(ts[1..], sep)
  }

  /**
   * Go's `strings.Fields`, restricted to ASCII white space: the command split
   * on runs of white space.
   */
  function Fields(s: string): (ts: seq<string>)
    ensures forall i :: 0 <= i < |ts| ==> IsRun(ts[i], AsciiSpace)
  {
    Runs(s, AsciiSpace)
  }

  // ---------------------------------------------------------------------------
  // Lemmas about RunLen, Squeeze and Runs
  // ---------------------------------------------------------------------------

  /** The three facts in RunLen's contract pin its value down. */
  lemma RunLenUnique(s: string, seps: set<char>, n: nat)
    requires n <= |s|
    requires forall k :: 0 <= k < n ==> s[k] !in seps
    requires n == |s| || s[n] in seps
    ensures RunLen(s, seps) == n
  {
  }

  lemma {:induction false} SqueezeAppend(a: string, b: string, seps: set<char>)
    ensures Squeeze(a + b, seps) == Squeeze(a, seps) + Squeeze(b, seps)
  {
    if a != [] {
      assert (a + b)[1..] == a[1..] + b;
      SqueezeAppend(a[1..], b, seps);
    } else {
      assert a + b == b;
    }
  }

  lemma {:induction false} SqueezeNoneIn(s: string, seps: set<char>)
    requires NoneIn(s, seps)
    ensures Squeeze(s, seps) == s
  {
    if s != [] {
      SqueezeNoneIn(s[1..], seps);
    }
  }

  /** Splitting into runs drops exactly the separators, and nothing else. */
  lemma {:induction false} RunsConcat(s: string, seps: set<char>)
    ensures Concat(Runs(s, seps)) == Squeeze(s, seps)
    decreases |s|
  {
    if s == [] {
    } else if s[0] in seps {
      RunsConcat(s[1..], seps);
    } else {
      var n := RunLen(s, seps);
      var ts := Runs(s, seps);
      assert ts == [s[..n]] + Runs(s[n..], seps);
      assert ts[1..] == Runs(s[n..], seps);
      RunsConcat(s[n..], seps);
      assert s == s[..n] + s[n..];
      SqueezeAppend(s[..n], s[n..], seps);
      SqueezeNoneIn(s[..n], seps);
    }
  }

  /** There are no runs exactly when every character is a separator. */
  lemma {:induction false} RunsEmptyIff(s: string, seps: set<char>)
    ensures Runs(s, seps) == [] <==> AllIn(s, seps)
    decreases |s|
  {
    if s != [] {
      if s[0] in seps {
        RunsEmptyIff(s[1..], seps);
        if AllIn(s[1..], seps) {
          assert forall k :: 1 <= k < |s| ==> s[k] == s[1..][k - 1];
        }
      } else {
        assert !AllIn(s, seps);
      }
    }
  }

  /** A single separator between two strings splits their runs apart. */
  lemma {:induction false} RunsAppend(a: string, sep: char, b: string, seps: set<char>)
    requires sep in seps
    ensures Runs(a + [sep] + b, seps) == Runs(a, seps) + Runs(b, seps)
    decreases |a|
  {
    var c := a + [sep] + b;
    if a == [] {
      assert c[1..] == b;
    } else if a[0] in seps {
      assert c[1..] == a[1..] + [sep] + b;
      RunsAppend(a[1..], sep, b, seps);
    } else {
      var n := RunLen(a, seps);
      RunLenUnique(c, seps, n);
      assert c[..n] == a[..n];
      assert c[n..] == a[n..] + [sep] + b;
      RunsAppend(a[n..], sep, b, seps);
      if n < |a| {
        assert Runs(a, seps) == [a[..n]] + Runs(a[n..], seps);
      } else {
        assert a[..n] == a;
        assert Runs(a[n..], seps) == [];
        assert Runs(a, seps) == [a] + [];
      }
    }
  }

  /** A run splits into itself. */
  lemma RunsOfRun(t: string, seps: set<char>)
    requires IsRun(t, seps)
    ensures Runs(t, seps) == [t]
  {
    RunLenUnique(t, seps, |t|);
    assert t[..|t|] == t;
    assert t[|t|..] == [];
  }

  /** Joining runs with a separator and splitting again gives the runs back. */
  lemma {:induction false} RunsUnsplit(ts: seq<string>, sep: char, seps: set<char>)
    requires sep in seps
    requires forall i :: 0 <= i < |ts| ==> IsRun(ts[i], seps)
    ensures Runs(Unsplit(ts, sep), seps) == ts
  {
    if |ts| == 1 {
      RunsOfRun(ts[0], seps);
    } else if |ts| > 1 {
      RunsOfRun(ts[0], seps);
      RunsUnsplit(ts[1..], sep, seps);
      RunsAppend(ts[0], sep, Unsplit(ts[1..], sep), seps);
      assert [ts[0]] + ts[1..] == ts;
    }
  }

  // ---------------------------------------------------------------------------
  // strings.Fields, as the command gate uses it
  // ---------------------------------------------------------------------------

  /** Tokenisation never merges or drops a non-space character. */
  lemma {:induction false} FieldsConcat(s: string)
    ensures Concat(Fields(s)) == Squeeze(s, AsciiSpace)
  {
    RunsConcat(s, AsciiSpace);
  }

  /** A command yields no tokens exactly when it is empty or all white space. */
  lemma FieldsEmptyIff(s: string)
    ensures Fields(s) == [] <==> AllIn(s, AsciiSpace)
  {
    RunsEmptyIff(s, AsciiSpace);
  }

  /** Tokens joined by single spaces split back into the same tokens. */
  lemma FieldsUnsplit(ts: seq<string>)
    requires forall i :: 0 <= i < |ts| ==> IsRun(ts[i], AsciiSpace)
    ensures Fields(Unsplit(ts, ' ')) == ts
  {
    RunsUnsplit(ts, ' ', AsciiSpace);
  }
}
