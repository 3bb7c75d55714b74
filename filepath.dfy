/**
 * The parts of Go's `path/filepath` package the command gate relies on, in
 * their Unix form (separator `/`): `Clean`, `Join`, `Ext`, `IsAbs` and `Abs`.
 *
 * `Clean` is modelled element-wise: the path is split into its non-empty
 * elements (so repeated slashes collapse), `.` elements are dropped, and a `..`
 * removes the element before it when there is one that is not itself `..`. At
 * the start of a rooted path a `..` is dropped; at the start of a relative path
 * it is kept.
 */
module FilePath {
  import opened Wrappers
  import opened Strings

  const Separator: char := '/'

  /** Every entry is a non-empty string without a separator. */
  predicate AllElements(es: seq<string>) {
    forall i :: 0 <= i < |es| ==> IsRun(es[i], {Separator})
  }

  /** Unix `filepath.IsAbs`: the path starts with the separator. */
  predicate IsAbs(p: string) {
    |p| > 0 && p[0] == Separator
  }

  /** The non-empty elements of `p`, left to right. */
  function Elements(p: string): (es: seq<string>)
    ensures AllElements(es)
  {
    Runs(p, {Separator})
  }

  /** A path written from its elements: rooted with a leading separator, or relative. */
  function Render(rooted: bool, es: seq<string>): string {
    if rooted then [Separator] + Unsplit(es, Separator)
    else if es == [] then "."
    else Unsplit(es, Separator)
  }

  /** One element of `Clean`'s scan applied to the elements kept so far. */
  function Step(rooted: bool, kept: seq<string>, e: string): seq<string> {
    if e == "." then kept
    else if e == ".." then
      if |kept| > 0 && kept[|kept| - 1] != ".." then kept[..|kept| - 1]
      else if rooted then kept
      else kept + [".."]
    else kept + [e]
  }

  /** `Clean`'s scan over the elements `es`, starting from those kept so far. */
  function Resolve(rooted: bool, kept: seq<string>, es: seq<string>): (r: seq<string>)
    ensures AllElements(kept) && AllElements(es) ==> AllElements(r)
    decreases |es|
  {
    if es == [] then kept else Resolve(rooted, Step(rooted, kept, es[0]), es[1..])
  }

  /** The elements `Clean(p)` keeps. */
  function CleanElements(p: string): seq<string> {
    Resolve(IsAbs(p), [], Elements(p))
  }

  /** Go's `filepath.Clean` for Unix paths. */
  function Clean(p: string): (c: string)
    ensures |c| > 0
    ensures IsAbs(c) <==> IsAbs(p)
  {
    var es := CleanElements(p);
    assert es != [] ==> Unsplit(es, Separator)[0] == es[0][0] != Separator;
    Render(IsAbs(p), es)
  }

  /**
   * Go's `filepath.Join(dir, name)` for two elements: the non-empty ones joined
   * with the separator, then cleaned; two empty elements give "".
   */
  function Join(dir: string, name: string): string {
    if dir != "" then Clean(dir + [Separator] + name)
    else if name != "" then Clean(name)
    else ""
  }

  /**
   * Unix `filepath.Abs(p)`: a rooted path is cleaned; a relative one is joined
   * onto the working directory, whose lookup (`os.Getwd`) is passed in as `wd`.
   */
  function Abs(wd: Result<string>, p: string): Result<string> {
    if IsAbs(p) then Ok(Clean(p))
    else if wd.Err? then Err(wd.msg)
    else Ok(Join(wd.value, p))
  }

  /** Where the final element of `p[..i]` starts: just after its last separator, or 0. */
  function ElementStart(p: string, i: nat): (j: nat)
    requires i <= |p|
    ensures j <= i
    ensures forall k :: j <= k < i ==> p[k] != Separator
    ensures j == 0 || p[j - 1] == Separator
  {
    if i == 0 || p[i - 1] == Separator then i else ElementStart(p, i - 1)
  }

  /**
   * The loop of Go's `filepath.Ext`, from index `i` down: the first dot met
   * before a separator starts the result, which runs to the end of the path.
   */
  function ExtScan(p: string, i: nat): string
    requires i <= |p|
  {
    if i == 0 || p[i - 1] == Separator then ""
    else if p[i - 1] == '.' then p[i - 1..]
    else ExtScan(p, i - 1)
  }

  /** Go's `filepath.Ext`. */
  function Ext(p: string): string {
    ExtScan(p, |p|)
  }

  // ---------------------------------------------------------------------------
  // Lemmas
  // ---------------------------------------------------------------------------

  /** Cleaning then splitting gives back the kept elements (a relative path with none becomes "."). */
  lemma CleanElementsRoundTrip(p: string)
    ensures Elements(Clean(p)) == if !IsAbs(p) && CleanElements(p) == [] then ["."] else CleanElements(p)
  {
    var es := CleanElements(p);
    if IsAbs(p) {
      RunsUnsplit(es, Separator, {Separator});
      assert ([Separator] + Unsplit(es, Separator))[1..] == Unsplit(es, Separator);
    } else if es == [] {
      RunsOfRun(".", {Separator});
    } else {
      RunsUnsplit(es, Separator, {Separator});
    }
  }

  /** `Clean`'s scan over two lists of elements is the scan over the second from where the first ended. */
  lemma {:induction false} ResolveAppend(rooted: bool, kept: seq<string>, a: seq<string>, b: seq<string>)
    ensures Resolve(rooted, kept, a + b) == Resolve(rooted, Resolve(rooted, kept, a), b)
    decreases |a|
  {
    if a == [] {
      assert a + b == b;
    } else {
      assert (a + b)[1..] == a[1..] + b;
      ResolveAppend(rooted, Step(rooted, kept, a[0]), a[1..], b);
    }
  }

  /** A separator between two paths concatenates their element lists. */
  lemma ElementsAppend(a: string, b: string)
    ensures Elements(a + [Separator] + b) == Elements(a) + Elements(b)
  {
    RunsAppend(a, Separator, b, {Separator});
  }

  /** Joining a relative path onto a rooted directory resolves its elements after the directory's. */
  lemma JoinRooted(dir: string, q: string)
    requires IsAbs(dir)
    ensures Join(dir, q) == Render(true, Resolve(true, CleanElements(dir), Elements(q)))
  {
    var p := dir + [Separator] + q;
    assert p[..1] == dir[..1];
    ElementsAppend(dir, q);
    ResolveAppend(true, [], Elements(dir), Elements(q));
  }

  /** Elements joined by the separator: appending one element adds a separator and the element. */
  lemma UnsplitSnoc(es: seq<string>, e: string)
    ensures Unsplit(es + [e], Separator) == if es == [] then e else Unsplit(es, Separator) + [Separator] + e
    decreases |es|
  {
    if |es| > 1 {
      assert (es + [e])[1..] == es[1..] + [e];
      UnsplitSnoc(es[1..], e);
    } else if |es| == 1 {
      assert (es + [e])[1..] == [e];
    }
  }

  /**
   * What the scan finds: nothing exactly when the final element of `p[..i]` has
   * no dot; otherwise the rest of `p` from the last dot of that element.
   */
  lemma {:induction false} ExtScanSpec(p: string, i: nat)
    requires i <= |p|
    ensures var e, j := ExtScan(p, i), ElementStart(p, i);
      && (e == [] <==> forall k :: j <= k < i ==> p[k] != '.')
      && (e != [] ==> |p| - |e| >= j && |p| - |e| < i && e == p[|p| - |e|..] && e[0] == '.')
      && (e != [] ==> forall k :: |p| - |e| < k < i ==> p[k] != '.')
  {
    if i > 0 && p[i - 1] != Separator && p[i - 1] != '.' {
      ExtScanSpec(p, i - 1);
    }
  }

  /**
   * Go's `filepath.Ext`: "" exactly when the final element has no dot;
   * otherwise the suffix of the path, inside the final element, from its last dot.
   */
  lemma ExtSpec(p: string)
    ensures var e, j := Ext(p), ElementStart(p, |p|);
      && (e == [] <==> forall k :: j <= k < |p| ==> p[k] != '.')
      && (e != [] ==> |e| <= |p| - j && e == p[|p| - |e|..] && e[0] == '.')
      && (e != [] ==> forall k :: 1 <= k < |e| ==> e[k] != '.' && e[k] != Separator)
  {
    ExtScanSpec(p, |p|);
    var e := Ext(p);
    if e != [] {
      forall k | 1 <= k < |e| ensures e[k] != '.' && e[k] != Separator {
        assert e[k] == p[|p| - |e| + k];
      }
    }
  }

  /** Scanning `d/n` inside its final element `n` is scanning `n`. */
  lemma {:induction false} ExtScanShift(d: string, n: string, k: nat)
    requires k <= |n|
    ensures ExtScan(d + [Separator] + n, |d| + 1 + k) == ExtScan(n, k)
  {
    var p := d + [Separator] + n;
    if k > 0 {
      assert p[|d| + k] == n[k - 1];
      if n[k - 1] == '.' {
        assert p[|d| + k..] == n[k - 1..];
      } else if n[k - 1] != Separator {
        ExtScanShift(d, n, k - 1);
      }
    }
  }

  /** The extension of `d/n` is the extension of the element `n`. */
  lemma ExtAfterSeparator(d: string, n: string)
    ensures Ext(d + [Separator] + n) == Ext(n)
  {
    ExtScanShift(d, n, |n|);
  }

  /** Scanning back through a dot-free, separator-free suffix reaches the dot before it. */
  lemma {:induction false} ExtScanToDot(stem: string, suffix: string, k: nat)
    requires NoneIn(suffix, {Separator, '.'})
    requires k <= |suffix|
    ensures ExtScan(stem + "." + suffix, |stem| + 1 + k) == "." + suffix
  {
    var p := stem + "." + suffix;
    if k == 0 {
      assert p[|stem|] == '.';
      assert p[|stem|..] == "." + suffix;
    } else {
      assert p[|stem| + k] == suffix[k - 1];
      ExtScanToDot(stem, suffix, k - 1);
    }
  }

  /** The extension of `stem.suffix` for a suffix holding no dot and no separator. */
  lemma ExtAfterDot(stem: string, suffix: string)
    requires NoneIn(suffix, {Separator, '.'})
    ensures Ext(stem + "." + suffix) == "." + suffix
  {
    ExtScanToDot(stem, suffix, |suffix|);
  }
}
