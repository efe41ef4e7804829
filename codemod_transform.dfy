/**
 * The pure helpers of the codemod runner: the jscodeshift command line it
 * runs, and the scraping of jscodeshift's output for per-file transformation
 * errors. Running the subprocess is not modelled.
 */
module CodemodTransform {
  import opened Wrappers

  // ---------------------------------------------------------------------
  // The command line
  // ---------------------------------------------------------------------

  /**
   * The options the runner reads; an absent flag is false, an absent
   * jscodeshift string is None. `printFiles` is the source's `print` option,
   * renamed because `print` is a Dafny keyword.
   */
  datatype TransformOptions = TransformOptions(
    dry: bool, printFiles: bool, verbose: bool, jscodeshift: Option<string>)

  /** JavaScript truthiness of an optional string: present and not empty. */
  predicate Truthy(s: Option<string>) {
    s.Some? && s.value != ""
  }

  const IgnorePattern: string := "--ignore-pattern="

  /** The fixed start of every command: runner, engine, transform file, target, parser, ignore globs. */
  function BaseCommand(codemodPath: string, targetPath: string): (r: seq<string>)
    ensures |r| == 13 && r[..3] == ["npx", "jscodeshift", "-t"]
    ensures r[3] == codemodPath && r[4] == targetPath && r[5..7] == ["--parser", "tsx"]
    ensures forall i :: 7 <= i < 13 ==> |IgnorePattern| < |r[i]| && r[i][..|IgnorePattern|] == IgnorePattern
  {
    [ "npx", "jscodeshift", "-t", codemodPath, targetPath, "--parser", "tsx",
      "--ignore-pattern=**/node_modules/**",
      "--ignore-pattern=**/.*/**",
      "--ignore-pattern=**/dist/**",
      "--ignore-pattern=**/build/**",
      "--ignore-pattern=**/*.min.js",
      "--ignore-pattern=**/*.bundle.js" ]
  }

  /** The arguments of `flags` whose condition holds, in their order. */
  function Selected(flags: seq<(bool, string)>): seq<string>
    decreases |flags|
  {
    if flags == [] then []
    else Arg(flags[0]) + Selected(flags[1..])
  }

  /** The argument of one flag, when it is on. */
  function Arg(flag: (bool, string)): seq<string> {
    if flag.0 then [flag.1] else []
  }

  /**
   * Selection is a filter: no more arguments than flags, every argument kept
   * comes from a flag that is on, every flag that is on contributes its
   * argument, and nothing is kept when every flag is off.
   */
  lemma {:induction false} SelectedIsFilter(flags: seq<(bool, string)>)
    ensures var r := Selected(flags);
      && |r| <= |flags|
      && (forall k :: 0 <= k < |r| ==> exists i :: 0 <= i < |flags| && flags[i].0 && flags[i].1 == r[k])
      && (forall i :: 0 <= i < |flags| && flags[i].0 ==> flags[i].1 in r)
      && ((forall i :: 0 <= i < |flags| ==> !flags[i].0) ==> r == [])
    decreases |flags|
  {
    if flags != [] {
      var rest := Selected(flags[1..]);
      SelectedIsFilter(flags[1..]);
      var r := Selected(flags);
      var head := Arg(flags[0]);
      assert r == head + rest;
      assert forall i :: 1 <= i < |flags| ==> flags[i] == flags[1..][i - 1];
      forall k | 0 <= k < |r|
        ensures exists i :: 0 <= i < |flags| && flags[i].0 && flags[i].1 == r[k]
      {
        if k < |head| {
          assert flags[0].0 && flags[0].1 == r[k];
        } else {
          assert r[k] == rest[k - |head|];
          var i :| 0 <= i < |flags[1..]| && flags[1..][i].0 && flags[1..][i].1 == rest[k - |head|];
          assert flags[i + 1] == flags[1..][i];
        }
      }
      forall i | 0 <= i < |flags| && flags[i].0
        ensures flags[i].1 in r
      {
        if i > 0 {
          assert flags[1..][i - 1] == flags[i];
          assert flags[i].1 in rest;
        }
      }
    }
  }

  /** The optional arguments in the order the runner appends them, each with the option that switches it on. */
  function Flags(options: TransformOptions): (r: seq<(bool, string)>)
    ensures |r| == 4 && r[0].1 == "--dry" && r[1].1 == "--print" && r[2].1 == "--verbose"
    ensures r[0].0 == options.dry && r[1].0 == options.printFiles && r[2].0 == options.verbose
    ensures r[3].0 <==> Truthy(options.jscodeshift)
    ensures r[3].0 ==> r[3].1 == options.jscodeshift.value
    ensures forall i :: 0 <= i < 4 && r[i].0 ==> r[i].1 != ""
  {
    [ (options.dry, "--dry"),
      (options.printFiles, "--print"),
      (options.verbose, "--verbose"),
      (Truthy(options.jscodeshift), if options.jscodeshift.Some? then options.jscodeshift.value else "") ]
  }

  /** Number of truthy options among dry, print, verbose and jscodeshift. */
  function TruthyCount(options: TransformOptions): nat {
    (if options.dry then 1 else 0) + (if options.printFiles then 1 else 0)
    + (if options.verbose then 1 else 0) + (if Truthy(options.jscodeshift) then 1 else 0)
  }

  /** Appending the selection from four flags appends each argument whose flag is on, in order. */
  lemma SelectedFour(prefix: seq<string>, a: (bool, string), b: (bool, string), c: (bool, string), d: (bool, string))
    ensures prefix + Selected([a, b, c, d]) == prefix + Arg(a) + Arg(b) + Arg(c) + Arg(d)
  {
    assert [a, b, c, d][1..] == [b, c, d];
    assert [b, c, d][1..] == [c, d];
    assert [c, d][1..] == [d];
    assert [d][1..] == [];
    assert Selected([d]) == Arg(d);
    assert Selected([c, d]) == Arg(c) + Selected([d]);
    assert Selected([b, c, d]) == Arg(b) + Selected([c, d]);
  }

  /**
   * The jscodeshift command line: always the 13 fixed elements, then
   * `--dry`, `--print`, `--verbose` and the extra jscodeshift string, each
   * exactly when its option is truthy, in that order; nothing else.
   */
  method BuildCommand(codemodPath: string, targetPath: string, options: TransformOptions)
    returns (command: seq<string>)
    ensures command == BaseCommand(codemodPath, targetPath) + Selected(Flags(options))
  {
    command := BaseCommand(codemodPath, targetPath);
    ghost var c0 := command;
    if options.dry {
      command := command + ["--dry"];
    }
    ghost var c1 := command;
    assert c1 == c0 + Arg((options.dry, "--dry"));
    if options.printFiles {
      command := command + ["--print"];
    }
    ghost var c2 := command;
    assert c2 == c1 + Arg((options.printFiles, "--print"));
    if options.verbose {
      command := command + ["--verbose"];
    }
    ghost var c3 := command;
    assert c3 == c2 + Arg((options.verbose, "--verbose"));
    if options.jscodeshift.Some? && options.jscodeshift.value != "" {
      command := command + [options.jscodeshift.value];
    }
    ghost var f := Flags(options);
    assert command == c3 + Arg(f[3]);
    assert f == [f[0], f[1], f[2], f[3]];
    SelectedFour(c0, f[0], f[1], f[2], f[3]);
  }

  /**
   * The shape of the command line: the fixed part first, one more element
   * per truthy option, `--dry` right after the fixed part when dry is set,
   * the jscodeshift string last when it is truthy, and only the fixed part
   * when no option is set.
   */
  lemma CommandShape(codemodPath: string, targetPath: string, options: TransformOptions)
    ensures var command := BaseCommand(codemodPath, targetPath) + Selected(Flags(options));
      && |command| == 13 + TruthyCount(options)
      && command[..13] == BaseCommand(codemodPath, targetPath)
      && (options.dry ==> command[13] == "--dry")
      && (!options.dry && options.printFiles ==> command[13] == "--print")
      && (Truthy(options.jscodeshift) ==> command[|command| - 1] == options.jscodeshift.value)
      && (TruthyCount(options) == 0 ==> command == BaseCommand(codemodPath, targetPath))
  {
    var f := Flags(options);
    assert f == [f[0], f[1], f[2], f[3]];
    SelectedFour(BaseCommand(codemodPath, targetPath), f[0], f[1], f[2], f[3]);
  }

  // ---------------------------------------------------------------------
  // The two patterns: /ERR (.+) Transformation error/g and /SyntaxError: .+/g
  // ---------------------------------------------------------------------

  /** The characters a JavaScript `.` does not match (no `s` flag). */
  predicate IsLineTerminator(c: char) {
    c == '\n' || c == '\r' || c == '\U{2028}' || c == '\U{2029}'
  }

  /** The first line terminator at or after `i`, or the end of `s`. */
  function LineEnd(s: string, i: nat): (e: nat)
    requires i <= |s|
    ensures i <= e <= |s|
    ensures e < |s| ==> IsLineTerminator(s[e])
    decreases |s| - i
  {
    if i == |s| || IsLineTerminator(s[i]) then i else LineEnd(s, i + 1)
  }

  /** No line terminator lies between `i` and its line end. */
  lemma {:induction false} LineEndIsFirst(s: string, i: nat)
    requires i <= |s|
    ensures forall j :: i <= j < LineEnd(s, i) ==> !IsLineTerminator(s[j])
    decreases |s| - i
  {
    if i < |s| && !IsLineTerminator(s[i]) {
      LineEndIsFirst(s, i + 1);
    }
  }
  /** The line end is `e` when `e` ends the line and nothing before it from `i` does. */
  lemma {:induction false} LineEndAt(s: string, i: nat, e: nat)
    requires i <= e <= |s| && (e < |s| ==> IsLineTerminator(s[e]))
    requires forall j :: i <= j < e ==> !IsLineTerminator(s[j])
    ensures LineEnd(s, i) == e
    decreases e - i
  {
    if i < e {
      LineEndAt(s, i + 1, e);
    }
  }


  const ErrPrefix: string := "ERR "
  const ErrSuffix: string := " Transformation error"
  const SyntaxPrefix: string := "SyntaxError: "

  /** `t` occurs in `s` at position `e`. */
  predicate OccursAt(s: string, t: string, e: nat) {
    e + |t| <= |s| && s[e..e + |t|] == t
  }
  /** `t` does not occur at `e` when the first two characters there differ from its own. */
  lemma NotOccursAt(s: string, t: string, e: nat)
    requires 2 <= |t| && (e + |t| <= |s| ==> s[e] != t[0] || s[e + 1] != t[1])
    ensures !OccursAt(s, t, e)
  {
    if e + |t| <= |s| {
      assert s[e..e + |t|][0] == s[e] && s[e..e + |t|][1] == s[e + 1];
    }
  }


  /**
   * The largest `e` with `lo <= e` and an occurrence of ErrSuffix at `e` that
   * ends by `hi`. This is where a greedy `.+` stops backtracking.
   */
  function LastSuffix(s: string, lo: nat, hi: nat): (r: Option<nat>)
    requires hi <= |s|
    ensures r.Some? ==> lo <= r.value && r.value + |ErrSuffix| <= hi
    decreases hi
  {
    if hi < lo + |ErrSuffix| then None
    else if OccursAt(s, ErrSuffix, hi - |ErrSuffix|) then Some(hi - |ErrSuffix|)
    else LastSuffix(s, lo, hi - 1)
  }

  /**
   * The suffix found occurs there and no later occurrence ends by `hi`;
   * when none is found, no occurrence at or after `lo` ends by `hi`.
   */
  lemma {:induction false} LastSuffixIsLast(s: string, lo: nat, hi: nat)
    requires hi <= |s|
    ensures var r := LastSuffix(s, lo, hi);
      && (r.Some? ==> OccursAt(s, ErrSuffix, r.value))
      && (r.Some? ==> forall e :: r.value < e && e + |ErrSuffix| <= hi ==> !OccursAt(s, ErrSuffix, e))
      && (r.None? ==> forall e :: lo <= e && e + |ErrSuffix| <= hi ==> !OccursAt(s, ErrSuffix, e))
    decreases hi
  {
    if hi >= lo + |ErrSuffix| && !OccursAt(s, ErrSuffix, hi - |ErrSuffix|) {
      LastSuffixIsLast(s, lo, hi - 1);
    }
  }

  /**
   * A match of a pattern: where it starts and ends in the output, and the
   * text the code reads from it (capture group 1 of the error marker, the
   * whole match of the syntax error).
   */
  datatype Match = Match(start: nat, end: nat, capture: string)

  datatype Pattern = ErrorMarker | SyntaxErrorLine

  /**
   * `/ERR (.+) Transformation error/` anchored at `i`: "ERR ", then the
   * longest run of non-terminator characters (at least one) that is followed
   * by " Transformation error" on the same line.
   */
  function MarkerAt(s: string, i: nat): (r: Option<Match>)
    requires i <= |s|
    ensures r.Some? ==>
      r.value.start == i && i + |ErrPrefix| < r.value.end - |ErrSuffix| && r.value.end <= |s|
  {
    if OccursAt(s, ErrPrefix, i) then
      var lineEnd := LineEnd(s, i + |ErrPrefix|);
      match LastSuffix(s, i + |ErrPrefix| + 1, lineEnd)
      case Some(e) => Some(Match(i, e + |ErrSuffix|, s[i + |ErrPrefix|..e]))
      case None => None
    else None
  }

  /**
   * A marker match is "ERR ", a capture of at least one character on one
   * line, and " Transformation error" on that line; the capture is the
   * longest such. No match means no suffix follows the prefix on its line.
   */
  lemma MarkerAtSpec(s: string, i: nat)
    requires i <= |s|
    ensures var r := MarkerAt(s, i);
      && (r.Some? ==>
        && OccursAt(s, ErrPrefix, i)
        && OccursAt(s, ErrSuffix, r.value.end - |ErrSuffix|)
        && r.value.capture == s[i + |ErrPrefix|..r.value.end - |ErrSuffix|]
        && (forall j :: i + |ErrPrefix| <= j < r.value.end ==> !IsLineTerminator(s[j]))
        && (forall e :: r.value.end - |ErrSuffix| < e && e + |ErrSuffix| <= LineEnd(s, i + |ErrPrefix|)
              ==> !OccursAt(s, ErrSuffix, e)))
      && (r.None? && OccursAt(s, ErrPrefix, i) ==>
        forall e :: i + |ErrPrefix| < e && e + |ErrSuffix| <= LineEnd(s, i + |ErrPrefix|)
          ==> !OccursAt(s, ErrSuffix, e))
  {
    if OccursAt(s, ErrPrefix, i) {
      LineEndIsFirst(s, i + |ErrPrefix|);
      LastSuffixIsLast(s, i + |ErrPrefix| + 1, LineEnd(s, i + |ErrPrefix|));
    }
  }
  /** One line as jscodeshift reports a failed file: "ERR ", the filename, " Transformation error". */
  function MarkerLine(filename: string): string {
    ErrPrefix + filename + ErrSuffix + "\n"
  }

  /** Where such a line sits in the output, the marker pattern matches it and captures the filename. */
  lemma MarkerLineAt(s: string, p: nat, filename: string)
    requires p + |MarkerLine(filename)| <= |s| && s[p..p + |MarkerLine(filename)|] == MarkerLine(filename)
    requires filename != [] && forall j :: 0 <= j < |filename| ==> !IsLineTerminator(filename[j])
    ensures MarkerAt(s, p) == Some(Match(p, p + |ErrPrefix| + |filename| + |ErrSuffix|, filename))
  {
    var line := MarkerLine(filename);
    var q := p + |ErrPrefix|;
    var e := q + |filename|;
    MarkerLineParts(filename);
    SubSlice(s, p, line, 0, |ErrPrefix|);
    SubSlice(s, p, line, |ErrPrefix|, |ErrPrefix| + |filename|);
    SubSlice(s, p, line, |ErrPrefix| + |filename|, |ErrPrefix| + |filename| + |ErrSuffix|);
    assert OccursAt(s, ErrPrefix, p);
    assert OccursAt(s, ErrSuffix, e);
    assert s[q..e] == filename;
    MarkerLineEnd(s, p, filename);
    assert LastSuffix(s, q + 1, e + |ErrSuffix|) == Some(e);
  }

  /** The line of a marker line found at `p` ends at its newline. */
  lemma MarkerLineEnd(s: string, p: nat, filename: string)
    requires p + |MarkerLine(filename)| <= |s| && s[p..p + |MarkerLine(filename)|] == MarkerLine(filename)
    requires forall j :: 0 <= j < |filename| ==> !IsLineTerminator(filename[j])
    ensures LineEnd(s, p + |ErrPrefix|) == p + |ErrPrefix| + |filename| + |ErrSuffix|
  {
    var line := MarkerLine(filename);
    var q, e := p + |ErrPrefix|, p + |ErrPrefix| + |filename| + |ErrSuffix|;
    MarkerLineParts(filename);
    forall j | q <= j < e
      ensures !IsLineTerminator(s[j])
    {
      assert s[j] == s[p..p + |line|][j - p];
    }
    assert s[e] == s[p..p + |line|][e - p];
    LineEndAt(s, q, e);
  }

  /** The pieces of a marker line, and that none of the text between "ERR " and the newline ends a line. */
  lemma MarkerLineParts(filename: string)
    requires forall j :: 0 <= j < |filename| ==> !IsLineTerminator(filename[j])
    ensures var line, f := MarkerLine(filename), |filename|;
      && |line| == |ErrPrefix| + f + |ErrSuffix| + 1
      && line[0..|ErrPrefix|] == ErrPrefix && line[|ErrPrefix|..|ErrPrefix| + f] == filename
      && line[|ErrPrefix| + f..|ErrPrefix| + f + |ErrSuffix|] == ErrSuffix && line[f + 25] == '\n'
      && forall j :: 4 <= j < 4 + f + 21 ==> !IsLineTerminator(line[j])
  {
    var line, f := MarkerLine(filename), |filename|;
    assert line == ErrPrefix + filename + ErrSuffix + "\n";
    forall j | 4 <= j < 4 + f + 21
      ensures !IsLineTerminator(line[j])
    {
      if j < 4 + f {
        assert line[j] == filename[j - 4];
      } else {
        assert line[j] == ErrSuffix[j - 4 - f];
      }
    }
  }

  /** A slice of a piece found at `p` of `s` is the slice of `s` at the shifted bounds. */
  lemma SubSlice(s: string, p: nat, piece: string, a: nat, b: nat)
    requires p + |piece| <= |s| && s[p..p + |piece|] == piece && a <= b <= |piece|
    ensures s[p + a..p + b] == piece[a..b]
  {
    forall j | p + a <= j < p + b
      ensures s[j] == piece[j - p]
    {
      assert s[j] == s[p..p + |piece|][j - p];
    }
    assert forall j :: 0 <= j < b - a ==> s[p + a..p + b][j] == piece[a..b][j];
  }



  /**
   * `/SyntaxError: .+/` anchored at `i`: "SyntaxError: " followed by at
   * least one non-terminator character, extended greedily to the end of the line.
   */
  function SyntaxErrorAt(s: string, i: nat): (r: Option<Match>)
    requires i <= |s|
    ensures r.Some? ==> r.value.start == i && i + |SyntaxPrefix| < r.value.end <= |s|
  {
    if OccursAt(s, SyntaxPrefix, i) && i + |SyntaxPrefix| < |s| && !IsLineTerminator(s[i + |SyntaxPrefix|]) then
      var e := LineEnd(s, i + |SyntaxPrefix|);
      Some(Match(i, e, s[i..e]))
    else None
  }

  /**
   * A syntax-error match exists exactly when "SyntaxError: " is followed by
   * a non-terminator; it is the whole rest of that line, and the text is the
   * whole match.
   */
  lemma SyntaxErrorAtSpec(s: string, i: nat)
    requires i <= |s|
    ensures var r := SyntaxErrorAt(s, i);
      && (r.Some? <==>
        OccursAt(s, SyntaxPrefix, i) && i + |SyntaxPrefix| < |s| && !IsLineTerminator(s[i + |SyntaxPrefix|]))
      && (r.Some? ==>
        && r.value.capture == s[i..r.value.end]
        && (r.value.end < |s| ==> IsLineTerminator(s[r.value.end]))
        && (forall j :: i <= j < r.value.end ==> !IsLineTerminator(s[j])))
  {
    if OccursAt(s, SyntaxPrefix, i) && i + |SyntaxPrefix| < |s| && !IsLineTerminator(s[i + |SyntaxPrefix|]) {
      LineEndIsFirst(s, i + |SyntaxPrefix|);
      assert forall j :: i <= j < i + |SyntaxPrefix| ==> s[j] == SyntaxPrefix[j - i];
    }
  }

  /** The capture of a marker match is a non-empty piece of one line. */
  lemma MarkerCaptureAt(s: string, i: nat)
    requires i <= |s| && MarkerAt(s, i).Some?
    ensures var c := MarkerAt(s, i).value.capture;
      c != [] && forall j :: 0 <= j < |c| ==> !IsLineTerminator(c[j])
  {
    MarkerAtSpec(s, i);
    var m := MarkerAt(s, i).value;
    assert forall j :: 0 <= j < |m.capture| ==> m.capture[j] == s[i + |ErrPrefix| + j];
  }

  /** A syntax-error match starts with "SyntaxError: " and more, and is one line. */
  lemma SyntaxCaptureAt(s: string, i: nat)
    requires i <= |s| && SyntaxErrorAt(s, i).Some?
    ensures var c := SyntaxErrorAt(s, i).value.capture;
      && |SyntaxPrefix| < |c| && c[..|SyntaxPrefix|] == SyntaxPrefix
      && forall j :: 0 <= j < |c| ==> !IsLineTerminator(c[j])
  {
    SyntaxErrorAtSpec(s, i);
    var m := SyntaxErrorAt(s, i).value;
    assert forall j :: 0 <= j < |m.capture| ==> m.capture[j] == s[i + j];
    assert m.capture[..|SyntaxPrefix|] == s[i..i + |SyntaxPrefix|];
  }

  /** A filename read from the marker pattern is a non-empty piece of one line. */
  lemma MarkerCaptureShape(s: string, filename: string)
    requires IsCapture(Anchor(ErrorMarker, s), |s|, filename)
    ensures filename != [] && forall j :: 0 <= j < |filename| ==> !IsLineTerminator(filename[j])
  {
    var i :| 0 <= i <= |s| && Anchor(ErrorMarker, s)(i).Some? && Anchor(ErrorMarker, s)(i).value.capture == filename;
    MarkerCaptureAt(s, i);
  }

  /** A summary read from the syntax-error pattern starts with "SyntaxError: " and more, and is one line. */
  lemma SyntaxCaptureShape(s: string, summary: string)
    requires IsCapture(Anchor(SyntaxErrorLine, s), |s|, summary)
    ensures && |SyntaxPrefix| < |summary| && summary[..|SyntaxPrefix|] == SyntaxPrefix
            && forall j :: 0 <= j < |summary| ==> !IsLineTerminator(summary[j])
  {
    var i :| 0 <= i <= |s| && Anchor(SyntaxErrorLine, s)(i).Some? && Anchor(SyntaxErrorLine, s)(i).value.capture == summary;
    SyntaxCaptureAt(s, i);
  }

  /** The match of `p` anchored at `i`; none past the end of the input. */
  function MatchAt(p: Pattern, s: string, i: nat): (r: Option<Match>)
    ensures r.Some? ==> r.value.start == i && i < r.value.end <= |s|
  {
    if i > |s| then None
    else match p
      case ErrorMarker => MarkerAt(s, i)
      case SyntaxErrorLine => SyntaxErrorAt(s, i)
  }

  // ---------------------------------------------------------------------
  // Global regular expressions, over any anchored matcher
  // ---------------------------------------------------------------------

  /** A pattern over a fixed input, asked position by position for the match starting there. */
  type Matcher = nat -> Option<Match>

  /** Every match `at` reports starts where it was asked for and ends after that, within the `n` characters of the input. */
  ghost predicate Anchored(at: Matcher, n: nat) {
    forall i: nat :: at(i).Some? ==> at(i).value.start == i && i < at(i).value.end <= n
  }

  /** Pattern `p` over input `s`, as a matcher. */
  function Anchor(p: Pattern, s: string): (at: Matcher)
    ensures Anchored(at, |s|)
  {
    (i: nat) => MatchAt(p, s, i)
  }

  /** The leftmost match that starts at `from` or later. */
  function Leftmost(at: Matcher, n: nat, from: nat): (r: Option<Match>)
    requires Anchored(at, n)
    ensures r.Some? ==> from <= r.value.start <= n && at(r.value.start) == r
    decreases n + 1 - from
  {
    if from > n then None
    else if at(from).Some? then at(from)
    else Leftmost(at, n, from + 1)
  }

  /** No match starts between `from` and the leftmost one, and none at all when there is no leftmost one. */
  lemma {:induction false} LeftmostIsFirst(at: Matcher, n: nat, from: nat)
    requires Anchored(at, n)
    ensures var r := Leftmost(at, n, from);
      && (r.Some? ==> forall i :: from <= i < r.value.start ==> at(i).None?)
      && (r.None? ==> forall i :: from <= i <= n ==> at(i).None?)
    decreases n + 1 - from
  {
    if from <= n && at(from).None? {
      LeftmostIsFirst(at, n, from + 1);
    }
  }
  /** The leftmost match from `from` is the one at `k` when nothing matches in between. */
  lemma {:induction false} LeftmostAt(at: Matcher, n: nat, from: nat, k: nat)
    requires Anchored(at, n) && from <= k <= n && at(k).Some?
    requires forall i :: from <= i < k ==> at(i).None?
    ensures Leftmost(at, n, from) == at(k)
    decreases k - from
  {
    if from < k {
      LeftmostAt(at, n, from + 1, k);
    }
  }


  /** The result of `exec` on a global regular expression: the match, and the new `lastIndex`. */
  datatype ExecResult = ExecResult(found: Option<Match>, lastIndex: nat)

  /**
   * `exec` of a global regular expression whose `lastIndex` is `lastIndex`:
   * on a match `lastIndex` moves to its end, past where it was; on a failure
   * it is reset to 0 (section 22.2.7.2, RegExpBuiltinExec, of ECMA-262).
   */
  function RunExec(at: Matcher, n: nat, lastIndex: nat): (r: ExecResult)
    requires Anchored(at, n)
    ensures r.found.Some? ==> lastIndex < r.lastIndex == r.found.value.end <= n
    ensures r.found.None? ==> r.lastIndex == 0
  {
    match Leftmost(at, n, lastIndex)
    case Some(m) => ExecResult(Some(m), m.end)
    case None => ExecResult(None, 0)
  }

  // ---------------------------------------------------------------------
  // Scraping the output
  // ---------------------------------------------------------------------

  datatype TransformError = TransformError(transform: string, filename: string, summary: string)

  /**
   * The error-marker matches the `while` loop visits, from `lastIndex` on:
   * each the leftmost match starting at or after the end of the previous one.
   * They lie after `lastIndex`, in order, and do not overlap.
   */
  function Markers(err: Matcher, n: nat, lastIndex: nat): (r: seq<Match>)
    requires Anchored(err, n)
    ensures forall i :: 0 <= i < |r| ==> lastIndex <= r[i].start < r[i].end <= n
    ensures forall i, j :: 0 <= i < j < |r| ==> r[i].end <= r[j].start
    decreases n + 1 - lastIndex
  {
    match Leftmost(err, n, lastIndex)
    case None => []
    case Some(m) =>
      var rest := Markers(err, n, m.end);
      var r := [m] + rest;
      assert forall i :: 0 < i < |r| ==> r[i] == rest[i - 1];
      r
  }

  /** Each marker is the match of the marker pattern at its start. */
  lemma {:induction false} MarkersAreMatches(err: Matcher, n: nat, lastIndex: nat)
    requires Anchored(err, n)
    ensures forall i :: 0 <= i < |Markers(err, n, lastIndex)| ==>
      err(Markers(err, n, lastIndex)[i].start) == Some(Markers(err, n, lastIndex)[i])
    decreases n + 1 - lastIndex
  {
    var m := Leftmost(err, n, lastIndex);
    if m.Some? {
      var r := Markers(err, n, lastIndex);
      var rest := Markers(err, n, m.value.end);
      MarkersAreMatches(err, n, m.value.end);
      assert r == [m.value] + rest;
      forall i | 0 <= i < |r|
        ensures err(r[i].start) == Some(r[i])
      {
        if i == 0 {
          assert r[i] == m.value;
        } else {
          assert r[i] == rest[i - 1];
        }
      }
    }
  }

  /** There are no markers exactly when no marker matches at `lastIndex` or later. */
  lemma MarkersEmpty(err: Matcher, n: nat, lastIndex: nat)
    requires Anchored(err, n)
    ensures |Markers(err, n, lastIndex)| == 0 <==> forall i :: lastIndex <= i <= n ==> err(i).None?
  {
    var m := Leftmost(err, n, lastIndex);
    LeftmostIsFirst(err, n, lastIndex);
    if m.Some? {
      assert err(m.value.start).Some?;
    }
  }

  /** `text` is what the code reads from one match of `at`. */
  ghost predicate IsCapture(at: Matcher, n: nat, text: string) {
    exists p :: 0 <= p <= n && at(p).Some? && at(p).value.capture == text
  }

  /** The filenames of `es` are the captures of a subsequence of `ms`, in order. */
  ghost predicate InMarkerOrder(es: seq<TransformError>, ms: seq<Match>)
    decreases |ms|
  {
    if es == [] then true
    else if ms == [] then false
    else (es[0].filename == ms[0].capture && InMarkerOrder(es[1..], ms[1..])) || InMarkerOrder(es, ms[1..])
  }

  /** Every filename of `es` is the capture of one of the markers. */
  lemma {:induction false} InMarkerOrderFilenames(es: seq<TransformError>, ms: seq<Match>)
    requires InMarkerOrder(es, ms)
    ensures forall i :: 0 <= i < |es| ==> exists k :: 0 <= k < |ms| && es[i].filename == ms[k].capture
    decreases |ms|
  {
    if es != [] {
      if es[0].filename == ms[0].capture && InMarkerOrder(es[1..], ms[1..]) {
        InMarkerOrderFilenames(es[1..], ms[1..]);
        forall i | 0 <= i < |es|
          ensures exists k :: 0 <= k < |ms| && es[i].filename == ms[k].capture
        {
          if i == 0 {
            assert es[0].filename == ms[0].capture;
          } else {
            assert es[i] == es[1..][i - 1];
            var k :| 0 <= k < |ms[1..]| && es[1..][i - 1].filename == ms[1..][k].capture;
            assert ms[1..][k] == ms[k + 1];
          }
        }
      } else {
        InMarkerOrderFilenames(es, ms[1..]);
        forall i | 0 <= i < |es|
          ensures exists k :: 0 <= k < |ms| && es[i].filename == ms[k].capture
        {
          var k :| 0 <= k < |ms[1..]| && es[i].filename == ms[1..][k].capture;
          assert ms[1..][k] == ms[k + 1];
        }
      }
    }
  }

  /**
   * Pairing the markers with the syntax-error scan, whose `lastIndex` starts
   * at `syntaxIndex`: each marker takes the next syntax-error match, or, when
   * that scan fails, yields no entry and resets the syntax scan to the start.
   * Every entry names `transform`, takes its filename from a marker (in
   * marker order, at most one entry per marker) and its summary from a
   * syntax-error match.
   */
  function Pairing(transform: string, syn: Matcher, n: nat, markers: seq<Match>, syntaxIndex: nat)
    : (r: seq<TransformError>)
    requires Anchored(syn, n)
    ensures |r| <= |markers|
    ensures forall i :: 0 <= i < |r| ==> r[i].transform == transform
    ensures forall i :: 0 <= i < |r| ==> IsCapture(syn, n, r[i].summary)
    ensures InMarkerOrder(r, markers)
    decreases |markers|
  {
    if markers == [] then []
    else
      var syntax := RunExec(syn, n, syntaxIndex);
      var rest := Pairing(transform, syn, n, markers[1..], syntax.lastIndex);
      if syntax.found.Some? then
        var m := syntax.found.value;
        assert syn(m.start) == Some(m);
        [TransformError(transform, markers[0].capture, m.capture)] + rest
      else rest
  }

  /**
   * The scraping loop with its two cursors, from marker cursor `errorIndex`
   * and syntax cursor `syntaxIndex`. Every entry names `transform`, and since
   * each pass moves the marker cursor forward there are at most as many
   * entries as characters after `errorIndex`.
   */
  function Scan(transform: string, err: Matcher, syn: Matcher, n: nat, errorIndex: nat, syntaxIndex: nat)
    : (r: seq<TransformError>)
    requires Anchored(err, n) && Anchored(syn, n)
    ensures forall i :: 0 <= i < |r| ==> r[i].transform == transform
    ensures |r| <= if errorIndex < n then n - errorIndex else 0
    decreases n + 1 - errorIndex
  {
    var marker := RunExec(err, n, errorIndex);
    if marker.found.None? then []
    else
      var syntax := RunExec(syn, n, syntaxIndex);
      var entry := if syntax.found.Some?
        then [TransformError(transform, marker.found.value.capture, syntax.found.value.capture)]
        else [];
      entry + Scan(transform, err, syn, n, marker.lastIndex, syntax.lastIndex)
  }

  /** The two cursors never interact: the loop pairs the marker matches as Pairing says. */
  lemma {:induction false} ScanIsPairing(
    transform: string, err: Matcher, syn: Matcher, n: nat, errorIndex: nat, syntaxIndex: nat)
    requires Anchored(err, n) && Anchored(syn, n)
    ensures Scan(transform, err, syn, n, errorIndex, syntaxIndex)
         == Pairing(transform, syn, n, Markers(err, n, errorIndex), syntaxIndex)
    decreases n + 1 - errorIndex
  {
    var marker := RunExec(err, n, errorIndex);
    if marker.found.Some? {
      var syntax := RunExec(syn, n, syntaxIndex);
      var ms := Markers(err, n, errorIndex);
      assert ms[1..] == Markers(err, n, marker.lastIndex);
      ScanIsPairing(transform, err, syn, n, marker.lastIndex, syntax.lastIndex);
    }
  }

  /** Every entry's filename is the capture of a marker match and its summary that of a syntax-error match. */
  lemma PairingSources(transform: string, err: Matcher, syn: Matcher, n: nat)
    requires Anchored(err, n) && Anchored(syn, n)
    ensures forall i :: 0 <= i < |Pairing(transform, syn, n, Markers(err, n, 0), 0)| ==>
      && IsCapture(err, n, Pairing(transform, syn, n, Markers(err, n, 0), 0)[i].filename)
      && IsCapture(syn, n, Pairing(transform, syn, n, Markers(err, n, 0), 0)[i].summary)
  {
    var ms := Markers(err, n, 0);
    var r := Pairing(transform, syn, n, ms, 0);
    MarkersAreMatches(err, n, 0);
    InMarkerOrderFilenames(r, ms);
    forall i | 0 <= i < |r|
      ensures IsCapture(err, n, r[i].filename)
    {
      var k :| 0 <= k < |ms| && r[i].filename == ms[k].capture;
      assert err(ms[k].start) == Some(ms[k]);
    }
  }

  /**
   * What the scraped entries look like: each names the transform, its
   * filename is a non-empty piece of one line, and its summary is one line
   * starting with "SyntaxError: " and something after it.
   */
  lemma ScrapedEntriesShape(transform: string, output: string)
    ensures var r := Pairing(transform, Anchor(SyntaxErrorLine, output), |output|,
                             Markers(Anchor(ErrorMarker, output), |output|, 0), 0);
      forall i :: 0 <= i < |r| ==>
        && r[i].transform == transform
        && r[i].filename != []
        && (forall j :: 0 <= j < |r[i].filename| ==> !IsLineTerminator(r[i].filename[j]))
        && |SyntaxPrefix| < |r[i].summary| && r[i].summary[..|SyntaxPrefix|] == SyntaxPrefix
        && (forall j :: 0 <= j < |r[i].summary| ==> !IsLineTerminator(r[i].summary[j]))
  {
    var err, syn, n := Anchor(ErrorMarker, output), Anchor(SyntaxErrorLine, output), |output|;
    var r := Pairing(transform, syn, n, Markers(err, n, 0), 0);
    PairingSources(transform, err, syn, n);
    forall i | 0 <= i < |r|
      ensures r[i].filename != []
      ensures forall j :: 0 <= j < |r[i].filename| ==> !IsLineTerminator(r[i].filename[j])
      ensures |SyntaxPrefix| < |r[i].summary| && r[i].summary[..|SyntaxPrefix|] == SyntaxPrefix
      ensures forall j :: 0 <= j < |r[i].summary| ==> !IsLineTerminator(r[i].summary[j])
    {
      SyntaxCaptureShape(output, r[i].summary);
      MarkerCaptureShape(output, r[i].filename);
    }
  }

  /**
   * A global (`g` flag) regular expression object for one of the two
   * patterns, with its `lastIndex` cursor.
   */
  class GlobalRegExp {
    const pattern: Pattern
    var lastIndex: nat

    constructor (pattern: Pattern)
      ensures this.pattern == pattern && lastIndex == 0
    {
      this.pattern := pattern;
      lastIndex := 0;
    }

    /** `exec`: the leftmost match at or after `lastIndex`, which moves to its end, or is reset to 0 on failure. */
    method Exec(input: string) returns (found: Option<Match>)
      modifies this
      ensures RunExec(Anchor(pattern, input), |input|, old(lastIndex)) == ExecResult(found, lastIndex)
    {
      var r := RunExec(Anchor(pattern, input), |input|, lastIndex);
      found, lastIndex := r.found, r.lastIndex;
    }
  }

  /**
   * One pass of the scraping loop's body: `exec` the marker pattern over
   * `output` and, when it matched, the syntax-error pattern; `entry` is what
   * the pass appends. It does what `Scan` does from the two cursors.
   */
  method ScanOnce(transform: string, output: string, errorRegex: GlobalRegExp, syntaxErrorRegex: GlobalRegExp)
    returns (done: bool, entry: seq<TransformError>)
    requires errorRegex != syntaxErrorRegex
    requires errorRegex.pattern == ErrorMarker && syntaxErrorRegex.pattern == SyntaxErrorLine
    modifies errorRegex, syntaxErrorRegex
    ensures var err, syn, n := Anchor(ErrorMarker, output), Anchor(SyntaxErrorLine, output), |output|;
      && (done ==> Scan(transform, err, syn, n, old(errorRegex.lastIndex), old(syntaxErrorRegex.lastIndex)) == [])
      && (!done ==> old(errorRegex.lastIndex) < errorRegex.lastIndex <= n)
      && (!done ==>
            Scan(transform, err, syn, n, old(errorRegex.lastIndex), old(syntaxErrorRegex.lastIndex))
            == entry + Scan(transform, err, syn, n, errorRegex.lastIndex, syntaxErrorRegex.lastIndex))
  {
    entry := [];
    var marker := errorRegex.Exec(output);
    if marker.None? {
      return true, entry;
    }
    var filename := marker.value.capture;
    var syntaxErrorMatch := syntaxErrorRegex.Exec(output);
    if syntaxErrorMatch.Some? {
      var summary := syntaxErrorMatch.value.capture;
      entry := [TransformError(transform, filename, summary)];
    }
    done := false;
  }

  /**
   * Scrape jscodeshift's output: run the marker pattern over the output and,
   * for each marker, the syntax-error pattern from where it last stopped.
   */
  method ParseErrors(transform: string, output: string) returns (errors: seq<TransformError>)
    ensures errors == Pairing(transform, Anchor(SyntaxErrorLine, output), |output|,
                              Markers(Anchor(ErrorMarker, output), |output|, 0), 0)
  {
    ghost var err, syn, n := Anchor(ErrorMarker, output), Anchor(SyntaxErrorLine, output), |output|;
    errors := [];
    var errorRegex := new GlobalRegExp(ErrorMarker);
    var syntaxErrorRegex := new GlobalRegExp(SyntaxErrorLine);
    while true
      invariant errorRegex.pattern == ErrorMarker && syntaxErrorRegex.pattern == SyntaxErrorLine
      invariant errorRegex.lastIndex <= n
      invariant errors + Scan(transform, err, syn, n, errorRegex.lastIndex, syntaxErrorRegex.lastIndex)
                == Scan(transform, err, syn, n, 0, 0)
      decreases n - errorRegex.lastIndex
    {
      var done, entry := ScanOnce(transform, output, errorRegex, syntaxErrorRegex);
      if done {
        break;
      }
      errors := errors + entry;
    }
    ScanIsPairing(transform, err, syn, n, 0, 0);
  }

  // ---------------------------------------------------------------------
  // The syntax cursor reset, on an example
  // ---------------------------------------------------------------------

  /**
   * When the output holds exactly one syntax-error match, three markers
   * yield two entries: the first marker takes it, the second finds nothing
   * after it (and resets the syntax cursor), and the third takes the same
   * match again. The third file is reported with the first file's summary.
   */
  lemma {:induction false} SummaryReused(
    transform: string, syn: Matcher, n: nat, m1: Match, m2: Match, m3: Match, only: Match)
    requires Anchored(syn, n) && only.start <= n && syn(only.start) == Some(only)
    requires forall i :: 0 <= i <= n && i != only.start ==> syn(i).None?
    ensures Pairing(transform, syn, n, [m1, m2, m3], 0)
         == [TransformError(transform, m1.capture, only.capture), TransformError(transform, m3.capture, only.capture)]
  {
    LeftmostAt(syn, n, 0, only.start);
    assert RunExec(syn, n, 0) == ExecResult(Some(only), only.end);
    assert Leftmost(syn, n, only.end).None?;
    assert RunExec(syn, n, only.end) == ExecResult(None, 0);
    assert [m1, m2, m3][1..] == [m2, m3];
    assert [m2, m3][1..] == [m3];
    assert [m3][1..] == [];
    assert Pairing(transform, syn, n, [m3], 0) == [TransformError(transform, m3.capture, only.capture)];
    assert Pairing(transform, syn, n, [m2, m3], only.end) == Pairing(transform, syn, n, [m3], 0);
  }

  /** The example's one syntax-error line. */
  const ExampleSyntaxLine: string := SyntaxPrefix + "x\n"
  /** Three failed files, a, b and c, and one syntax error, printed after the first. */
  const ExampleOutput: string := MarkerLine("a") + ExampleSyntaxLine + MarkerLine("b") + MarkerLine("c")

  /** Each of four concatenated pieces is the slice of the whole at its offset. */
  lemma FourSlices(a: string, b: string, c: string, d: string)
    ensures var s := a + b + c + d;
      && s[..|a|] == a && s[|a|..|a| + |b|] == b
      && s[|a| + |b|..|a| + |b| + |c|] == c && s[|a| + |b| + |c|..] == d
  {
    var s := a + b + c + d;
    assert forall j :: 0 <= j < |b| ==> s[|a| + j] == b[j];
    assert forall j :: 0 <= j < |c| ==> s[|a| + |b| + j] == c[j];
  }

  /** `t` starts nowhere inside a piece of `s` whose characters rule it out. */
  lemma NoStartIn(s: string, t: string, p: nat, piece: string)
    requires 2 <= |t| && p + |piece| <= |s| && s[p..p + |piece|] == piece
    requires forall j :: 0 <= j < |piece| ==> piece[j] != t[0] || (j + 1 < |piece| && piece[j + 1] != t[1])
    ensures forall i :: p <= i < p + |piece| ==> !OccursAt(s, t, i)
  {
    forall i | p <= i < p + |piece|
      ensures !OccursAt(s, t, i)
    {
      assert piece[i - p] != t[0] || (i - p + 1 < |piece| && piece[i - p + 1] != t[1]);
      assert s[i] == piece[i - p];
      if i + 1 < p + |piece| {
        assert s[i + 1] == piece[i + 1 - p];
      }
      NotOccursAt(s, t, i);
    }
  }

  lemma ExampleSlices()
    ensures |ExampleOutput| == 96
    ensures ExampleOutput[0..27] == MarkerLine("a") && ExampleOutput[27..42] == ExampleSyntaxLine
    ensures ExampleOutput[42..69] == MarkerLine("b") && ExampleOutput[69..96] == MarkerLine("c")
  {
    FourSlices(MarkerLine("a"), ExampleSyntaxLine, MarkerLine("b"), MarkerLine("c"));
  }

  lemma ExampleNoMarkerStart()
    ensures forall i :: 26 <= i < 42 || i == 68 || i == 95 || i == 96 ==> !OccursAt(ExampleOutput, ErrPrefix, i)
  {
    ExampleSlices();
    NoStartIn(ExampleOutput, ErrPrefix, 27, ExampleSyntaxLine);
    assert ExampleOutput[26] == MarkerLine("a")[26] == '\n';
    assert ExampleOutput[68] == MarkerLine("b")[26] == '\n';
    assert ExampleOutput[95] == MarkerLine("c")[26] == '\n';
    NotOccursAt(ExampleOutput, ErrPrefix, 26);
    NotOccursAt(ExampleOutput, ErrPrefix, 68);
    NotOccursAt(ExampleOutput, ErrPrefix, 95);
    NotOccursAt(ExampleOutput, ErrPrefix, 96);
  }

  /** A position where "ERR " does not occur starts no marker match. */
  lemma NoMarkerWithoutPrefix(s: string, lo: nat, hi: nat)
    requires forall i :: lo <= i < hi ==> !OccursAt(s, ErrPrefix, i)
    ensures forall i :: lo <= i < hi ==> Anchor(ErrorMarker, s)(i).None?
  {
  }

  /** The markers from `from` are the match at `k`, then those after it, when nothing matches in between. */
  lemma MarkersFromNext(err: Matcher, n: nat, from: nat, k: nat, rest: seq<Match>)
    requires Anchored(err, n) && from <= k <= n && err(k).Some?
    requires forall i :: from <= i < k ==> err(i).None?
    requires Markers(err, n, err(k).value.end) == rest
    ensures Markers(err, n, from) == [err(k).value] + rest
  {
    LeftmostAt(err, n, from, k);
  }

  /** The example's lines for a, b and c are marker matches. */
  lemma ExampleMarkerLines()
    ensures Anchor(ErrorMarker, ExampleOutput)(0) == Some(Match(0, 26, "a"))
    ensures Anchor(ErrorMarker, ExampleOutput)(42) == Some(Match(42, 68, "b"))
    ensures Anchor(ErrorMarker, ExampleOutput)(69) == Some(Match(69, 95, "c"))
  {
    ExampleMarkerLine(0, "a");
    ExampleMarkerLine(42, "b");
    ExampleMarkerLine(69, "c");
  }

  /** One of the example's marker lines is a marker match. */
  lemma ExampleMarkerLine(p: nat, filename: string)
    requires (p, filename) in {(0, "a"), (42, "b"), (69, "c")}
    ensures Anchor(ErrorMarker, ExampleOutput)(p) == Some(Match(p, p + 26, filename))
  {
    ExampleSlices();
    MarkerLineAt(ExampleOutput, p, filename);
  }

  /** No marker match starts between the example's marker lines or after the last. */
  lemma ExampleNoMarkers()
    ensures forall i :: 26 <= i < 42 ==> Anchor(ErrorMarker, ExampleOutput)(i).None?
    ensures forall i :: 68 <= i < 69 ==> Anchor(ErrorMarker, ExampleOutput)(i).None?
    ensures forall i :: 95 <= i < 97 ==> Anchor(ErrorMarker, ExampleOutput)(i).None?
  {
    ExampleNoMarkerStart();
    NoMarkerWithoutPrefix(ExampleOutput, 26, 42);
    NoMarkerWithoutPrefix(ExampleOutput, 68, 69);
    NoMarkerWithoutPrefix(ExampleOutput, 95, 97);
  }

  /** Markers of any matcher with the example's three matches and nothing else. */
  lemma ThreeMarkers(err: Matcher, n: nat, m1: Match, m2: Match, m3: Match)
    requires Anchored(err, n) && n == 96
    requires m1.start == 0 && m1.end == 26 && m2.start == 42 && m2.end == 68 && m3.start == 69 && m3.end == 95
    requires err(0) == Some(m1) && err(42) == Some(m2) && err(69) == Some(m3)
    requires forall i :: 26 <= i < 42 ==> err(i).None?
    requires forall i :: 68 <= i < 69 ==> err(i).None?
    requires forall i :: 95 <= i < 97 ==> err(i).None?
    ensures Markers(err, n, 0) == [m1, m2, m3]
  {
    MarkersEmpty(err, n, 95);
    MarkersFromNext(err, n, 68, 69, []);
    MarkersFromNext(err, n, 26, 42, [m3]);
    MarkersFromNext(err, n, 0, 0, [m2, m3]);
  }

  /** The marker matches of the example are the three lines for a, b and c. */
  lemma ExampleMarkers()
    ensures Markers(Anchor(ErrorMarker, ExampleOutput), |ExampleOutput|, 0)
         == [Match(0, 26, "a"), Match(42, 68, "b"), Match(69, 95, "c")]
  {
    ExampleSlices();
    ExampleMarkerLines();
    ExampleNoMarkers();
    ThreeMarkers(Anchor(ErrorMarker, ExampleOutput), |ExampleOutput|,
      Match(0, 26, "a"), Match(42, 68, "b"), Match(69, 95, "c"));
  }

  /** The example's second line is a syntax-error match. */
  lemma ExampleSyntaxAt()
    ensures SyntaxErrorAt(ExampleOutput, 27) == Some(Match(27, 41, "SyntaxError: x"))
  {
    ExampleSlices();
    var line := ExampleOutput[27..42];
    assert ExampleOutput[27..40] == line[..13] == SyntaxPrefix;
    assert ExampleOutput[27..41] == line[..14] == "SyntaxError: x";
    assert ExampleOutput[40] == line[13] == 'x';
    assert ExampleOutput[41] == line[14] == '\n';
    LineEndAt(ExampleOutput, 40, 41);
  }

  /** "SyntaxError: " starts nowhere in a marker line whose filename has no capital S. */
  lemma NoSyntaxStartInMarkerLine(s: string, p: nat, filename: string)
    requires p + |MarkerLine(filename)| <= |s| && s[p..p + |MarkerLine(filename)|] == MarkerLine(filename)
    requires forall j :: 0 <= j < |filename| ==> filename[j] != 'S'
    ensures forall i :: p <= i < p + |MarkerLine(filename)| ==> !OccursAt(s, SyntaxPrefix, i)
  {
    var line := MarkerLine(filename);
    forall j | 0 <= j < |line|
      ensures line[j] != 'S'
    {
      if j < |ErrPrefix| {
        assert line[j] == ErrPrefix[j];
      } else if j < |ErrPrefix| + |filename| {
        assert line[j] == filename[j - |ErrPrefix|];
      } else if j < |ErrPrefix| + |filename| + |ErrSuffix| {
        assert line[j] == ErrSuffix[j - |ErrPrefix| - |filename|];
      }
    }
    NoStartIn(s, SyntaxPrefix, p, line);
  }

  lemma ExampleNoSyntaxStart()
    ensures forall i :: 0 <= i <= |ExampleOutput| && i != 27 ==> !OccursAt(ExampleOutput, SyntaxPrefix, i)
  {
    ExampleSlices();
    NoSyntaxStartInMarkerLine(ExampleOutput, 0, "a");
    assert ExampleOutput[28..42] == ExampleSyntaxLine[1..];
    NoStartIn(ExampleOutput, SyntaxPrefix, 28, ExampleSyntaxLine[1..]);
    NoSyntaxStartInMarkerLine(ExampleOutput, 42, "b");
    NoSyntaxStartInMarkerLine(ExampleOutput, 69, "c");
    NotOccursAt(ExampleOutput, SyntaxPrefix, 96);
  }

  /**
   * On the example output, the scraper reports a and c, both with the one
   * summary "SyntaxError: x", and nothing for b.
   */
  lemma ExampleSummaryReused(transform: string)
    ensures Pairing(transform, Anchor(SyntaxErrorLine, ExampleOutput), |ExampleOutput|,
                    Markers(Anchor(ErrorMarker, ExampleOutput), |ExampleOutput|, 0), 0)
         == [TransformError(transform, "a", "SyntaxError: x"), TransformError(transform, "c", "SyntaxError: x")]
  {
    ExampleMarkers();
    ExampleSyntaxAt();
    ExampleNoSyntaxStart();
    SummaryReused(transform, Anchor(SyntaxErrorLine, ExampleOutput), |ExampleOutput|,
      Match(0, 26, "a"), Match(42, 68, "b"), Match(69, 95, "c"), Match(27, 41, "SyntaxError: x"));
  }
}
