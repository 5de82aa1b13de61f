/** `GitignoreHandler`: a flat list of ignore patterns read from one file, and
    the test deciding whether a path is ignored. The path is matched exactly as
    it is given: no relativisation against the ignore file's directory
    happens. */
module Gitignore {
  import opened Options
  import opened Text
  import Glob

  /** A stripped line is a pattern unless it is blank or a comment. */
  predicate IsPattern(stripped: string) {
    stripped != "" && !StartsWith(stripped, "#")
  }

  /** The stripped pattern lines among `lines`, in order. */
  function PatternsOf(lines: seq<string>): (patterns: seq<string>)
    ensures |patterns| <= |lines|
    ensures forall i :: 0 <= i < |patterns| ==> IsPattern(patterns[i]) && Strip(patterns[i]) == patterns[i]
    decreases |lines|
  {
    if |lines| == 0 then []
    else
      var line := Strip(lines[0]);
      if IsPattern(line) then
        StripIdempotent(lines[0]);
        [line] + PatternsOf(lines[1..])
      else PatternsOf(lines[1..])
  }

  /** `_load_patterns`: `None` is a missing ignore file. */
  function LoadPatterns(file: Option<string>): (patterns: seq<string>)
    ensures file.None? ==> patterns == []
    ensures file.Some? ==> |patterns| <= |Lines(file.value)|
    ensures forall i :: 0 <= i < |patterns| ==> IsPattern(patterns[i]) && Strip(patterns[i]) == patterns[i]
  {
    match file
    case None => []
    case Some(text) => PatternsOf(Lines(text))
  }

  /** A pattern is exactly the stripped form of some line that is neither
      blank nor a comment. */
  lemma {:induction false} PatternsOfMembers(lines: seq<string>, p: string)
    ensures p in PatternsOf(lines) <==> exists i :: 0 <= i < |lines| && Strip(lines[i]) == p && IsPattern(p)
    decreases |lines|
  {
    if |lines| > 0 {
      PatternsOfMembers(lines[1..], p);
      var line := Strip(lines[0]);
      assert PatternsOf(lines) == (if IsPattern(line) then [line] else []) + PatternsOf(lines[1..]);
      forall i | 1 <= i < |lines| ensures lines[i] == lines[1..][i - 1] {
      }
    }
  }

  /** File order is kept: the patterns of two consecutive stretches of lines
      are those of the first followed by those of the second. */
  lemma {:induction false} PatternsOfAppend(a: seq<string>, b: seq<string>)
    ensures PatternsOf(a + b) == PatternsOf(a) + PatternsOf(b)
    decreases |a|
  {
    if |a| == 0 {
      assert a + b == b;
    } else {
      assert (a + b)[0] == a[0];
      assert (a + b)[1..] == a[1..] + b;
      PatternsOfAppend(a[1..], b);
    }
  }

  /** Loaded patterns load again as themselves. */
  lemma {:induction false} PatternsOfPatterns(lines: seq<string>)
    ensures PatternsOf(PatternsOf(lines)) == PatternsOf(lines)
    decreases |lines|
  {
    if |lines| > 0 {
      var line := Strip(lines[0]);
      PatternsOfPatterns(lines[1..]);
      if IsPattern(line) {
        var ps := PatternsOf(lines);
        assert ps == [line] + PatternsOf(lines[1..]);
        StripIdempotent(lines[0]);
        assert ps[0] == line && ps[1..] == PatternsOf(lines[1..]);
      }
    }
  }

  /** Writing patterns one per line and loading the file gives them back. */
  lemma WrittenPatternsReload(patterns: seq<string>)
    requires |patterns| > 0
    requires forall i :: 0 <= i < |patterns| ==>
               IsPattern(patterns[i]) && Strip(patterns[i]) == patterns[i] && NoLineBreak(patterns[i])
    ensures LoadPatterns(Some(JoinLines(patterns))) == patterns
  {
    LinesOfJoinLines(patterns);
    PatternsOfFixed(patterns);
  }

  lemma {:induction false} PatternsOfFixed(patterns: seq<string>)
    requires forall i :: 0 <= i < |patterns| ==> IsPattern(patterns[i]) && Strip(patterns[i]) == patterns[i]
    ensures PatternsOf(patterns) == patterns
    decreases |patterns|
  {
    if |patterns| > 0 {
      PatternsOfFixed(patterns[1..]);
      assert patterns == [patterns[0]] + patterns[1..];
    }
  }

  /** One pattern against one path, as in one turn of `_matches_pattern`'s
      loop: the prefix test for a pattern ending in `/`, and then, with no
      `else`, the wildcard test against the whole path. */
  predicate Hits(pattern: string, path: string) {
    || (EndsWith(pattern, "/") && StartsWith(path, RStripSlashes(pattern)))
    || Glob.Fnmatch(path, pattern)
  }

  /** `is_ignored`: the patterns are tried in order until one hits. */
  function IsIgnored(patterns: seq<string>, path: string): (ignored: bool)
    ensures ignored <==> exists i :: 0 <= i < |patterns| && Hits(patterns[i], path)
    decreases |patterns|
  {
    if |patterns| == 0 then false
    else if EndsWith(patterns[0], "/") && StartsWith(path, RStripSlashes(patterns[0])) then true
    else if Glob.Fnmatch(path, patterns[0]) then true
    else
      var rest := IsIgnored(patterns[1..], path);
      assert rest ==> exists i :: 0 <= i < |patterns| && Hits(patterns[i], path) by {
        if rest {
          var i :| 0 <= i < |patterns[1..]| && Hits(patterns[1..][i], path);
          assert patterns[i + 1] == patterns[1..][i];
        }
      }
      rest
  }

  /** Without an ignore file nothing is ignored. */
  lemma MissingFileIgnoresNothing(path: string)
    ensures !IsIgnored(LoadPatterns(None), path)
  {
  }

  /** Adding patterns never un-ignores a path. */
  lemma MorePatternsIgnoreMore(fewer: seq<string>, more: seq<string>, path: string)
    requires forall p :: p in fewer ==> p in more
    ensures IsIgnored(fewer, path) ==> IsIgnored(more, path)
  {
    if IsIgnored(fewer, path) {
      var i :| 0 <= i < |fewer| && Hits(fewer[i], path);
      assert fewer[i] in more;
      var j :| 0 <= j < |more| && more[j] == fewer[i];
    }
  }

  /** The order of the patterns does not matter. */
  lemma PatternOrderIrrelevant(a: seq<string>, b: seq<string>, path: string)
    requires multiset(a) == multiset(b)
    ensures IsIgnored(a, path) == IsIgnored(b, path)
  {
    forall p | p in a ensures p in b {
      assert p in multiset(a);
    }
    forall p | p in b ensures p in a {
      assert p in multiset(b);
    }
    MorePatternsIgnoreMore(a, b, path);
    MorePatternsIgnoreMore(b, a, path);
  }

  /** A pattern ending in `/` ignores every path that starts with it once its
      trailing slashes are removed: a plain string prefix test. */
  lemma DirectoryPatternIsPrefixTest(pattern: string, path: string)
    requires EndsWith(pattern, "/")
    requires StartsWith(path, RStripSlashes(pattern))
    ensures IsIgnored([pattern], path)
  {
  }

  /** A pattern without wildcards and without a trailing `/` ignores exactly
      the path equal to it, so `secret.txt` leaves `sub/secret.txt` alone. */
  lemma LiteralPatternIgnoresOnlyItself(pattern: string, path: string)
    requires Glob.NoMeta(pattern)
    requires !EndsWith(pattern, "/")
    ensures IsIgnored([pattern], path) <==> path == pattern
  {
    Glob.LiteralPattern(pattern, path);
  }

  /** `*` followed by a literal ignores every path ending in that literal,
      however deep: `*.log` ignores `a/b/debug.log`. */
  lemma StarPatternIgnoresSuffix(literal: string, path: string)
    requires Glob.NoMeta(literal)
    requires !EndsWith("*" + literal, "/")
    ensures IsIgnored(["*" + literal], path) <==> EndsWith(path, literal)
  {
    Glob.StarThenLiteral(literal, path);
  }

  /** The pattern `build/` on sample paths: besides what lies under
      `build`, the prefix test also ignores `build` itself and `buildup/file`. */
  lemma BuildPatternSamples()
    ensures IsIgnored(["build/"], "build/main.o")
    ensures IsIgnored(["build/"], "build")
    ensures IsIgnored(["build/"], "buildup/file")
    ensures !IsIgnored(["build/"], "src/build/x")
  {
    assert RStripSlashes("build/") == "build";
    assert StartsWith("build/main.o", "build");
    assert StartsWith("buildup/file", "build");
    assert !StartsWith("src/build/x", "build");
    BuildOnlyLiteral("src/build/x");
  }

  /** The pattern `secret.txt` on sample paths: only the path equal to it
      is ignored. */
  lemma SecretPatternSamples()
    ensures !IsIgnored(["secret.txt"], "sub/secret.txt")
    ensures IsIgnored(["secret.txt"], "secret.txt")
  {
    assert Glob.NoMeta("secret.txt");
    assert !EndsWith("secret.txt", "/");
    LiteralPatternIgnoresOnlyItself("secret.txt", "sub/secret.txt");
    LiteralPatternIgnoresOnlyItself("secret.txt", "secret.txt");
  }

  /** The pattern `*.log` on a nested sample path. */
  lemma LogPatternSample()
    ensures IsIgnored(["*.log"], "a/b/debug.log")
  {
    assert Glob.NoMeta(".log");
    assert "*" + ".log" == "*.log";
    assert !EndsWith("*.log", "/");
    assert EndsWith("a/b/debug.log", ".log");
    StarPatternIgnoresSuffix(".log", "a/b/debug.log");
  }

  lemma BuildOnlyLiteral(path: string)
    requires path != "build/"
    ensures !Glob.Fnmatch(path, "build/")
  {
    assert Glob.NoMeta("build/");
    Glob.LiteralPattern("build/", path);
  }

  // A trailing-slash pattern whose prefix test fails still gets the
  // wildcard test: `a*/` ignores `abc/` although `abc/` does not start with
  // `a*`.
  lemma TrailingSlashFallsThrough()
    ensures !StartsWith("abc/", RStripSlashes("a*/"))
    ensures IsIgnored(["a*/"], "abc/")
  {
    assert RStripSlashes("a*/") == "a*";
    assert Glob.NoMeta("/");
    Glob.StarThenLiteral("/", "bc/");
    assert "*" + "/" == "*/";
    var toks := Glob.Compile("a*/");
    assert ("a*/")[1..] == "*/";
    assert toks == [Glob.Exact('a')] + Glob.Compile("*/");
    assert ("abc/")[1..] == "bc/";
  }

  /** The pattern `/` strips to the empty prefix, so it ignores every path. */
  lemma SlashPatternIgnoresEverything(path: string)
    ensures IsIgnored(["/"], path)
  {
    assert RStripSlashes("/") == "";
  }
}
