/** `PushHandler.get_local_files`: the paths found by walking a local source
    directory, made relative by deleting every occurrence of the source
    directory followed by `/`, then sorted. No ignore rule is applied and
    nothing is deduplicated. */
module LocalFiles {
  import opened Text

  /** One step of the directory walk: a directory as the walk names it and
      the names of the files directly in it. */
  datatype WalkStep = WalkStep(root: string, names: seq<string>)

  /** The walked paths, each joined onto the directory it was found in, in
      walk order. */
  function Joined(walk: seq<WalkStep>): (paths: seq<string>)
    decreases |walk|
  {
    if |walk| == 0 then []
    else JoinAll(walk[0].root, walk[0].names) + Joined(walk[1..])
  }

  function JoinAll(root: string, names: seq<string>): (paths: seq<string>)
    ensures |paths| == |names|
    ensures forall i :: 0 <= i < |names| ==> paths[i] == PathJoin(root, names[i])
    decreases |names|
  {
    if |names| == 0 then [] else [PathJoin(root, names[0])] + JoinAll(root, names[1..])
  }

  /** The number of files the walk found. */
  function Count(walk: seq<WalkStep>): nat
    decreases |walk|
  {
    if |walk| == 0 then 0 else |walk[0].names| + Count(walk[1..])
  }

  /** The text removed from every walked path. */
  function Marker(sourceDir: string): (m: string)
    ensures |m| > 0
  {
    sourceDir + "/"
  }

  /** One walked path made relative. */
  function Relativise(sourceDir: string, path: string): string {
    RemoveAll(path, Marker(sourceDir))
  }

  function RelativiseAll(sourceDir: string, paths: seq<string>): (r: seq<string>)
    ensures |r| == |paths|
    ensures forall i :: 0 <= i < |paths| ==> r[i] == Relativise(sourceDir, paths[i])
    decreases |paths|
  {
    if |paths| == 0 then [] else [Relativise(sourceDir, paths[0])] + RelativiseAll(sourceDir, paths[1..])
  }

  /** `get_local_files`: collects the joined paths step by step, makes each
      relative and sorts them. */
  method GetLocalFiles(sourceDir: string, walk: seq<WalkStep>) returns (r: seq<string>)
    ensures Sorted(r)
    ensures |r| == Count(walk)
    ensures multiset(r) == multiset(RelativiseAll(sourceDir, Joined(walk)))
  {
    var collected := CollectPaths(walk);
    var relative := RelativiseEach(sourceDir, collected);
    JoinedCount(walk);
    r := Sort(relative);
  }

  /** The walk loop of `get_local_files`: every file name joined onto its
      directory, in walk order. */
  method CollectPaths(walk: seq<WalkStep>) returns (collected: seq<string>)
    ensures collected == Joined(walk)
  {
    collected := [];
    var k := 0;
    while k < |walk|
      invariant 0 <= k <= |walk|
      invariant collected + Joined(walk[k..]) == Joined(walk)
    {
      var step := walk[k];
      assert Joined(walk[k..]) == JoinAll(step.root, step.names) + Joined(walk[k + 1..]) by {
        assert walk[k..][0] == step && walk[k..][1..] == walk[k + 1..];
      }
      var found := JoinEach(step.root, step.names);
      collected := collected + found;
      k := k + 1;
    }
    assert Joined(walk[k..]) == [];
  }

  /** The inner loop: the names of one directory joined onto it. */
  method JoinEach(root: string, names: seq<string>) returns (paths: seq<string>)
    ensures paths == JoinAll(root, names)
  {
    paths := [];
    var j := 0;
    while j < |names|
      invariant 0 <= j <= |names|
      invariant paths + JoinAll(root, names[j..]) == JoinAll(root, names)
    {
      assert JoinAll(root, names[j..]) == [PathJoin(root, names[j])] + JoinAll(root, names[j + 1..]) by {
        assert names[j..][0] == names[j] && names[j..][1..] == names[j + 1..];
      }
      paths := paths + [PathJoin(root, names[j])];
      j := j + 1;
    }
    assert JoinAll(root, names[j..]) == [];
  }

  /** The comprehension of `get_local_files`: each path made relative. */
  method RelativiseEach(sourceDir: string, paths: seq<string>) returns (relative: seq<string>)
    ensures relative == RelativiseAll(sourceDir, paths)
  {
    relative := [];
    var i := 0;
    while i < |paths|
      invariant 0 <= i <= |paths|
      invariant relative == RelativiseAll(sourceDir, paths[..i])
    {
      assert paths[..i + 1] == paths[..i] + [paths[i]];
      RelativiseAllAppend(sourceDir, paths[..i], [paths[i]]);
      relative := relative + [Relativise(sourceDir, paths[i])];
      i := i + 1;
    }
    assert paths[..i] == paths;
  }

  lemma {:induction false} RelativiseAllAppend(sourceDir: string, a: seq<string>, b: seq<string>)
    ensures RelativiseAll(sourceDir, a + b) == RelativiseAll(sourceDir, a) + RelativiseAll(sourceDir, b)
    decreases |a|
  {
    if |a| == 0 {
      assert a + b == b;
    } else {
      assert (a + b)[0] == a[0];
      assert (a + b)[1..] == a[1..] + b;
      RelativiseAllAppend(sourceDir, a[1..], b);
    }
  }

  /** A path in which the source directory and `/` never occur comes back
      unchanged. */
  lemma RelativiseUnchanged(sourceDir: string, path: string)
    requires !Occurs(path, sourceDir + "/")
    ensures Relativise(sourceDir, path) == path
  {
    RemoveAllAbsent(path, Marker(sourceDir));
  }

  /** When the source directory and `/` lead the path and occur nowhere else,
      the result is the path without them. */
  lemma RelativiseLeading(sourceDir: string, rest: string)
    requires !Occurs(rest, sourceDir + "/")
    ensures Relativise(sourceDir, sourceDir + "/" + rest) == rest
  {
    assert sourceDir + "/" + rest == Marker(sourceDir) + rest;
    RemoveAllLeading(Marker(sourceDir), rest);
  }

  /** The source directory and `/` are removed wherever they occur: the
      text before the first occurrence is kept, the occurrence is dropped,
      and the rest is made relative in turn. */
  lemma RelativiseEveryOccurrence(sourceDir: string, x: string, y: string)
    requires forall i :: 0 <= i < |x| ==> !StartsWith((x + (sourceDir + "/") + y)[i..], sourceDir + "/")
    ensures Relativise(sourceDir, x + (sourceDir + "/") + y) == x + Relativise(sourceDir, y)
  {
    RemoveAllFirstOccurrence(x, Marker(sourceDir), y);
  }

  /** Every occurrence is removed, not only the leading one. */
  lemma EveryOccurrenceRemoved(path: string)
    requires path == "src/a/src/b.sql"
    ensures Relativise("src", path) == "a/b.sql"
  {
    AfterFirstWordRemoved();
    RemoveLeading("src/", "a/src/b.sql");
    Glue("src/", "a/src/b.sql", path);
  }

  /** Proof helper: the example path, glued from its two parts. Stated
      apart so that the proof of `EveryOccurrenceRemoved` need not unfold
      the literal. */
  lemma Glue(a: string, b: string, ab: string)
    requires a == "src/" && b == "a/src/b.sql" && ab == "src/a/src/b.sql"
    ensures a + b == ab
  {
  }

  lemma AfterFirstWordRemoved()
    ensures RemoveAll("a/src/b.sql", "src/") == "a/b.sql"
  {
    AfterSlashRemoved();
    KeepFirst('a', "/src/b.sql", "src/");
    assert ['a'] + "/src/b.sql" == "a/src/b.sql";
    assert ['a'] + "/b.sql" == "a/b.sql";
  }

  lemma AfterSlashRemoved()
    ensures RemoveAll("/src/b.sql", "src/") == "/b.sql"
  {
    InnerOccurrenceRemoved();
    KeepFirst('/', "src/b.sql", "src/");
    assert ['/'] + "src/b.sql" == "/src/b.sql";
    assert ['/'] + "b.sql" == "/b.sql";
  }

  lemma InnerOccurrenceRemoved()
    ensures RemoveAll("src/b.sql", "src/") == "b.sql"
  {
    var m := "src/";
    ShorterKept("sql", m);
    KeepFirst('.', "sql", m);
    assert ['.'] + "sql" == ".sql";
    KeepFirst('b', ".sql", m);
    assert ['b'] + ".sql" == "b.sql";
    RemoveLeading(m, "b.sql");
    assert m + "b.sql" == "src/b.sql";
  }

  lemma RemoveLeading(part: string, rest: string)
    requires |part| > 0
    ensures RemoveAll(part + rest, part) == RemoveAll(rest, part)
  {
    assert StartsWith(part + rest, part);
    assert (part + rest)[|part|..] == rest;
  }

  lemma KeepFirst(c: char, rest: string, part: string)
    requires |part| > 0 && part[0] != c
    ensures RemoveAll([c] + rest, part) == [c] + RemoveAll(rest, part)
  {
    assert ([c] + rest)[0] == c && ([c] + rest)[1..] == rest;
  }

  lemma ShorterKept(s: string, part: string)
    requires 0 < |s| < |part|
    ensures RemoveAll(s, part) == s
  {
    assert !Occurs(s, part);
    RemoveAllAbsent(s, part);
  }

  /** A source directory given with a trailing `/` is joined without a second
      slash, so the removed text `src//` never occurs and the paths keep
      their prefix. */
  lemma TrailingSlashKeepsPrefix()
    ensures Relativise("src/", PathJoin("src/", "a.sql")) == "src/a.sql"
  {
    assert !StartsWith("a.sql", "/") by {
      assert "a.sql"[..1][0] == 'a';
    }
    assert EndsWith("src/", "/") by {
      assert "src/"[3..] == "/";
    }
    assert PathJoin("src/", "a.sql") == "src/a.sql";
    var m := Marker("src/");
    assert m == "src//";
    var s := "src/a.sql";
    assert forall i :: 0 <= i < |s| - 1 ==> !(s[i] == '/' && s[i + 1] == '/');
    DoubleSlashAbsent(s, m);
    RemoveAllAbsent(s, m);
  }

  /** Text ending in two slashes never occurs in a path without two slashes
      in a row. */
  lemma DoubleSlashAbsent(s: string, part: string)
    requires |part| >= 2 && part[|part| - 2] == '/' && part[|part| - 1] == '/'
    requires forall i :: 0 <= i < |s| - 1 ==> !(s[i] == '/' && s[i + 1] == '/')
    ensures !Occurs(s, part)
  {
  }

  /** The walk is counted file by file: one relative path per walked file. */
  lemma {:induction false} JoinedCount(walk: seq<WalkStep>)
    ensures |Joined(walk)| == Count(walk)
    decreases |walk|
  {
    if |walk| > 0 {
      JoinedCount(walk[1..]);
    }
  }
}
