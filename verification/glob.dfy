/** Shell-style wildcard matching with the meaning Python's
    `fnmatch.fnmatch(name, pattern)` has on POSIX (where case normalisation is
    the identity). It follows section 2.13 of POSIX.1-2017 Shell & Utilities
    except that `*` and `?` also match `/` and a leading period, and a
    backslash is an ordinary character. The match is against the whole
    name. */
module Glob {
  import opened Text

  /** One member of a bracket class: a character or an inclusive range. An
      inverted range such as `z-a` contains nothing. */
  datatype Item = Single(c: char) | Span(lo: char, hi: char)

  datatype Token =
    | Exact(c: char)
    | AnyOne                                    // `?`
    | AnyRun                                    // `*`
    | Bracket(negated: bool, items: seq<Item>)  // `[...]` or `[!...]`

  predicate Covers(item: Item, c: char) {
    match item
    case Single(d) => c == d
    case Span(lo, hi) => lo <= c <= hi
  }

  predicate InItems(items: seq<Item>, c: char) {
    exists i :: 0 <= i < |items| && Covers(items[i], c)
  }

  /** Whether a single-character token accepts `c`. */
  predicate Accepts(t: Token, c: char) {
    match t
    case Exact(d) => c == d
    case AnyOne => true
    case AnyRun => true
    case Bracket(negated, items) => InItems(items, c) != negated
  }

  /** Where, in the text `s` after a `[`, the class closes: the index of its
      `]`, or `|s|` when there is none. A `!` and then a `]` at the very start
      belong to the class. */
  function ClassEnd(s: string): (k: nat)
    ensures k <= |s|
    ensures k < |s| ==> s[k] == ']'
  {
    var j0 := if |s| > 0 && s[0] == '!' then 1 else 0;
    var j1 := if j0 < |s| && s[j0] == ']' then j0 + 1 else j0;
    j1 + FirstIndexOf(s[j1..], ']')
  }

  /** The members of a class body (after any `!`), read left to right: a
      character followed by `-` and another character is a range; a `-` at
      either end is an ordinary character. */
  function Items(s: string): seq<Item>
    decreases |s|
  {
    if |s| == 0 then []
    else if |s| >= 3 && s[1] == '-' then [Span(s[0], s[2])] + Items(s[3..])
    else [Single(s[0])] + Items(s[1..])
  }

  /** Reads a pattern into tokens. A `[` without a closing `]` stands for
      itself. */
  function Compile(p: string): seq<Token>
    decreases |p|
  {
    if |p| == 0 then []
    else if p[0] == '*' then [AnyRun] + Compile(p[1..])
    else if p[0] == '?' then [AnyOne] + Compile(p[1..])
    else if p[0] == '[' then
      var body := p[1..];
      var k := ClassEnd(body);
      if k == |body| then [Exact('[')] + Compile(body)
      else
        var content := body[..k];
        var negated := |content| > 0 && content[0] == '!';
        [Bracket(negated, Items(if negated then content[1..] else content))] + Compile(body[k + 1..])
    else [Exact(p[0])] + Compile(p[1..])
  }

  /** The matcher: `*` first tries to match nothing, then one more character. */
  predicate MatchTokens(toks: seq<Token>, s: string)
    decreases |toks| + |s|
  {
    if |toks| == 0 then |s| == 0
    else if toks[0].AnyRun? then
      MatchTokens(toks[1..], s) || (|s| > 0 && MatchTokens(toks, s[1..]))
    else
      |s| > 0 && Accepts(toks[0], s[0]) && MatchTokens(toks[1..], s[1..])
  }

  /** `fnmatch.fnmatch(name, pattern)`. */
  predicate Fnmatch(name: string, pattern: string) {
    MatchTokens(Compile(pattern), name)
  }

  /** The language of a token sequence, stated declaratively: `*` stands for
      any piece of the string, every other token for exactly one character. */
  ghost predicate Denotes(toks: seq<Token>, s: string)
    decreases |toks|
  {
    if |toks| == 0 then |s| == 0
    else if toks[0].AnyRun? then exists k :: 0 <= k <= |s| && Denotes(toks[1..], s[k..])
    else |s| > 0 && Accepts(toks[0], s[0]) && Denotes(toks[1..], s[1..])
  }

  /** The backtracking matcher decides exactly the declarative language. */
  lemma {:induction false} MatchTokensDenotes(toks: seq<Token>, s: string)
    ensures MatchTokens(toks, s) <==> Denotes(toks, s)
    decreases |toks| + |s|
  {
    if |toks| == 0 {
    } else if toks[0].AnyRun? {
      var rest := toks[1..];
      MatchTokensDenotes(rest, s);
      assert s[0..] == s;
      if |s| > 0 {
        MatchTokensDenotes(toks, s[1..]);
        if Denotes(toks, s) {
          var k :| 0 <= k <= |s| && Denotes(rest, s[k..]);
          if k > 0 {
            assert s[1..][k - 1..] == s[k..];
            assert Denotes(toks, s[1..]);
          }
        }
        if MatchTokens(toks, s) && !MatchTokens(rest, s) {
          var k :| 0 <= k <= |s| - 1 && Denotes(rest, s[1..][k..]);
          assert s[1..][k..] == s[k + 1..];
        }
      }
    } else if |s| > 0 {
      MatchTokensDenotes(toks[1..], s[1..]);
    }
  }

  /** No `*`, `?` or `[` in the pattern. */
  predicate NoMeta(p: string) {
    forall i :: 0 <= i < |p| ==> p[i] != '*' && p[i] != '?' && p[i] != '['
  }

  /** A pattern without wildcards matches exactly itself. */
  lemma {:induction false} LiteralPattern(p: string, s: string)
    requires NoMeta(p)
    ensures Fnmatch(s, p) <==> s == p
    decreases |p|
  {
    if |p| > 0 {
      var toks := Compile(p);
      assert toks == [Exact(p[0])] + Compile(p[1..]);
      assert toks[1..] == Compile(p[1..]);
      if |s| > 0 {
        LiteralPattern(p[1..], s[1..]);
        if s[0] == p[0] && s[1..] == p[1..] {
          assert s == [s[0]] + s[1..];
          assert p == [p[0]] + p[1..];
        }
      }
    }
  }

  /** `*` followed by a literal matches exactly the names ending in it, `/`
      included: `*.log` matches `a/b/debug.log`. */
  lemma StarThenLiteral(t: string, s: string)
    requires NoMeta(t)
    ensures Fnmatch(s, "*" + t) <==> EndsWith(s, t)
  {
    var toks := Compile("*" + t);
    assert ("*" + t)[1..] == t;
    assert toks == [AnyRun] + Compile(t);
    assert toks[1..] == Compile(t);
    MatchTokensDenotes(toks, s);
    if EndsWith(s, t) {
      var k := |s| - |t|;
      LiteralPattern(t, s[k..]);
      MatchTokensDenotes(Compile(t), s[k..]);
    }
    if Denotes(toks, s) {
      var k :| 0 <= k <= |s| && Denotes(Compile(t), s[k..]);
      MatchTokensDenotes(Compile(t), s[k..]);
      LiteralPattern(t, s[k..]);
    }
  }

  /** `*` alone matches every name. */
  lemma StarMatchesEverything(s: string)
    ensures Fnmatch(s, "*")
  {
    assert NoMeta("");
    StarThenLiteral("", s);
    assert "*" + "" == "*";
  }

  /** A pattern of one single-character token matches exactly the
      one-character names it accepts. */
  lemma SingleToken(t: Token, s: string)
    requires !t.AnyRun?
    ensures MatchTokens([t], s) <==> |s| == 1 && Accepts(t, s[0])
  {
    assert [t][1..] == [];
  }

  /** `?` matches exactly the names of one character, `/` included. */
  lemma QuestionMarkMatchesOne(s: string)
    ensures Fnmatch(s, "?") <==> |s| == 1
  {
    assert "?"[1..] == "";
    assert Compile("?") == [AnyOne];
    SingleToken(AnyOne, s);
  }

  /** A closed class `[t]` matches exactly the one-character names whose
      character is a member of `t`. */
  lemma BracketClass(t: string, s: string)
    requires t != "" && t[0] != '!' && Lacks(t, ']')
    ensures Fnmatch(s, "[" + t + "]") <==> |s| == 1 && InItems(Items(t), s[0])
  {
    var p := "[" + t + "]";
    var body := t + "]";
    assert p[0] == '[' && p[1..] == body;
    assert body[0..] == body;
    FirstIndexOfPlain(t, ']', "]");
    var k := ClassEnd(body);
    assert k == |t|;
    assert body[..k] == t;
    assert body[k + 1..] == [];
    assert Compile([]) == [];
    assert Compile(p) == [Bracket(false, Items(t))];
    SingleToken(Bracket(false, Items(t)), s);
  }

  /** A closed class `[!t]` matches exactly the one-character names whose
      character is not a member of `t`. */
  lemma NegatedBracketClass(t: string, s: string)
    requires t != "" && Lacks(t, ']')
    ensures Fnmatch(s, "[!" + t + "]") <==> |s| == 1 && !InItems(Items(t), s[0])
  {
    var p := "[!" + t + "]";
    var body := "!" + t + "]";
    assert p[0] == '[' && p[1..] == body;
    assert body[0] == '!' && body[1] == t[0];
    assert body[1..] == t + "]";
    FirstIndexOfPlain(t, ']', "]");
    var k := ClassEnd(body);
    assert k == 1 + |t|;
    var content := body[..k];
    assert content == "!" + t;
    assert content[1..] == t;
    assert body[k + 1..] == [];
    assert Compile([]) == [];
    assert Compile(p) == [Bracket(true, Items(t))];
    SingleToken(Bracket(true, Items(t)), s);
  }

  /** A range `[lo-hi]` matches exactly the one-character names between its
      ends, both included; an inverted range matches nothing. */
  lemma RangeClass(lo: char, hi: char, s: string)
    requires lo != '!' && lo != ']' && hi != ']'
    ensures Fnmatch(s, "[" + [lo, '-', hi] + "]") <==> |s| == 1 && lo <= s[0] <= hi
  {
    var t := [lo, '-', hi];
    assert t[3..] == [];
    assert Items(t) == [Span(lo, hi)];
    BracketClass(t, s);
    if |s| == 1 && lo <= s[0] <= hi {
      assert Covers(Items(t)[0], s[0]);
    }
  }

  /** A `[` that no `]` closes stands for itself, and the rest of the
      pattern is read on. */
  lemma UnclosedBracketIsLiteral(t: string, s: string)
    requires Lacks(t, ']')
    ensures Fnmatch(s, "[" + t) <==> |s| > 0 && s[0] == '[' && Fnmatch(s[1..], t)
  {
    var p := "[" + t;
    assert p[1..] == t;
    var j := if |t| > 0 && t[0] == '!' then 1 else 0;
    assert t[j..] + "" == t[j..];
    FirstIndexOfPlain(t[j..], ']', "");
    assert ClassEnd(t) == |t|;
    assert Compile(p) == [Exact('[')] + Compile(t);
    assert Compile(p)[1..] == Compile(t);
  }

  /** The tokens that match the characters of `p` literally. */
  function Exacts(p: string): (toks: seq<Token>)
    ensures |toks| == |p|
    decreases |p|
  {
    if |p| == 0 then [] else [Exact(p[0])] + Exacts(p[1..])
  }

  /** Literal tokens match exactly the text they spell. */
  lemma {:induction false} ExactTokens(p: string, s: string)
    ensures MatchTokens(Exacts(p), s) <==> s == p
    decreases |p|
  {
    if |p| > 0 {
      assert Exacts(p)[1..] == Exacts(p[1..]);
      if |s| > 0 {
        ExactTokens(p[1..], s[1..]);
        if s[0] == p[0] && s[1..] == p[1..] {
          assert s == [s[0]] + s[1..];
          assert p == [p[0]] + p[1..];
        }
      }
    }
  }

  /** A `]` right after `[` or `[!` belongs to the class, so `[]` and `[!]`
      are never closed and stand for themselves. */
  lemma EmptyClassIsLiteral(s: string)
    ensures Fnmatch(s, "[]") <==> s == "[]"
    ensures Fnmatch(s, "[!]") <==> s == "[!]"
  {
    assert "[]"[1..] == "]" && "]"[1..] == "";
    assert ClassEnd("]") == 1;
    assert Compile("]") == [Exact(']')];
    assert Compile("[]") == Exacts("[]");
    ExactTokens("[]", s);
    assert "[!]"[1..] == "!]" && "!]"[1..] == "]";
    assert ClassEnd("!]") == 2;
    assert Compile("!]") == [Exact('!'), Exact(']')];
    assert Compile("[!]") == Exacts("[!]");
    ExactTokens("[!]", s);
  }
}
