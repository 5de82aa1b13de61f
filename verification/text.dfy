/** String helpers with the meaning of the Python and JavaScript built-ins the
    sync tool leans on (`startswith`, `strip`, `rstrip("/")`, `replace`,
    `os.path.join`, `sorted`, `String.prototype.trim`). Strings are sequences
    of code points; comparison is by code point, as in both languages. */
module Text {

  // ----- prefixes, suffixes, occurrences -----

  predicate StartsWith(s: string, prefix: string) {
    |prefix| <= |s| && s[..|prefix|] == prefix
  }

  predicate EndsWith(s: string, suffix: string) {
    |suffix| <= |s| && s[|s| - |suffix|..] == suffix
  }

  /** `part` occurs in `s` beginning at index `i`. */
  predicate OccursAt(s: string, part: string, i: int) {
    0 <= i && i + |part| <= |s| && s[i..i + |part|] == part
  }

  predicate Occurs(s: string, part: string) {
    exists i :: 0 <= i <= |s| && OccursAt(s, part, i)
  }

  // ----- whitespace and trimming -----

  /** The characters for which Python's `str.isspace` holds; `str.strip()`
      with no argument removes exactly these from both ends. */
  predicate IsPythonSpace(c: char) {
    || ('\t' <= c <= '\r')
    || ('\U{1C}' <= c <= ' ')
    || c == '\U{85}' || c == '\U{A0}' || c == '\U{1680}'
    || ('\U{2000}' <= c <= '\U{200A}')
    || c == '\U{2028}' || c == '\U{2029}' || c == '\U{202F}' || c == '\U{205F}' || c == '\U{3000}'
  }

  /** The WhiteSpace and LineTerminator characters of ECMAScript, which
      `String.prototype.trim` removes from both ends. Unlike Python's set it
      holds U+FEFF but not U+001C..U+001F or U+0085. */
  predicate IsJsSpace(c: char) {
    || ('\t' <= c <= '\r')
    || c == ' ' || c == '\U{A0}' || c == '\U{1680}'
    || ('\U{2000}' <= c <= '\U{200A}')
    || c == '\U{2028}' || c == '\U{2029}' || c == '\U{202F}' || c == '\U{205F}' || c == '\U{3000}'
    || c == '\U{FEFF}'
  }

  predicate IsSlash(c: char) {
    c == '/'
  }

  /** Drops the longest prefix of characters satisfying `drop`. */
  function TrimStart(s: string, drop: char -> bool): (r: string)
    ensures |r| <= |s| && r == s[|s| - |r|..]
    ensures |r| == 0 || !drop(r[0])
    ensures forall i :: 0 <= i < |s| - |r| ==> drop(s[i])
    decreases |s|
  {
    if |s| > 0 && drop(s[0]) then TrimStart(s[1..], drop) else s
  }

  /** Drops the longest suffix of characters satisfying `drop`. */
  function TrimEnd(s: string, drop: char -> bool): (r: string)
    ensures |r| <= |s| && r == s[..|r|]
    ensures |r| == 0 || !drop(r[|r| - 1])
    ensures forall i :: |r| <= i < |s| ==> drop(s[i])
    decreases |s|
  {
    if |s| > 0 && drop(s[|s| - 1]) then TrimEnd(s[..|s| - 1], drop) else s
  }

  /** Python's `str.strip()`. */
  function Strip(s: string): string {
    TrimEnd(TrimStart(s, IsPythonSpace), IsPythonSpace)
  }

  /** JavaScript's `String.prototype.trim()`. */
  function JsTrim(s: string): string {
    TrimEnd(TrimStart(s, IsJsSpace), IsJsSpace)
  }

  /** Python's `str.rstrip("/")`. */
  function RStripSlashes(s: string): string {
    TrimEnd(s, IsSlash)
  }

  /** Trimming a string that already starts and ends with kept characters
      changes nothing. */
  lemma TrimmedIsFixed(s: string, drop: char -> bool)
    requires |s| == 0 || (!drop(s[0]) && !drop(s[|s| - 1]))
    ensures TrimEnd(TrimStart(s, drop), drop) == s
  {
  }

  /** `strip` is idempotent: a stripped line strips to itself. */
  lemma {:induction false} StripIdempotent(s: string)
    ensures Strip(Strip(s)) == Strip(s)
  {
    var t := TrimStart(s, IsPythonSpace);
    var u := TrimEnd(t, IsPythonSpace);
    assert Strip(s) == u;
    if |u| > 0 {
      assert u[0] == t[0];
      assert !IsPythonSpace(u[0]) && !IsPythonSpace(u[|u| - 1]);
      TrimmedIsFixed(u, IsPythonSpace);
    } else {
      assert TrimStart(u, IsPythonSpace) == u;
      assert TrimEnd(u, IsPythonSpace) == u;
    }
  }

  // ----- replace-all -----

  /** Python's `s.replace(part, "")`: scanning left to right, every
      non-overlapping occurrence of `part` is removed. */
  function RemoveAll(s: string, part: string): (r: string)
    requires |part| > 0
    ensures |r| <= |s|
    decreases |s|
  {
    if |s| == 0 then s
    else if StartsWith(s, part) then RemoveAll(s[|part|..], part)
    else [s[0]] + RemoveAll(s[1..], part)
  }

  /** A string in which `part` never occurs is returned unchanged. */
  lemma {:induction false} RemoveAllAbsent(s: string, part: string)
    requires |part| > 0
    requires !Occurs(s, part)
    ensures RemoveAll(s, part) == s
    decreases |s|
  {
    if |s| > 0 {
      assert !OccursAt(s, part, 0);
      assert !StartsWith(s, part);
      forall i | OccursAt(s[1..], part, i) ensures false {
        assert s[1..][i..i + |part|] == s[i + 1..i + 1 + |part|];
        assert OccursAt(s, part, i + 1);
      }
      RemoveAllAbsent(s[1..], part);
    }
  }

  /** When `part` is a leading prefix and occurs nowhere in the rest, the
      result is the rest. */
  lemma RemoveAllLeading(part: string, rest: string)
    requires |part| > 0
    requires !Occurs(rest, part)
    ensures RemoveAll(part + rest, part) == rest
  {
    assert StartsWith(part + rest, part);
    assert (part + rest)[|part|..] == rest;
    RemoveAllAbsent(rest, part);
  }

  /** Every occurrence is removed, not only a leading one: the text before
      the first occurrence is kept, that occurrence is dropped, and the
      scan goes on after it. */
  lemma {:induction false} RemoveAllFirstOccurrence(x: string, part: string, y: string)
    requires |part| > 0
    requires forall i :: 0 <= i < |x| ==> !StartsWith((x + part + y)[i..], part)
    ensures RemoveAll(x + part + y, part) == x + RemoveAll(y, part)
    decreases |x|
  {
    var s := x + part + y;
    if |x| == 0 {
      assert s == part + y;
      assert StartsWith(s, part);
      assert s[|part|..] == y;
    } else {
      assert s[0..] == s;
      assert !StartsWith(s, part);
      assert s[0] == x[0];
      var t := x[1..] + part + y;
      assert s[1..] == t;
      forall i | 0 <= i < |x[1..]| ensures !StartsWith(t[i..], part) {
        assert t[i..] == s[i + 1..];
      }
      RemoveAllFirstOccurrence(x[1..], part, y);
      assert [x[0]] + x[1..] == x;
    }
  }

  // ----- paths -----

  /** Python's `os.path.join(a, b)` on POSIX: an absolute `b` replaces `a`;
      otherwise a single `/` is inserted unless `a` is empty or ends in one. */
  function PathJoin(a: string, b: string): (r: string)
    ensures StartsWith(b, "/") ==> r == b
    ensures !StartsWith(b, "/") ==> EndsWith(r, b) && StartsWith(r, a)
    ensures !StartsWith(b, "/") && a != "" && !EndsWith(a, "/") ==> r == a + "/" + b
    ensures !StartsWith(b, "/") && (a == "" || EndsWith(a, "/")) ==> r == a + b
  {
    if StartsWith(b, "/") then b
    else if a == "" || EndsWith(a, "/") then a + b
    else a + "/" + b
  }

  // ----- lines -----

  predicate IsLineBreak(c: char) {
    c == '\n' || c == '\r'
  }

  /** Index of the first line break of `s`, or `|s|` when there is none. */
  function FirstBreak(s: string): (k: nat)
    ensures k <= |s|
    ensures k < |s| ==> IsLineBreak(s[k])
    ensures forall i :: 0 <= i < k ==> !IsLineBreak(s[i])
    decreases |s|
  {
    if |s| == 0 || IsLineBreak(s[0]) then 0 else 1 + FirstBreak(s[1..])
  }

  /** The text split at every `\n` and every `\r`. Reading a file in Python's
      text mode splits at `\n`, `\r` and `\r\n`; the only difference is the
      empty piece between `\r` and `\n`, which blank-line filtering removes. */
  function Lines(text: string): (r: seq<string>)
    ensures |r| > 0
    decreases |text|
  {
    var k := FirstBreak(text);
    if k == |text| then [text] else [text[..k]] + Lines(text[k + 1..])
  }

  predicate NoLineBreak(s: string) {
    forall i :: 0 <= i < |s| ==> !IsLineBreak(s[i])
  }

  /** The lines written one after another, separated by `\n`. */
  function JoinLines(lines: seq<string>): string
    requires |lines| > 0
    decreases |lines|
  {
    if |lines| == 1 then lines[0] else lines[0] + "\n" + JoinLines(lines[1..])
  }

  /** Splitting joined lines gives the lines back. */
  lemma {:induction false} LinesOfJoinLines(lines: seq<string>)
    requires |lines| > 0
    requires forall i :: 0 <= i < |lines| ==> NoLineBreak(lines[i])
    ensures Lines(JoinLines(lines)) == lines
    decreases |lines|
  {
    var head := lines[0];
    if |lines| == 1 {
      FirstBreakOfPlain(head, "");
    } else {
      var tail := JoinLines(lines[1..]);
      var text := head + "\n" + tail;
      FirstBreakOfPlain(head, "\n" + tail);
      assert text == head + ("\n" + tail);
      assert text[..|head|] == head;
      assert text[|head| + 1..] == tail;
      LinesOfJoinLines(lines[1..]);
      assert lines == [head] + lines[1..];
    }
  }

  /** A line without breaks followed by `rest` breaks where `rest` begins,
      provided `rest` is empty or starts with a break. */
  lemma {:induction false} FirstBreakOfPlain(head: string, rest: string)
    requires NoLineBreak(head)
    requires |rest| == 0 || IsLineBreak(rest[0])
    ensures FirstBreak(head + rest) == |head|
    decreases |head|
  {
    if |head| > 0 {
      assert (head + rest)[1..] == head[1..] + rest;
      FirstBreakOfPlain(head[1..], rest);
    }
  }

  // ----- code-point order and sorting -----

  /** Python's `<=` on `str`: lexicographic by code point. */
  predicate LessEq(a: string, b: string)
    decreases |a|
  {
    |a| == 0 || (|b| > 0 && (a[0] < b[0] || (a[0] == b[0] && LessEq(a[1..], b[1..]))))
  }

  lemma LessEqTotal(a: string, b: string)
    ensures LessEq(a, b) || LessEq(b, a)
  {
  }

  lemma LessEqTransitive(a: string, b: string, c: string)
    requires LessEq(a, b) && LessEq(b, c)
    ensures LessEq(a, c)
  {
  }

  lemma LessEqAntisymmetric(a: string, b: string)
    requires LessEq(a, b) && LessEq(b, a)
    ensures a == b
  {
  }

  predicate Sorted(s: seq<string>) {
    forall i, j :: 0 <= i < j < |s| ==> LessEq(s[i], s[j])
  }

  /** Inserts `x` into a sorted sequence, before the first element it does
      not exceed. */
  function Insert(x: string, s: seq<string>): (r: seq<string>)
    requires Sorted(s)
    ensures Sorted(r)
    ensures multiset(r) == multiset(s) + multiset{x}
    ensures |r| == |s| + 1
    decreases |s|
  {
    if |s| == 0 then [x]
    else if LessEq(x, s[0]) then
      assert forall j :: 0 <= j < |s| ==> LessEq(x, s[j]) by {
        forall j | 0 <= j < |s| ensures LessEq(x, s[j]) {
          if j > 0 { LessEqTransitive(x, s[0], s[j]); }
        }
      }
      [x] + s
    else
      var rest := Insert(x, s[1..]);
      assert forall k :: 0 <= k < |rest| ==> LessEq(s[0], rest[k]) by {
        forall k | 0 <= k < |rest| ensures LessEq(s[0], rest[k]) {
          LessEqTotal(x, s[0]);
          assert rest[k] in multiset(rest);
          if rest[k] != x {
            assert rest[k] in multiset(s[1..]);
            var m :| 0 <= m < |s[1..]| && s[1..][m] == rest[k];
            assert s[m + 1] == rest[k];
          }
        }
      }
      assert s == [s[0]] + s[1..];
      [s[0]] + rest
  }

  /** Python's `sorted` on a list of strings. */
  function Sort(s: seq<string>): (r: seq<string>)
    ensures Sorted(r)
    ensures multiset(r) == multiset(s)
    ensures |r| == |s|
    decreases |s|
  {
    if |s| == 0 then []
    else
      assert s == s[..|s| - 1] + [s[|s| - 1]];
      Insert(s[|s| - 1], Sort(s[..|s| - 1]))
  }

  /** There is only one sorted arrangement of a multiset of strings, so a
      sorted result does not depend on the order its elements were found in. */
  lemma {:induction false} SortedUnique(a: seq<string>, b: seq<string>)
    requires Sorted(a) && Sorted(b)
    requires multiset(a) == multiset(b)
    ensures a == b
    decreases |a|
  {
    assert |b| == |multiset(b)| == |multiset(a)| == |a|;
    if |a| > 0 {
      HeadIsLeast(a, b[0]);
      HeadIsLeast(b, a[0]);
      LessEqAntisymmetric(a[0], b[0]);
      var a', b' := a[1..], b[1..];
      assert a == [a[0]] + a';
      assert b == [b[0]] + b';
      calc {
        multiset(a');
        multiset(a) - multiset{a[0]};
        multiset(b) - multiset{b[0]};
        multiset(b');
      }
      SortedUnique(a', b');
    }
  }

  /** The first element of a sorted sequence is below every element. */
  lemma HeadIsLeast(s: seq<string>, x: string)
    requires Sorted(s)
    requires x in multiset(s)
    ensures LessEq(s[0], x)
  {
    var i :| 0 <= i < |s| && s[i] == x;
    if i == 0 {
      LessEqTotal(x, x);
    }
  }

  /** Sorting twice is the same as sorting once. */
  lemma SortOfSorted(s: seq<string>)
    requires Sorted(s)
    ensures Sort(s) == s
  {
    SortedUnique(Sort(s), s);
  }

  // ----- splitting at a separator -----

  /** Index of the first `sep` in `s`, or `|s|` when there is none. */
  function FirstIndexOf(s: string, sep: char): (k: nat)
    ensures k <= |s|
    ensures k < |s| ==> s[k] == sep
    ensures forall i :: 0 <= i < k ==> s[i] != sep
    decreases |s|
  {
    if |s| == 0 || s[0] == sep then 0 else 1 + FirstIndexOf(s[1..], sep)
  }

  /** JavaScript's `s.split(sep)` for a one-character separator. */
  function Split(s: string, sep: char): (r: seq<string>)
    ensures |r| > 0
    decreases |s|
  {
    var k := FirstIndexOf(s, sep);
    if k == |s| then [s] else [s[..k]] + Split(s[k + 1..], sep)
  }

  predicate Lacks(s: string, c: char) {
    forall i :: 0 <= i < |s| ==> s[i] != c
  }

  /** Splitting `a + [sep] + rest` where `a` lacks `sep` yields `a` first. */
  lemma {:induction false} SplitAfterPlain(a: string, sep: char, rest: string)
    requires Lacks(a, sep)
    ensures Split(a + [sep] + rest, sep) == [a] + Split(rest, sep)
  {
    var s := a + [sep] + rest;
    FirstIndexOfPlain(a, sep, [sep] + rest);
    assert s == a + ([sep] + rest);
    assert s[..|a|] == a;
    assert s[|a| + 1..] == rest;
  }

  /** Splitting a string that lacks the separator yields just that string. */
  lemma SplitPlain(a: string, sep: char)
    requires Lacks(a, sep)
    ensures Split(a, sep) == [a]
  {
    FirstIndexOfPlain(a, sep, "");
    assert a + "" == a;
  }

  lemma {:induction false} FirstIndexOfPlain(a: string, sep: char, rest: string)
    requires Lacks(a, sep)
    requires |rest| == 0 || rest[0] == sep
    ensures FirstIndexOf(a + rest, sep) == |a|
    decreases |a|
  {
    if |a| > 0 {
      assert (a + rest)[1..] == a[1..] + rest;
      FirstIndexOfPlain(a[1..], sep, rest);
    }
  }
}
