/**
 * The pieces of Python's `str` and `pathlib` that the build wrapper relies on:
 * `startswith`, `endswith`, `find`, `split` on one separator character, `join`,
 * the lines `readlines` yields, and POSIX path parsing with `name`, `parent`
 * and the `/` operator.
 */
module PyText {
  import opened Common

  predicate StartsWith(s: string, prefix: string)
  {
    |prefix| <= |s| && s[..|prefix|] == prefix
  }

  predicate EndsWith(s: string, c: char)
  {
    |s| > 0 && s[|s| - 1] == c
  }

  /** `sep` occurs in `s` at index `i`. */
  predicate OccursAt(s: string, sep: string, i: nat)
  {
    i + |sep| <= |s| && s[i..i + |sep|] == sep
  }

  /** `s.find(sep, from)`: the first index at or after `from` where `sep` occurs. */
  function Find(s: string, sep: string, from: nat): (r: Option<nat>)
    decreases |s| - from
    ensures r.None? <==> forall i :: from <= i ==> !OccursAt(s, sep, i)
    ensures r.Some? ==> from <= r.value && OccursAt(s, sep, r.value)
                        && forall i :: from <= i < r.value ==> !OccursAt(s, sep, i)
  {
    if from + |sep| > |s| then None
    else if s[from..from + |sep|] == sep then assert OccursAt(s, sep, from); Some(from)
    else Find(s, sep, from + 1)
  }

  /** The index of the first `c` in `s`. */
  function IndexOf(s: string, c: char): (i: nat)
    requires c in s
    ensures i < |s| && s[i] == c && c !in s[..i]
  {
    if s[0] == c then 0 else 1 + IndexOf(s[1..], c)
  }

  /** `s.split(c)` for a one-character separator: every occurrence splits, empty
      parts are kept, and the empty string gives one empty part. */
  function Split(s: string, c: char): (parts: seq<string>)
    decreases |s|
    ensures |parts| > 0
  {
    if c !in s then [s]
    else
      var i := IndexOf(s, c);
      [s[..i]] + Split(s[i + 1..], c)
  }

  /** `sep.join(parts)`. */
  function Join(parts: seq<string>, sep: string): string
  {
    if |parts| == 0 then ""
    else if |parts| == 1 then parts[0]
    else parts[0] + sep + Join(parts[1..], sep)
  }

  /** Joining the parts of a split with its separator gives the string back. */
  lemma {:induction false} JoinSplit(s: string, c: char)
    ensures Join(Split(s, c), [c]) == s
    decreases |s|
  {
    if c in s {
      var i := IndexOf(s, c);
      JoinSplit(s[i + 1..], c);
      assert s == s[..i] + [c] + s[i + 1..];
    }
  }

  /** No part of a split holds the separator. */
  lemma {:induction false} SplitPartsFree(s: string, c: char)
    ensures forall k :: 0 <= k < |Split(s, c)| ==> c !in Split(s, c)[k]
    decreases |s|
  {
    if c in s {
      var i := IndexOf(s, c);
      SplitPartsFree(s[i + 1..], c);
    }
  }

  /** Splitting a join of separator-free parts gives the parts back. */
  lemma {:induction false} SplitJoin(parts: seq<string>, c: char)
    requires |parts| > 0
    requires forall k :: 0 <= k < |parts| ==> c !in parts[k]
    ensures Split(Join(parts, [c]), c) == parts
  {
    if |parts| > 1 {
      var rest := Join(parts[1..], [c]);
      var s := parts[0] + [c] + rest;
      assert s[..|parts[0]|] == parts[0];
      assert s[|parts[0]|] == c;
      assert s[|parts[0]| + 1..] == rest;
      assert IndexOf(s, c) == |parts[0]| by {
        IndexOfPrefix(parts[0], [c] + rest, c);
        assert s == parts[0] + ([c] + rest);
      }
      SplitJoin(parts[1..], c);
    }
  }

  lemma {:induction false} IndexOfPrefix(a: string, b: string, c: char)
    requires c !in a && |b| > 0 && b[0] == c
    ensures c in a + b && IndexOf(a + b, c) == |a|
  {
    assert (a + b)[|a|] == c;
    if |a| > 0 {
      assert (a + b)[1..] == a[1..] + b;
      IndexOfPrefix(a[1..], b, c);
    }
  }

  /** The last part of a split is the tail of the string after the last separator. */
  lemma {:induction false} SplitLast(s: string, c: char)
    ensures var last := Split(s, c)[|Split(s, c)| - 1];
            |last| <= |s| && last == s[|s| - |last|..] && (|last| < |s| ==> s[|s| - |last| - 1] == c)
    decreases |s|
  {
    if c in s {
      var i := IndexOf(s, c);
      var rest := s[i + 1..];
      SplitLast(rest, c);
      var tail := Split(rest, c);
      var last := tail[|tail| - 1];
      assert Split(s, c) == [s[..i]] + tail;
      assert Split(s, c)[|Split(s, c)| - 1] == last;
      assert rest[|rest| - |last|..] == s[|s| - |last|..];
      if |last| < |rest| {
        assert s[|s| - |last| - 1] == rest[|rest| - |last| - 1];
      } else {
        assert |s| - |last| - 1 == i;
      }
    }
  }

  /** The lines `readlines()` yields: each ends just after a newline, except a
      final line without one. */
  function ReadLines(text: string): seq<string>
    decreases |text|
  {
    if |text| == 0 then []
    else if '\n' !in text then [text]
    else
      var i := IndexOf(text, '\n');
      [text[..i + 1]] + ReadLines(text[i + 1..])
  }

  function Concat(lines: seq<string>): string
  {
    if |lines| == 0 then "" else lines[0] + Concat(lines[1..])
  }

  /** The lines put together are the text, none is empty, every line but the last
      ends with a newline and no line holds a newline anywhere else. */
  lemma {:induction false} ReadLinesShape(text: string)
    ensures Concat(ReadLines(text)) == text
    ensures forall k :: 0 <= k < |ReadLines(text)| ==> |ReadLines(text)[k]| > 0
    ensures forall k :: 0 <= k < |ReadLines(text)| - 1 ==> EndsWith(ReadLines(text)[k], '\n')
    ensures forall k :: 0 <= k < |ReadLines(text)| ==>
              '\n' !in ReadLines(text)[k][..|ReadLines(text)[k]| - 1]
    decreases |text|
  {
    if '\n' in text {
      var i := IndexOf(text, '\n');
      ReadLinesShape(text[i + 1..]);
      assert text == text[..i + 1] + text[i + 1..];
      assert text[..i + 1][..i] == text[..i];
    }
  }

  /** A text with newlines only at line ends is read back as those lines. */
  lemma {:induction false} ReadLinesOfLine(line: string, rest: string)
    requires '\n' !in line
    ensures ReadLines(line + "\n" + rest) == [line + "\n"] + ReadLines(rest)
  {
    var t := line + "\n" + rest;
    IndexOfPrefix(line, "\n" + rest, '\n');
    assert t == line + ("\n" + rest);
    assert t[..|line| + 1] == line + "\n";
    assert t[|line| + 1..] == rest;
  }

  /** A POSIX path as `pathlib.PurePosixPath` keeps it: rooted or not, and its
      components without empty and `.` ones. */
  datatype PurePath = PurePath(absolute: bool, parts: seq<string>)

  function CleanParts(ps: seq<string>): (r: seq<string>)
    ensures forall k :: 0 <= k < |r| ==> r[k] != "" && r[k] != "."
  {
    if |ps| == 0 then []
    else
      var done := CleanParts(ps[..|ps| - 1]);
      var p := ps[|ps| - 1];
      if p == "" || p == "." then done else done + [p]
  }

  /** `P(s)`. */
  function ParsePath(s: string): PurePath
  {
    PurePath(|s| > 0 && s[0] == '/', CleanParts(Split(s, '/')))
  }

  /** `str(path)`. */
  function PathStr(p: PurePath): string
  {
    if !p.absolute && p.parts == [] then "."
    else (if p.absolute then "/" else "") + Join(p.parts, "/")
  }

  /** `path.name`: the last component, or empty for `.` and `/`. */
  function Name(p: PurePath): string
  {
    if |p.parts| == 0 then "" else p.parts[|p.parts| - 1]
  }

  /** `path.parent`. */
  function Parent(p: PurePath): PurePath
  {
    if |p.parts| == 0 then p else p.(parts := p.parts[..|p.parts| - 1])
  }

  /** `a / b`: an absolute right-hand side replaces the left one. */
  function JoinPath(a: PurePath, b: PurePath): PurePath
  {
    if b.absolute then b else PurePath(a.absolute, a.parts + b.parts)
  }

  /** The name of a path string ending in a character other than `/` and `.`
      ends in that character. */
  lemma NameEndsWith(s: string, x: char)
    requires x != '/' && x != '.' && EndsWith(s, x)
    ensures EndsWith(Name(ParsePath(s)), x)
  {
    var q := Split(s, '/');
    var last := q[|q| - 1];
    SplitLast(s, '/');
    assert |last| > 0;
    assert last[|last| - 1] == x;
    assert last != "." by {
      assert "."[0] == '.';
    }
    assert q == q[..|q| - 1] + [last];
  }
}
