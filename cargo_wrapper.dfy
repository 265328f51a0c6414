/**
 * The build wrapper's deterministic logic: the Makefile-style dependency file it
 * rewrites after a build (every `lib.rs` source gains its crate's `Cargo.toml`),
 * and the cargo command line it assembles from its parsed options.
 *
 * The dependency file's text and whether a path exists are parameters; running
 * cargo, globbing and copying are outside the model.
 */
module CargoWrapper {
  import opened Common
  import opened PyText

  /** The separator between a rule's output and its sources. */
  const SEP := ": "

  /** The exception `output, srcs = l.split(": ", maxsplit=2)` raises. */
  datatype DepfileError = ValueError

  ghost predicate NoSep(s: string)
  {
    forall i: nat :: !OccursAt(s, SEP, i)
  }

  /** `SEP` occurs once in `s` and nowhere else. */
  ghost predicate UniqueSep(s: string)
  {
    exists i: nat :: OccursAt(s, SEP, i) && forall j: nat :: j != i ==> !OccursAt(s, SEP, j)
  }

  /** `a, b = l.split(": ", maxsplit=2)`: the unpacking succeeds only when the
      split yields exactly two parts. */
  function SplitPair(l: string): Result<(string, string), DepfileError>
  {
    match Find(l, SEP, 0)
    case None => Err(ValueError)
    case Some(i) =>
      if Find(l, SEP, i + 2).Some? then Err(ValueError)
      else Ok((l[..i], l[i + 2..]))
  }

  lemma OccursInPrefix(x: string, y: string, k: nat)
    requires k + 2 <= |x|
    ensures OccursAt(x + y, SEP, k) == OccursAt(x, SEP, k)
  {
    assert (x + y)[k..k + 2] == x[k..k + 2];
  }

  lemma OccursInSuffix(x: string, y: string, k: nat)
    ensures OccursAt(x + y, SEP, |x| + k) == OccursAt(y, SEP, k)
  {
    if k + 2 <= |y| {
      assert (x + y)[|x| + k..|x| + k + 2] == y[k..k + 2];
    }
  }

  /** `": "` cannot overlap itself. */
  lemma NoOverlap(l: string, i: nat)
    requires OccursAt(l, SEP, i)
    ensures !OccursAt(l, SEP, i + 1)
  {
    assert l[i + 1] == l[i..i + 2][1] == ' ';
    if i + 3 <= |l| {
      assert l[i + 1..i + 3][0] == l[i + 1];
    }
  }

  /** Two strings without the separator joined give none, unless the first ends
      in `:` and the second starts with a space. */
  lemma NoSepAppend(x: string, y: string)
    requires NoSep(x) && NoSep(y)
    requires !(EndsWith(x, ':') && |y| > 0 && y[0] == ' ')
    ensures NoSep(x + y)
  {
    forall i: nat ensures !OccursAt(x + y, SEP, i) {
      if i + 2 <= |x| {
        OccursInPrefix(x, y, i);
      } else if i >= |x| {
        OccursInSuffix(x, y, i - |x|);
      } else if i + 2 <= |x + y| {
        assert (x + y)[i..i + 2][0] == x[i];
        assert (x + y)[i..i + 2][1] == y[0];
      }
    }
  }

  /** The split succeeds exactly when the separator occurs once, and then the line
      is the two parts around it, neither of which holds the separator. */
  lemma SplitPairSpec(l: string)
    ensures SplitPair(l).Ok? <==> UniqueSep(l)
    ensures SplitPair(l).Ok? ==>
              var (a, b) := SplitPair(l).value;
              l == a + SEP + b && NoSep(a) && NoSep(b)
  {
    match Find(l, SEP, 0)
    case None =>
      NotUniqueWithoutSep(l);
    case Some(i) =>
      match Find(l, SEP, i + 2)
      case Some(j) =>
        NotUniqueWithTwo(l, i, j);
      case None =>
        NoOverlap(l, i);
        assert forall j: nat :: j != i ==> !OccursAt(l, SEP, j);
        UniqueWithOnly(l, i);
        PartsAroundOnlySep(l, i);
  }

  lemma UniqueWithOnly(l: string, i: nat)
    requires OccursAt(l, SEP, i) && forall j: nat :: j != i ==> !OccursAt(l, SEP, j)
    ensures UniqueSep(l)
  {
  }

  lemma NotUniqueWithoutSep(l: string)
    requires forall i: nat :: !OccursAt(l, SEP, i)
    ensures !UniqueSep(l)
  {
  }

  lemma NotUniqueWithTwo(l: string, i: nat, j: nat)
    requires OccursAt(l, SEP, i) && OccursAt(l, SEP, j) && i != j
    ensures !UniqueSep(l)
  {
  }

  /** Around the only occurrence of the separator lie two parts without it. */
  lemma PartsAroundOnlySep(l: string, i: nat)
    requires OccursAt(l, SEP, i) && forall j: nat :: j != i ==> !OccursAt(l, SEP, j)
    ensures l == l[..i] + SEP + l[i + 2..] && NoSep(l[..i]) && NoSep(l[i + 2..])
  {
    var a, b := l[..i], l[i + 2..];
    assert l == a + (SEP + b) && l == (a + SEP) + b;
    forall k: nat ensures !OccursAt(a, SEP, k) {
      if k + 2 <= |a| { OccursInPrefix(a, SEP + b, k); }
    }
    forall k: nat ensures !OccursAt(b, SEP, k) {
      OccursInSuffix(a + SEP, b, k);
    }
  }


  /** A line `a: b` with no other separator splits into `a` and `b`. */
  lemma SplitPairOfRule(a: string, b: string)
    requires NoSep(a) && NoSep(b)
    ensures SplitPair(a + SEP + b) == Ok((a, b))
  {
    var l := a + SEP + b;
    assert l == a + (SEP + b);
    assert OccursAt(l, SEP, |a|) by {
      assert l[|a|..|a| + 2] == SEP;
    }
    forall i: nat | i < |a| ensures !OccursAt(l, SEP, i) {
      if i + 2 <= |a| {
        OccursInPrefix(a, SEP + b, i);
      } else {
        assert l[i..i + 2][1] == l[|a|] == ':';
      }
    }
    NoOverlap(l, |a|);
    forall j: nat | |a| + 2 <= j ensures !OccursAt(l, SEP, j) {
      OccursInSuffix(a + SEP, b, j - |a| - 2);
    }
    assert l[..|a|] == a;
    assert l[|a| + 2..] == b;
  }

  /** One rule line split into its output and its sources string; a line that
      ends in `:` has no sources. */
  function SplitRule(l: string): Result<(string, string), DepfileError>
  {
    if EndsWith(l, ':') then Ok((l[..|l| - 1], "")) else SplitPair(l)
  }

  /** The relative path `Cargo.toml`. */
  const CARGO_TOML := PurePath(false, ["Cargo.toml"])

  lemma CargoTomlParsed()
    ensures ParsePath("Cargo.toml") == CARGO_TOML
  {
    assert '/' !in "Cargo.toml";
    assert ["Cargo.toml"][..0] == [];
  }

  /** `src.parent.parent / 'Cargo.toml'` as a string. */
  function CargoTomlFor(src: string): string
  {
    PathStr(JoinPath(Parent(Parent(ParsePath(src))), CARGO_TOML))
  }

  /** The source's file name is `lib.rs`. */
  predicate IsLibRs(src: string)
  {
    Name(ParsePath(src)) == "lib.rs"
  }

  /** The manifest added after a source: its crate's `Cargo.toml` when the
      source is a `lib.rs` and that manifest exists. */
  function ManifestOf(src: string, pathExists: string -> bool): Option<string>
  {
    if IsLibRs(src) && pathExists(CargoTomlFor(src)) then Some(CargoTomlFor(src)) else None
  }

  function Manifests(pathExists: string -> bool): string -> Option<string>
  {
    src => ManifestOf(src, pathExists)
  }

  /** A source, followed by its manifest if it has one. */
  function WithManifest(src: string, manifest: string -> Option<string>): seq<string>
  {
    match manifest(src)
    case None => [src]
    case Some(toml) => [src, toml]
  }

  /** A source that is not a `lib.rs` is joined on its own. */
  lemma PlainSourceJoined(src: string, pathExists: string -> bool)
    requires !IsLibRs(src)
    ensures Manifests(pathExists)(src) == None
    ensures Join(WithManifest(src, Manifests(pathExists)), " ") == src
  {
  }

  /** A source that still carries the line's newline is never a `lib.rs`. */
  lemma NewlineNotLibRs(src: string)
    requires EndsWith(src, '\n')
    ensures !IsLibRs(src)
  {
    NameEndsWith(src, '\n');
    assert "lib.rs"[5] != '\n';
  }

  /** `all_deps` for a list of sources, in order. */
  function Deps(srcs: seq<string>, manifest: string -> Option<string>): seq<string>
  {
    if |srcs| == 0 then [] else Deps(srcs[..|srcs| - 1], manifest) + WithManifest(srcs[|srcs| - 1], manifest)
  }

  /** The rule line that replaces a line of the dependency file. */
  function RuleText(l: string, pathExists: string -> bool): Result<string, DepfileError>
  {
    match SplitRule(l)
    case Err(e) => Err(e)
    case Ok((output, srcs)) => Ok(output + SEP + Join(Deps(Split(srcs, ' '), Manifests(pathExists)), " ") + "\n")
  }

  /** The text one line contributes: nothing unless it starts with the stem. */
  function LineText(stem: string, l: string, pathExists: string -> bool): Result<string, DepfileError>
  {
    if StartsWith(l, stem) then RuleText(l, pathExists) else Ok("")
  }

  /** Two contributions one after the other; the first error wins. */
  function AndThen(r1: Result<string, DepfileError>, r2: Result<string, DepfileError>): Result<string, DepfileError>
  {
    match r1
    case Err(e) => Err(e)
    case Ok(x) => match r2
      case Err(e) => Err(e)
      case Ok(y) => Ok(x + y)
  }

  lemma AndThenAssoc(r1: Result<string, DepfileError>, r2: Result<string, DepfileError>, r3: Result<string, DepfileError>)
    ensures AndThen(AndThen(r1, r2), r3) == AndThen(r1, AndThen(r2, r3))
  {
    if r1.Ok? && r2.Ok? && r3.Ok? {
      assert r1.value + r2.value + r3.value == r1.value + (r2.value + r3.value);
    }
  }

  lemma AndThenUnit(r: Result<string, DepfileError>)
    ensures AndThen(Ok(""), r) == r && AndThen(r, Ok("")) == r
  {
    if r.Ok? {
      assert "" + r.value == r.value && r.value + "" == r.value;
    }
  }

  /** `depfile_content` after the given lines, or the error the first malformed
      line of the stem raises. */
  function DepfileOf(stem: string, lines: seq<string>, pathExists: string -> bool): Result<string, DepfileError>
  {
    if |lines| == 0 then Ok("")
    else AndThen(DepfileOf(stem, lines[..|lines| - 1], pathExists), LineText(stem, lines[|lines| - 1], pathExists))
  }

  /** The body of the inner loop: the source, then its manifest if it is a
      `lib.rs` whose manifest exists. */
  method SourceDeps(src: string, pathExists: string -> bool) returns (deps: seq<string>)
    ensures deps == WithManifest(src, Manifests(pathExists))
  {
    deps := [src];
    if IsLibRs(src) {
      var cargoToml := CargoTomlFor(src);
      if pathExists(cargoToml) {
        deps := deps + [cargoToml];
        assert Manifests(pathExists)(src) == Some(cargoToml);
      } else {
        assert Manifests(pathExists)(src) == None;
      }
    } else {
      assert Manifests(pathExists)(src) == None;
    }
  }

  /** All dependencies of the sources, as the inner loop collects them. */
  method AllDeps(srcs: seq<string>, pathExists: string -> bool) returns (allDeps: seq<string>)
    ensures allDeps == Deps(srcs, Manifests(pathExists))
  {
    allDeps := [];
    var j := 0;
    while j < |srcs|
      invariant 0 <= j <= |srcs|
      invariant allDeps == Deps(srcs[..j], Manifests(pathExists))
    {
      assert srcs[..j + 1][..j] == srcs[..j];
      var deps := SourceDeps(srcs[j], pathExists);
      allDeps := allDeps + deps;
      j := j + 1;
    }
    assert srcs[..j] == srcs;
  }

  /** The body of the loop over the lines, for a line that starts with the stem. */
  method RuleLine(l: string, pathExists: string -> bool) returns (r: Result<string, DepfileError>)
    ensures r == RuleText(l, pathExists)
  {
    var output, srcs;
    if EndsWith(l, ':') {
      output, srcs := l[..|l| - 1], "";
    } else {
      var parts := SplitPair(l);
      if parts.Err? {
        return Err(ValueError);
      }
      output, srcs := parts.value.0, parts.value.1;
    }
    var allDeps := AllDeps(Split(srcs, ' '), pathExists);
    r := Ok(output + SEP + Join(allDeps, " ") + "\n");
  }

  /** `generate_depfile_for`, given the text of `<file_stem>.d` and an `exists()` oracle. */
  method GenerateDepfileFor(fileStem: string, text: string, pathExists: string -> bool)
    returns (r: Result<string, DepfileError>)
    ensures r == DepfileOf(fileStem, ReadLines(text), pathExists)
  {
    var lines := ReadLines(text);
    var content := "";
    var i := 0;
    while i < |lines|
      invariant 0 <= i <= |lines|
      invariant DepfileOf(fileStem, lines[..i], pathExists) == Ok(content)
    {
      var l := lines[i];
      assert lines[..i + 1][..i] == lines[..i];
      assert DepfileOf(fileStem, lines[..i + 1], pathExists) == AndThen(Ok(content), LineText(fileStem, l, pathExists));
      if StartsWith(l, fileStem) {
        var t := RuleLine(l, pathExists);
        if t.Err? {
          DepfileOfAppend(fileStem, lines[..i + 1], lines[i + 1..], pathExists);
          assert lines[..i + 1] + lines[i + 1..] == lines;
          return t;
        }
        content := content + t.value;
      } else {
        assert content + "" == content;
      }
      i := i + 1;
    }
    assert lines[..i] == lines;
    r := Ok(content);
  }

  /** The lines of a concatenation contribute one after the other. */
  lemma {:induction false} DepfileOfAppend(stem: string, a: seq<string>, b: seq<string>, pathExists: string -> bool)
    ensures DepfileOf(stem, a + b, pathExists) == AndThen(DepfileOf(stem, a, pathExists), DepfileOf(stem, b, pathExists))
  {
    if |b| == 0 {
      assert a + b == a;
      AndThenUnit(DepfileOf(stem, a, pathExists));
    } else {
      var n := |b| - 1;
      assert (a + b)[..|a + b| - 1] == a + b[..n];
      assert (a + b)[|a + b| - 1] == b[n];
      DepfileOfAppend(stem, a, b[..n], pathExists);
      AndThenAssoc(DepfileOf(stem, a, pathExists), DepfileOf(stem, b[..n], pathExists), LineText(stem, b[n], pathExists));
    }
  }

  /** A line that does not start with the stem changes nothing wherever it stands. */
  lemma IgnoresOtherLines(stem: string, a: seq<string>, l: string, b: seq<string>, pathExists: string -> bool)
    requires !StartsWith(l, stem)
    ensures DepfileOf(stem, a + [l] + b, pathExists) == DepfileOf(stem, a + b, pathExists)
  {
    DepfileOfAppend(stem, a + [l], b, pathExists);
    DepfileOfAppend(stem, a, [l], pathExists);
    DepfileOfAppend(stem, a, b, pathExists);
    assert [l][..0] == [];
    AndThenUnit(Ok(""));
    AndThenUnit(DepfileOf(stem, a, pathExists));
  }

  /** The sources of a concatenation yield their dependencies one after the other. */
  lemma {:induction false} DepsAppend(a: seq<string>, b: seq<string>, manifest: string -> Option<string>)
    ensures Deps(a + b, manifest) == Deps(a, manifest) + Deps(b, manifest)
  {
    if |b| == 0 {
      assert a + b == a;
    } else {
      var n := |b| - 1;
      assert (a + b)[..|a + b| - 1] == a + b[..n];
      DepsAppend(a, b[..n], manifest);
    }
  }

  /** Every source is kept; at most one manifest follows each. */
  lemma {:induction false} DepsLength(srcs: seq<string>, manifest: string -> Option<string>)
    ensures |srcs| <= |Deps(srcs, manifest)| <= 2 * |srcs|
  {
    if |srcs| > 0 {
      DepsLength(srcs[..|srcs| - 1], manifest);
    }
  }

  /** Sources without a manifest are their own dependencies. */
  lemma {:induction false} DepsWithoutManifests(srcs: seq<string>, manifest: string -> Option<string>)
    requires forall k :: 0 <= k < |srcs| ==> manifest(srcs[k]) == None
    ensures Deps(srcs, manifest) == srcs
  {
    if |srcs| > 0 {
      var init := srcs[..|srcs| - 1];
      assert forall k :: 0 <= k < |init| ==> init[k] == srcs[k];
      DepsWithoutManifests(init, manifest);
      assert srcs == init + [srcs[|srcs| - 1]];
    }
  }

  /** Only a `lib.rs` source gets a manifest, and it is that crate's `Cargo.toml`. */
  lemma ManifestOnlyForLibRs(src: string, pathExists: string -> bool)
    ensures Manifests(pathExists)(src).Some? <==> IsLibRs(src) && pathExists(CargoTomlFor(src))
    ensures Manifests(pathExists)(src).Some? ==> Manifests(pathExists)(src).value == CargoTomlFor(src)
  {
  }



  /** A rule with a single source gives that source, with the manifest after a
      `lib.rs` one. */
  lemma RuleOfOneSource(output: string, src: string, pathExists: string -> bool)
    requires NoSep(output) && NoSep(src)
    requires ' ' !in src && !EndsWith(src, ':')
    ensures RuleText(output + SEP + src, pathExists) == Ok(output + SEP + Join(WithManifest(src, Manifests(pathExists)), " ") + "\n")
  {
    var l := output + SEP + src;
    SplitPairOfRule(output, src);
    if |src| == 0 {
      assert l[|l| - 1] == ' ';
    } else {
      assert l[|l| - 1] == src[|src| - 1];
    }
    assert SplitRule(l) == Ok((output, src));
    assert Split(src, ' ') == [src];
    assert [src][..0] == [];
    assert Deps([src], Manifests(pathExists)) == [] + WithManifest(src, Manifests(pathExists)) == WithManifest(src, Manifests(pathExists));
  }

  // ---------------------------------------------------------------------------
  // Two consequences of `readlines()` keeping each line's newline.

  /** A path without newline, space or separator that does not end in `:`. */
  ghost predicate PlainPath(s: string)
  {
    '\n' !in s && ' ' !in s && !EndsWith(s, ':') && NoSep(s)
  }

  /** The newline-terminated line `line` read on its own. */
  lemma OneLine(stem: string, line: string, pathExists: string -> bool)
    requires '\n' !in line && StartsWith(line, stem)
    ensures DepfileOf(stem, ReadLines(line + "\n"), pathExists) == RuleText(line + "\n", pathExists)
  {
    ReadLinesOfLine(line, "");
    assert line + "\n" + "" == line + "\n";
    var l: string := line + "\n";
    assert ReadLines(l) == [l];
    assert l[..|stem|] == line[..|stem|];
    assert [l][..0] == [];
    AndThenUnit(RuleText(l, pathExists));
  }

  lemma NoSepNewline(s: string)
    requires NoSep(s)
    ensures NoSep(s + "\n")
  {
    assert NoSep("\n");
    NoSepAppend(s, "\n");
  }

  /** As written, an `output:` rule followed by a newline raises: the line ends in
      the newline, not in `:`, and holds no `": "`. */
  lemma EmptyRuleRaises(stem: string, pathExists: string -> bool)
    requires PlainPath(stem)
    ensures DepfileOf(stem, ReadLines(stem + ":\n"), pathExists) == Err(ValueError)
  {
    assert stem + ":\n" == (stem + ":") + "\n";
    assert (stem + ":")[..|stem|] == stem;
    OneLine(stem, stem + ":", pathExists);
    assert NoSep(":\n") by {
      assert ":\n"[1] != SEP[1];
    }
    NoSepAppend(stem, ":\n");
    assert !EndsWith(stem + ":\n", ':');
  }

  /** As written, a `lib.rs` that is the last source of its line keeps the newline
      in its name, so its manifest is never added. */
  lemma LastLibRsLosesManifest(stem: string, src: string, pathExists: string -> bool)
    requires PlainPath(stem) && PlainPath(src)
    requires IsLibRs(src)
    ensures DepfileOf(stem, ReadLines(stem + SEP + src + "\n"), pathExists)
            == Ok(stem + SEP + src + "\n" + "\n")
  {
    var line := stem + SEP + src;
    assert line[..|stem|] == stem;
    OneLine(stem, line, pathExists);
    var s' := src + "\n";
    assert line + "\n" == stem + SEP + s';
    NoSepNewline(src);
    RuleOfOneSource(stem, s', pathExists);
    NewlineNotLibRs(s');
    PlainSourceJoined(s', pathExists);
  }

  // ---------------------------------------------------------------------------
  // The evidently intended reading: drop the line terminator before splitting.

  function StripNewline(l: string): string
  {
    if EndsWith(l, '\n') then l[..|l| - 1] else l
  }

  /** `LineText` with the line's newline removed before it is split. */
  function LineTextFixed(stem: string, l: string, pathExists: string -> bool): Result<string, DepfileError>
  {
    if StartsWith(l, stem) then RuleText(StripNewline(l), pathExists) else Ok("")
  }

  /** `DepfileOf` with every line's newline removed before it is split. */
  function DepfileOfFixed(stem: string, lines: seq<string>, pathExists: string -> bool): Result<string, DepfileError>
  {
    if |lines| == 0 then Ok("")
    else AndThen(DepfileOfFixed(stem, lines[..|lines| - 1], pathExists), LineTextFixed(stem, lines[|lines| - 1], pathExists))
  }

  lemma OneLineFixed(stem: string, line: string, pathExists: string -> bool)
    requires '\n' !in line && StartsWith(line, stem)
    ensures DepfileOfFixed(stem, ReadLines(line + "\n"), pathExists) == RuleText(line, pathExists)
  {
    ReadLinesOfLine(line, "");
    assert line + "\n" + "" == line + "\n";
    var l: string := line + "\n";
    assert ReadLines(l) == [l];
    assert l[..|stem|] == line[..|stem|];
    assert StripNewline(l) == line;
    assert [l][..0] == [];
    AndThenUnit(RuleText(line, pathExists));
  }

  /** With the newline dropped, an `output:` line gives a rule with no sources. */
  lemma FixedEmptyRule(stem: string, pathExists: string -> bool)
    requires PlainPath(stem)
    ensures DepfileOfFixed(stem, ReadLines(stem + ":\n"), pathExists) == Ok(stem + SEP + "\n")
  {
    assert stem + ":\n" == (stem + ":") + "\n";
    assert (stem + ":")[..|stem|] == stem;
    OneLineFixed(stem, stem + ":", pathExists);
    assert SplitRule(stem + ":") == Ok((stem, ""));
    NoSources(pathExists);
    assert stem + SEP + "" + "\n" == stem + SEP + "\n";
  }

  /** An empty sources string stands for one empty source, which is not `lib.rs`. */
  lemma NoSources(pathExists: string -> bool)
    ensures Join(Deps(Split("", ' '), Manifests(pathExists)), " ") == ""
  {
    assert Split("", ' ') == [""];
    assert Split("", '/') == [""];
    assert [""][..0] == [];
    assert CleanParts([""]) == [];
    assert Name(ParsePath("")) == "";
    assert Deps([""], Manifests(pathExists)) == [""];
  }

  /** A `lib.rs` source whose manifest exists is joined with it. */
  lemma LibRsJoined(src: string, pathExists: string -> bool)
    requires IsLibRs(src) && pathExists(CargoTomlFor(src))
    ensures Join(WithManifest(src, Manifests(pathExists)), " ") == src + " " + CargoTomlFor(src)
  {
    var toml := CargoTomlFor(src);
    assert WithManifest(src, Manifests(pathExists)) == [src, toml];
    assert [src, toml][1..] == [toml];
  }

  /** With the newline dropped, a last `lib.rs` source is followed by its manifest. */
  lemma FixedLastLibRs(stem: string, src: string, pathExists: string -> bool)
    requires PlainPath(stem) && PlainPath(src)
    requires IsLibRs(src) && pathExists(CargoTomlFor(src))
    ensures DepfileOfFixed(stem, ReadLines(stem + SEP + src + "\n"), pathExists)
            == Ok(stem + SEP + src + " " + CargoTomlFor(src) + "\n")
  {
    var line := stem + SEP + src;
    assert line[..|stem|] == stem;
    OneLineFixed(stem, line, pathExists);
    RuleOfLibRs(stem, src, pathExists);
  }

  lemma RuleOfLibRs(stem: string, src: string, pathExists: string -> bool)
    requires PlainPath(stem) && PlainPath(src)
    requires IsLibRs(src) && pathExists(CargoTomlFor(src))
    ensures RuleText(stem + SEP + src, pathExists) == Ok(stem + SEP + src + " " + CargoTomlFor(src) + "\n")
  {
    RuleOfOneSource(stem, src, pathExists);
    LibRsJoined(src, pathExists);
    Regroup(stem, src, CargoTomlFor(src));
  }

  lemma Regroup(stem: string, src: string, toml: string)
    ensures stem + SEP + (src + " " + toml) + "\n" == stem + SEP + src + " " + toml + "\n"
  {
  }

  /** On lines that carry no newline the two readings agree. */
  lemma {:induction false} FixedAgreesWithoutNewlines(stem: string, lines: seq<string>, pathExists: string -> bool)
    requires forall k :: 0 <= k < |lines| ==> !EndsWith(lines[k], '\n')
    ensures DepfileOfFixed(stem, lines, pathExists) == DepfileOf(stem, lines, pathExists)
  {
    if |lines| > 0 {
      FixedAgreesWithoutNewlines(stem, lines[..|lines| - 1], pathExists);
    }
  }

  // ---------------------------------------------------------------------------
  // The cargo command line.

  datatype Command = Build | Test
  datatype Target = Release | Debug

  /** The parsed options the command line depends on; path options are strings
      that `argparse` turns into `pathlib` paths. */
  datatype Options = Options(
    command: Command,
    srcDir: string,
    target: Target,
    includes: string,
    prefix: string,
    libdir: string,
    bin: Option<string>,
    disableDoc: bool)

  /** `-p X` for every package, in order. */
  function PackageArgs(packages: seq<string>): seq<string>
  {
    if |packages| == 0 then [] else PackageArgs(packages[..|packages| - 1]) + ["-p", packages[|packages| - 1]]
  }

  lemma {:induction false} PackageArgsShape(packages: seq<string>)
    ensures |PackageArgs(packages)| == 2 * |packages|
    ensures forall k :: 0 <= k < |packages| ==>
              PackageArgs(packages)[2 * k] == "-p" && PackageArgs(packages)[2 * k + 1] == packages[k]
  {
    if |packages| > 0 {
      PackageArgsShape(packages[..|packages| - 1]);
    }
  }

  /** The subcommand and its flags. */
  function CommandHead(opts: Options): seq<string>
  {
    match opts.command
    case Build =>
      ["cargo"]
      + (if opts.bin.Some? then ["build"] else ["cbuild"] + (if opts.disableDoc then [] else ["--features", "doc"]))
      + (if opts.target == Release then ["--release"] else [])
    case Test => ["cargo", "ctest", "--no-fail-fast", "--color=always"]
  }

  /** The arguments after the subcommand and its flags. */
  function CommonSuffix(opts: Options): seq<string>
  {
    if opts.bin.None? then
      ["--manifest-path", PathStr(JoinPath(ParsePath(opts.srcDir), CARGO_TOML)),
       "--prefix", PathStr(ParsePath(opts.prefix)),
       "--libdir", PathStr(JoinPath(ParsePath(opts.prefix), ParsePath(opts.libdir)))]
      + PackageArgs(Split(opts.includes, ','))
    else ["--bin", Name(ParsePath(opts.bin.value))]
  }

  /** Appends `-p X` for every package. */
  method AppendPackages(cmd: seq<string>, packages: seq<string>) returns (r: seq<string>)
    ensures r == cmd + PackageArgs(packages)
  {
    r := cmd;
    var i := 0;
    while i < |packages|
      invariant 0 <= i <= |packages|
      invariant r == cmd + PackageArgs(packages[..i])
    {
      assert packages[..i + 1][..i] == packages[..i];
      r := r + ["-p", packages[i]];
      i := i + 1;
    }
    assert packages[..i] == packages;
  }

  /** The first part of `cargo_cmd`, chosen by the command. */
  method CargoSubcommand(opts: Options) returns (cmd: seq<string>)
    ensures cmd == CommandHead(opts)
  {
    match opts.command {
      case Build =>
        cmd := ["cargo"];
        if opts.bin.Some? {
          cmd := cmd + ["build"];
        } else {
          cmd := cmd + ["cbuild"];
          if !opts.disableDoc {
            cmd := cmd + ["--features", "doc"];
          }
        }
        if opts.target == Release {
          cmd := cmd + ["--release"];
        }
      case Test =>
        cmd := ["cargo", "ctest", "--no-fail-fast", "--color=always"];
    }
  }

  /** The `cargo_cmd` list and the working directory cargo runs in. */
  method CargoCommand(opts: Options) returns (cmd: seq<string>, cwd: Option<string>)
    ensures cmd == CommandHead(opts) + CommonSuffix(opts)
    ensures cwd == if opts.bin.Some? then Some(PathStr(ParsePath(opts.srcDir))) else None
  {
    cmd := CargoSubcommand(opts);
    cwd := None;
    if opts.bin.None? {
      cmd := cmd + ["--manifest-path", PathStr(JoinPath(ParsePath(opts.srcDir), CARGO_TOML))];
      cmd := cmd + ["--prefix", PathStr(ParsePath(opts.prefix)), "--libdir",
                    PathStr(JoinPath(ParsePath(opts.prefix), ParsePath(opts.libdir)))];
      cmd := AppendPackages(cmd, Split(opts.includes, ','));
    } else {
      cmd := cmd + ["--bin", Name(ParsePath(opts.bin.value))];
      cwd := Some(PathStr(ParsePath(opts.srcDir)));
    }
  }

  /** What the command line says: which cargo subcommand runs, that a release
      build asks for `--release`, and that every comma-separated entry of
      `include` becomes one `-p` argument, in order. */
  lemma CommandShape(opts: Options)
    ensures var cmd := CommandHead(opts) + CommonSuffix(opts);
            && cmd[0] == "cargo"
            && cmd[1] == (if opts.command == Test then "ctest" else if opts.bin.Some? then "build" else "cbuild")
            && (opts.command == Build ==> ("--release" in CommandHead(opts) <==> opts.target == Release))
            && (opts.command == Build && opts.bin.None? ==> ("--features" in CommandHead(opts) <==> !opts.disableDoc))
  {
  }

  lemma PackagesFromInclude(opts: Options)
    requires opts.bin.None?
    ensures var ps := Split(opts.includes, ',');
            var suffix := CommonSuffix(opts);
            |suffix| == 6 + 2 * |ps|
            && forall k :: 0 <= k < |ps| ==> suffix[6 + 2 * k] == "-p" && suffix[7 + 2 * k] == ps[k]
  {
    PackageArgsShape(Split(opts.includes, ','));
  }
}
