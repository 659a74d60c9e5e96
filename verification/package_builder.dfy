/**
 The dependency filter of the packaging example's `PackageBuilder`
 (examples/babel-then-package-to-zip/build/PackageBuilder.js:39-63): which
 folders `npm ls` reports are copied into the archive.
 */
module PackageBuilder {
  import Js

  /** The characters of the regular expression `/[/\\]/`. */
  predicate IsSeparator(c: char) {
    c == '/' || c == '\\'
  }

  /** How many characters of `s` satisfy `isSep`. */
  function Count(s: string, isSep: char -> bool): nat {
    if |s| == 0 then 0 else (if isSep(s[0]) then 1 else 0) + Count(s[1..], isSep)
  }

  /** `s.split(re)` for a regular expression matching exactly the single
      characters satisfying `isSep`: the maximal runs between separators,
      including empty ones at either end. */
  function Split(s: string, isSep: char -> bool): (parts: seq<string>)
    ensures |parts| == Count(s, isSep) + 1
    ensures forall i, j :: 0 <= i < |parts| && 0 <= j < |parts[i]| ==> !isSep(parts[i][j])
    decreases |s|
  {
    if |s| == 0 then [""]
    else
      var rest := Split(s[1..], isSep);
      if isSep(s[0]) then [""] + rest
      else
        var first := [s[0]] + rest[0];
        assert forall j :: 0 < j < |first| ==> first[j] == rest[0][j - 1];
        [first] + rest[1..]
  }

  /** `s` with every `\` written as `/`. */
  function NormalizeSeparators(s: string): (r: string)
    ensures |r| == |s|
  {
    if |s| == 0 then "" else [if IsSeparator(s[0]) then '/' else s[0]] + NormalizeSeparators(s[1..])
  }

  lemma JoinCons(c: char, parts: seq<string>, sep: string)
    requires |parts| > 0
    ensures Js.Join([[c] + parts[0]] + parts[1..], sep) == [c] + Js.Join(parts, sep)
  {
    var ps := [[c] + parts[0]] + parts[1..];
    if |parts| > 1 {
      assert ps[1..] == parts[1..];
    }
  }

  /** Splitting on either separator and joining with `/` gives the path back,
      with its separators normalised. */
  lemma {:induction false} JoinSplit(s: string)
    ensures Js.Join(Split(s, IsSeparator), "/") == NormalizeSeparators(s)
    decreases |s|
  {
    if |s| > 0 {
      var rest := Split(s[1..], IsSeparator);
      JoinSplit(s[1..]);
      if IsSeparator(s[0]) {
        assert ([""] + rest)[1..] == rest;
      } else {
        JoinCons(s[0], rest, "/");
      }
    }
  }

  /** `isRootDependency(dependencyPath)`: at most two parts when split on
      either separator. */
  function IsRootDependency(dependencyPath: string): (r: bool)
    ensures r <==> Count(dependencyPath, IsSeparator) <= 1
  {
    |Split(dependencyPath, IsSeparator)| <= 2
  }

  /** `s` with `/` and `\` exchanged. */
  function SwapSeparators(s: string): (r: string)
    ensures |r| == |s|
  {
    if |s| == 0 then ""
    else [if s[0] == '/' then '\\' else if s[0] == '\\' then '/' else s[0]] + SwapSeparators(s[1..])
  }

  lemma {:induction false} SwapKeepsCount(s: string)
    ensures Count(SwapSeparators(s), IsSeparator) == Count(s, IsSeparator)
    decreases |s|
  {
    if |s| > 0 {
      var t := SwapSeparators(s);
      assert t[1..] == SwapSeparators(s[1..]);
      SwapKeepsCount(s[1..]);
    }
  }

  /** The two separators are interchangeable. */
  lemma SwapKeepsRootDependency(s: string)
    ensures IsRootDependency(SwapSeparators(s)) == IsRootDependency(s)
  {
    SwapKeepsCount(s);
  }

  lemma {:induction false} CountAppend(a: string, b: string, isSep: char -> bool)
    ensures Count(a + b, isSep) == Count(a, isSep) + Count(b, isSep)
    decreases |a|
  {
    if |a| == 0 {
      assert a + b == b;
    } else {
      var h := if isSep(a[0]) then 1 else 0;
      assert (a + b)[0] == a[0] && (a + b)[1..] == a[1..] + b;
      assert Count(a + b, isSep) == h + Count(a[1..] + b, isSep);
      CountAppend(a[1..], b, isSep);
    }
  }

  lemma {:induction false} CountNone(a: string, isSep: char -> bool)
    requires forall i :: 0 <= i < |a| ==> !isSep(a[i])
    ensures Count(a, isSep) == 0
    decreases |a|
  {
    if |a| > 0 {
      CountNone(a[1..], isSep);
    }
  }

  /** No separators, no count. */
  predicate SeparatorFree(s: string) {
    forall i :: 0 <= i < |s| ==> !IsSeparator(s[i])
  }

  lemma CountWithSeparator(a: string, b: string)
    requires SeparatorFree(a) && SeparatorFree(b)
    ensures Count(a + "/" + b, IsSeparator) == 1
  {
    CountNone(a, IsSeparator);
    CountNone(b, IsSeparator);
    CountAppend(a + "/", b, IsSeparator);
    CountAppend(a, "/", IsSeparator);
  }

  /** A package directly inside a dependency folder is a root dependency. */
  lemma TopLevelIsRootDependency(folder: string, name: string)
    requires SeparatorFree(folder) && SeparatorFree(name)
    ensures IsRootDependency(folder + "/" + name)
  {
    CountWithSeparator(folder, name);
  }

  /** A package nested inside another package's dependency folder is not. */
  lemma NestedIsNotRootDependency(folder: string, outer: string, inner: string)
    requires SeparatorFree(folder) && SeparatorFree(outer) && SeparatorFree(inner)
    ensures !IsRootDependency(folder + "/" + outer + "/" + folder + "/" + inner)
  {
    CountWithSeparator(folder, outer);
    CountWithSeparator(folder, inner);
    CountAppend(folder + "/" + outer + "/", folder + "/" + inner, IsSeparator);
    CountAppend(folder + "/" + outer, "/", IsSeparator);
    assert folder + "/" + outer + "/" + folder + "/" + inner
      == (folder + "/" + outer + "/") + (folder + "/" + inner);
  }

  predicate IsNewline(c: char) {
    c == '\n'
  }

  /** Splitting on newlines and joining with a newline gives the text back. */
  lemma {:induction false} JoinSplitLines(s: string)
    ensures Js.Join(Split(s, IsNewline), "\n") == s
    decreases |s|
  {
    if |s| > 0 {
      var rest := Split(s[1..], IsNewline);
      JoinSplitLines(s[1..]);
      if IsNewline(s[0]) {
        assert ([""] + rest)[1..] == rest;
        assert s == "\n" + s[1..];
      } else {
        JoinCons(s[0], rest, "\n");
        assert s == [s[0]] + s[1..];
      }
    }
  }

  /** The lines of `npm ls --parseable` output, `.split('\n')`: one more than
      there are newlines, none holding a newline, and joined back with
      newlines they give the output. */
  function DependencyFolders(npmOutput: string): (lines: seq<string>)
    ensures |lines| == Count(npmOutput, IsNewline) + 1
    ensures forall i, j :: 0 <= i < |lines| && 0 <= j < |lines[i]| ==> lines[i][j] != '\n'
    ensures Js.Join(lines, "\n") == npmOutput
  {
    JoinSplitLines(npmOutput);
    Split(npmOutput, IsNewline)
  }

  /** Whether a dependency, by its path relative to the base folder, is added:
      the base folder itself, excluded paths (compared exactly) and nested
      dependencies are skipped. */
  predicate Selected(relativePath: string, excluded: seq<string>)
    ensures Selected(relativePath, excluded) <==>
      |relativePath| > 0 && relativePath !in excluded && Count(relativePath, IsSeparator) <= 1
  {
    |relativePath| > 0 && relativePath !in excluded && IsRootDependency(relativePath)
  }

  /** The folders `addDependenciesExclude` passes to `addFolder`, in order. */
  function Included(folders: seq<string>, relative: string -> string, excluded: seq<string>): (r: seq<string>)
    ensures |r| <= |folders|
    ensures forall i :: 0 <= i < |r| ==> r[i] in folders && Selected(relative(r[i]), excluded)
    ensures (forall i :: 0 <= i < |folders| ==> Selected(relative(folders[i]), excluded)) ==> r == folders
  {
    if |folders| == 0 then []
    else
      var rest := Included(folders[1..], relative, excluded);
      if Selected(relative(folders[0]), excluded) then [folders[0]] + rest else rest
  }

  /** `a` is `b` with some elements left out. */
  predicate IsSubsequence(a: seq<string>, b: seq<string>)
    decreases |b|
  {
    |a| == 0 || (|b| > 0 && if a[0] == b[0] then IsSubsequence(a[1..], b[1..]) else IsSubsequence(a, b[1..]))
  }

  /** The included folders keep the order `npm ls` printed them in. */
  lemma {:induction false} IncludedIsSubsequence(folders: seq<string>, relative: string -> string, excluded: seq<string>)
    ensures IsSubsequence(Included(folders, relative, excluded), folders)
    decreases |folders|
  {
    if |folders| > 0 {
      var rest := Included(folders[1..], relative, excluded);
      IncludedIsSubsequence(folders[1..], relative, excluded);
      if Selected(relative(folders[0]), excluded) {
        assert ([folders[0]] + rest)[1..] == rest;
      } else if |rest| > 0 {
        // Selection depends only on the folder, so a selected folder
        // differs from the unselected first one.
        assert Included(folders, relative, excluded) == rest;
        assert Selected(relative(rest[0]), excluded);
        assert rest[0] != folders[0];
      }
    }
  }

  /** Every selected folder is included once per line it appears on, and no
      other folder is. */
  lemma {:induction false} IncludedMultiplicity(folders: seq<string>, relative: string -> string, excluded: seq<string>, f: string)
    ensures multiset(Included(folders, relative, excluded))[f] ==
      if Selected(relative(f), excluded) then multiset(folders)[f] else 0
    decreases |folders|
  {
    if |folders| > 0 {
      IncludedMultiplicity(folders[1..], relative, excluded, f);
      assert folders == [folders[0]] + folders[1..];
      assert multiset(folders) == multiset([folders[0]]) + multiset(folders[1..]);
    }
  }

  /** One step of `Included` from position `i`. */
  lemma IncludedFrom(folders: seq<string>, i: nat, relative: string -> string, excluded: seq<string>)
    requires i < |folders|
    ensures Included(folders[i..], relative, excluded) ==
      (if Selected(relative(folders[i]), excluded) then [folders[i]] else []) + Included(folders[i + 1..], relative, excluded)
  {
    assert folders[i..][0] == folders[i] && folders[i..][1..] == folders[i + 1..];
  }

  lemma AppendAssociative(a: seq<string>, b: seq<string>, c: seq<string>)
    ensures (a + b) + c == a + (b + c)
  {
  }

  /** `addDependenciesExclude(excluded)` (PackageBuilder.js:39-50), with the
      output of `npm ls` and `path.relative(baseFolder, ·)` as parameters:
      the folders passed to `addFolder`, and the lines logged for them. */
  method AddDependenciesExclude(npmOutput: string, relative: string -> string, excluded: seq<string>)
    returns (added: seq<string>, log: seq<string>)
    ensures added == Included(DependencyFolders(npmOutput), relative, excluded)
    ensures |log| == |added|
    ensures forall i :: 0 <= i < |log| ==> log[i] == "Add dependencies: " + relative(added[i])
  {
    added, log := AddFolders(DependencyFolders(npmOutput), relative, excluded);
  }

  /** The `forEach` loop of `addDependenciesExclude` over the printed folders. */
  method AddFolders(folders: seq<string>, relative: string -> string, excluded: seq<string>)
    returns (added: seq<string>, log: seq<string>)
    ensures added == Included(folders, relative, excluded)
    ensures |log| == |added|
    ensures forall i :: 0 <= i < |log| ==> log[i] == "Add dependencies: " + relative(added[i])
  {
    added, log := [], [];
    var i := 0;
    while i < |folders|
      invariant 0 <= i <= |folders|
      invariant added + Included(folders[i..], relative, excluded) == Included(folders, relative, excluded)
      invariant |log| == |added|
      invariant forall k :: 0 <= k < |log| ==> log[k] == "Add dependencies: " + relative(added[k])
    {
      var relativeFilePath := relative(folders[i]);
      IncludedFrom(folders, i, relative, excluded);
      if |relativeFilePath| > 0 && relativeFilePath !in excluded && IsRootDependency(relativeFilePath) {
        AppendAssociative(added, [folders[i]], Included(folders[i + 1..], relative, excluded));
        log := log + ["Add dependencies: " + relativeFilePath];
        added := added + [folders[i]];
      }
      i := i + 1;
    }
    assert folders[i..] == [];
    assert added + [] == added;
  }
}
