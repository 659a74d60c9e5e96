/**
 Node's POSIX `path.extname`, which `runScript` uses to decide whether an
 existing path is a JavaScript file.
 */
module NodePath {

  /** The length of `p[..n]` once its trailing `/` characters are removed. */
  function TrimmedLength(p: string, n: nat): (k: nat)
    requires n <= |p|
    ensures k <= n
    ensures k == 0 || p[k - 1] != '/'
    ensures forall i :: k <= i < n ==> p[i] == '/'
  {
    if n > 0 && p[n - 1] == '/' then TrimmedLength(p, n - 1) else n
  }

  /** The path with its trailing `/` characters removed. */
  function TrimTrailingSlashes(p: string): (r: string)
    ensures r <= p
    ensures |r| == 0 || r[|r| - 1] != '/'
    ensures forall i :: |r| <= i < |p| ==> p[i] == '/'
  {
    p[..TrimmedLength(p, |p|)]
  }

  /** Where the part of `t[..n]` after its last `/` starts. */
  function ComponentStart(t: string, n: nat): (k: nat)
    requires n <= |t|
    ensures k <= n
    ensures forall i :: k <= i < n ==> t[i] != '/'
    ensures k == 0 || t[k - 1] == '/'
  {
    if n == 0 || t[n - 1] == '/' then n else ComponentStart(t, n - 1)
  }

  /** The part of `t` after its last `/` (all of `t` when it has none). */
  function LastComponent(t: string): (c: string)
    ensures |c| <= |t| && c == t[|t| - |c|..]
    ensures forall i :: 0 <= i < |c| ==> c[i] != '/'
    ensures |c| == |t| || t[|t| - |c| - 1] == '/'
  {
    t[ComponentStart(t, |t|)..]
  }

  /** The index of the last `.` in `c[..n]`, or -1 when there is none. */
  function LastDotBefore(c: string, n: nat): (d: int)
    requires n <= |c|
    ensures -1 <= d < n
    ensures d >= 0 ==> c[d] == '.'
    ensures forall i :: d < i < n ==> c[i] != '.'
  {
    if n == 0 then -1
    else if c[n - 1] == '.' then n - 1
    else LastDotBefore(c, n - 1)
  }

  /** The index of the last `.` in `c`, or -1 when there is none. */
  function LastDot(c: string): (d: int)
    ensures -1 <= d < |c|
    ensures d >= 0 ==> c[d] == '.'
    ensures forall i :: d < i < |c| ==> c[i] != '.'
  {
    LastDotBefore(c, |c|)
  }

  /** The extension of the last component `c` of a trimmed path `t`: from
      the last `.` of `c` to its end, or `""` when `c` has no `.`, starts
      with its only `.`, or is `..`. The contract pins the result down: it
      is empty for `..`, and otherwise a non-empty suffix starting with its
      only `.` starts at the last `.`. */
  function ComponentExtname(t: string, c: string): (e: string)
    requires |c| <= |t| && c == t[|t| - |c|..]
    requires forall i :: 0 <= i < |c| ==> c[i] != '/'
    ensures |e| == 0 || e[0] == '.'
    ensures forall i :: 0 < i < |e| ==> e[i] != '.' && e[i] != '/'
    ensures |e| <= |t| && e == t[|t| - |e|..]
    ensures |e| > 0 ==> |e| < |c|
    ensures (exists i :: 0 < i < |c| && c[i] == '.') && c != ".." ==> |e| > 0
    ensures c == ".." ==> e == ""
  {
    var d := LastDot(c);
    if d <= 0 || c == ".." then ""
    else
      assert c[d..] == t[|t| - |c| + d..];
      c[d..]
  }

  /** `path.extname(p)` on POSIX: the extension of the last path component,
      trailing slashes ignored. */
  function Extname(p: string): (r: string)
    ensures |r| == 0 || r[0] == '.'
    ensures forall i :: 0 < i < |r| ==> r[i] != '.' && r[i] != '/'
    ensures |r| <= |TrimTrailingSlashes(p)| && r == TrimTrailingSlashes(p)[|TrimTrailingSlashes(p)| - |r|..]
    ensures |r| > 0 ==> |r| < |LastComponent(TrimTrailingSlashes(p))|
    ensures var c := LastComponent(TrimTrailingSlashes(p));
      (exists i :: 0 < i < |c| && c[i] == '.') && c != ".." ==> |r| > 0
    ensures LastComponent(TrimTrailingSlashes(p)) == ".." ==> r == ""
  {
    var t := TrimTrailingSlashes(p);
    ComponentExtname(t, LastComponent(t))
  }

  /** A path names a `.js` file exactly when, ignoring trailing slashes, it
      ends in `.js` preceded by at least one character of the same component. */
  predicate EndsWithJs(p: string) {
    var t := TrimTrailingSlashes(p);
    |t| >= 4 && t[|t| - 3..] == ".js" && t[|t| - 4] != '/'
  }

  /** The last four characters of `t` lie in its last component `c` when
      none of them is a `/`. */
  lemma JsSuffixInComponent(t: string, c: string)
    requires |c| <= |t| && c == t[|t| - |c|..]
    requires |c| == |t| || t[|t| - |c| - 1] == '/'
    requires |t| >= 4 && t[|t| - 3..] == ".js" && t[|t| - 4] != '/'
    ensures |c| >= 4 && c[|c| - 3..] == ".js"
  {
    assert |c| >= 4;
    assert c[|c| - 3..] == t[|t| - 3..];
  }

  /** A component ending in `.js` has its last dot three from the end. */
  lemma LastDotOfJs(c: string, d: int)
    requires |c| >= 4 && c[|c| - 3..] == ".js"
    requires -1 <= d < |c| && (d >= 0 ==> c[d] == '.')
    requires forall i :: d < i < |c| ==> c[i] != '.'
    ensures d == |c| - 3
  {
    assert c[|c| - 3] == c[|c| - 3..][0] == '.';
    assert c[|c| - 2] == c[|c| - 3..][1] == 'j';
    assert c[|c| - 1] == c[|c| - 3..][2] == 's';
  }

  /** A last component ending in `.js` has the extension `.js`. */
  lemma JsComponentExtname(t: string, c: string)
    requires |c| <= |t| && c == t[|t| - |c|..]
    requires forall i :: 0 <= i < |c| ==> c[i] != '/'
    requires |c| >= 4 && c[|c| - 3..] == ".js"
    ensures ComponentExtname(t, c) == ".js"
  {
    LastDotOfJs(c, LastDot(c));
  }

  lemma JsSuffixGivesJsExtname(p: string)
    requires EndsWithJs(p)
    ensures Extname(p) == ".js"
  {
    var t := TrimTrailingSlashes(p);
    var c := LastComponent(t);
    JsSuffixInComponent(t, c);
    JsComponentExtname(t, c);
  }

  /** A `.js` that is a proper suffix of a component without `/` ends the
      whole path with a non-`/` character before it. */
  lemma ComponentSuffixInPath(t: string, c: string, r: string)
    requires |c| <= |t| && c == t[|t| - |c|..]
    requires forall i :: 0 <= i < |c| ==> c[i] != '/'
    requires r == ".js" && |r| < |c| && r == t[|t| - |r|..]
    ensures |t| >= 4 && t[|t| - 3..] == ".js" && t[|t| - 4] != '/'
  {
    assert t[|t| - 4] == c[|c| - 4];
  }

  lemma JsExtnameGivesJsSuffix(p: string)
    requires Extname(p) == ".js"
    ensures EndsWithJs(p)
  {
    var t := TrimTrailingSlashes(p);
    ComponentSuffixInPath(t, LastComponent(t), Extname(p));
  }

  /** `path.extname(p) === '.js'` exactly when `p` ends in a `.js` that is
      not the whole last component. */
  lemma ExtnameIsJs(p: string)
    ensures Extname(p) == ".js" <==> EndsWithJs(p)
  {
    if EndsWithJs(p) {
      JsSuffixGivesJsExtname(p);
    }
    if Extname(p) == ".js" {
      JsExtnameGivesJsSuffix(p);
    }
  }

  /** A file name that is only a leading `.` and a suffix has no extension. */
  lemma ExtnameOfHiddenFile()
    ensures Extname(".js") == ""
  {
    var p := ".js";
    assert p[0] == '.' && p[1] == 'j' && p[2] == 's';
    assert TrimmedLength(p, 3) == 3;
    assert TrimTrailingSlashes(p) == p;
    assert LastComponent(p) == p;
    assert LastDot(p) == 0;
  }

  /** A script path ending in `.js` has the extension `.js`. */
  lemma ExtnameOfScript()
    ensures Extname("/tmp/hook.js") == ".js"
  {
    var p := "/tmp/hook.js";
    assert TrimTrailingSlashes(p) == p;
    assert EndsWithJs(p);
    ExtnameIsJs(p);
  }
}
