/**
 Path strings (path/path.c): comparison, joining, prefix substitution, and what
 they mean on lists of path components.
 */
module Paths {
  import opened Wrappers

  const PATH_MAX: nat := 4096

  datatype Comparison = PathsAreEqual | Path1IsPrefix | Path2IsPrefix | PathsAreNotComparable

  // ---------------------------------------------------------------------
  // Meaning: covering, on any non-empty path string
  // ---------------------------------------------------------------------

  /** The path without one trailing separator. */
  function Trim(p: string): (r: string)
  {
    if p != "" && p[|p| - 1] == '/' then p[..|p| - 1] else p
  }

  /** `q` is the location `p`, or lies below it. */
  predicate Covers(p: string, q: string) {
    var a, b := Trim(p), Trim(q);
    a <= b && (|a| == |b| || b[|a|] == '/')
  }

  predicate SameLocation(p: string, q: string) {
    Trim(p) == Trim(q)
  }

  predicate StrictlyCovers(p: string, q: string) {
    Covers(p, q) && !SameLocation(p, q)
  }

  lemma CoversTransitive(p: string, q: string, r: string)
    requires Covers(p, q) && Covers(q, r)
    ensures Covers(p, r)
  {
    var a, b, c := Trim(p), Trim(q), Trim(r);
    assert forall i :: 0 <= i < |a| ==> a[i] == b[i] == c[i];
    assert a <= c;
    if |a| < |b| {
      assert b[|a|] == c[|a|];
    }
  }

  lemma NotCoversBack(p: string, q: string, r: string)
    requires Covers(q, r) && !Covers(p, r)
    ensures !Covers(p, q)
  {
    if Covers(p, q) { CoversTransitive(p, q, r); }
  }

  lemma NotStrictlyCoversBack(p: string, q: string, r: string)
    requires Covers(q, r) && !StrictlyCovers(p, r)
    ensures !StrictlyCovers(p, q)
  {
    if StrictlyCovers(p, q) { CoversTransitive(p, q, r); }
  }

  lemma CoveredIsNotStrict(p: string, q: string)
    requires Covers(q, p)
    ensures !StrictlyCovers(p, q)
  {
  }

  /** Two paths that cover the same path are comparable. */
  lemma CoversChain(p: string, q: string, r: string)
    requires Covers(p, r) && Covers(q, r)
    ensures Covers(p, q) || Covers(q, p)
  {
    var a, b, c := Trim(p), Trim(q), Trim(r);
    if |a| <= |b| {
      assert forall i :: 0 <= i < |a| ==> a[i] == c[i] == b[i];
      assert a <= b;
      if |a| < |b| { assert b[|a|] == c[|a|]; }
    } else {
      assert forall i :: 0 <= i < |b| ==> b[i] == c[i] == a[i];
      assert b <= a;
      assert a[|b|] == c[|b|];
    }
  }

  // ---------------------------------------------------------------------
  // compare_paths2
  // ---------------------------------------------------------------------

  /** The character at `i` of a C string, including its terminator. */
  function CharAt(s: string, i: nat): char {
    if i < |s| then s[i] else '\0'
  }

  lemma TrimFront(p: string, q: string, n: nat)
    requires n == |Trim(p)| <= |Trim(q)| || n == |Trim(q)| <= |Trim(p)|
    ensures |Trim(p)| <= |Trim(q)| ==> (Trim(p) <= Trim(q) <==> p[..n] == q[..n])
    ensures |Trim(q)| <= |Trim(p)| ==> (Trim(q) <= Trim(p) <==> p[..n] == q[..n])
  {
    assert p[..n] == Trim(p)[..n] && q[..n] == Trim(q)[..n];
  }

  function ComparePaths(path1: string, path2: string): (r: Comparison)
    requires path1 != "" && path2 != ""
    ensures '\0' !in path1 && '\0' !in path2 ==>
      && (r == PathsAreEqual <==> SameLocation(path1, path2))
      && (r == Path1IsPrefix <==> StrictlyCovers(path1, path2))
      && (r == Path2IsPrefix <==> StrictlyCovers(path2, path1))
  {
    var length1 := if path1[|path1| - 1] == '/' then |path1| - 1 else |path1|;
    var length2 := if path2[|path2| - 1] == '/' then |path2| - 1 else |path2|;
    var length_min := if length1 < length2 then length1 else length2;
    var sentinel := if length1 < length2 then CharAt(path2, length_min) else CharAt(path1, length_min);
    assert path1[..length1] == Trim(path1) && path2[..length2] == Trim(path2);
    TrimFront(path1, path2, length_min);
    if sentinel != '/' && sentinel != '\0' then PathsAreNotComparable
    else if path1[..length_min] != path2[..length_min] then PathsAreNotComparable
    else if length1 == length2 then PathsAreEqual
    else if length1 < length2 then Path1IsPrefix
    else Path2IsPrefix
  }

  lemma ComparisonCovers(path1: string, path2: string)
    requires path1 != "" && path2 != ""
    requires '\0' !in path1 && '\0' !in path2
    ensures Covers(path1, path2) <==> ComparePaths(path1, path2) in {PathsAreEqual, Path1IsPrefix}
  {
  }

  // ---------------------------------------------------------------------
  // Component lists and their canonical text
  // ---------------------------------------------------------------------

  predicate IsName(c: string) {
    c != "" && '/' !in c && '\0' !in c
  }

  /** A name that a canonical path may hold. */
  predicate IsProper(c: string) {
    IsName(c) && c != "." && c != ".."
  }

  predicate Names(cs: seq<string>) {
    forall i :: 0 <= i < |cs| ==> IsName(cs[i])
  }

  predicate Canonical(cs: seq<string>) {
    forall i :: 0 <= i < |cs| ==> IsProper(cs[i])
  }

  /** "/a/b" for [a, b]; "" for []. */
  function Flat(cs: seq<string>): string {
    if cs == [] then "" else "/" + cs[0] + Flat(cs[1..])
  }

  /** The text of a canonical path: no final separator, except for "/". */
  function Render(cs: seq<string>): (r: string)
    ensures r != "" && r[0] == '/'
  {
    if cs == [] then "/" else Flat(cs)
  }

  lemma {:induction false} FlatAppend(a: seq<string>, b: seq<string>)
    ensures Flat(a + b) == Flat(a) + Flat(b)
  {
    if a == [] {
      assert a + b == b;
    } else {
      assert (a + b)[1..] == a[1..] + b;
      FlatAppend(a[1..], b);
    }
  }

  lemma {:induction false} FlatShape(cs: seq<string>)
    requires Names(cs)
    ensures '\0' !in Flat(cs)
    ensures cs != [] ==> |Flat(cs)| >= 2 && Flat(cs)[0] == '/' && Flat(cs)[|Flat(cs)| - 1] != '/'
    ensures Trim(Render(cs)) == Flat(cs)
    ensures '\0' !in Render(cs)
  {
    if cs != [] {
      FlatShape(cs[1..]);
      assert IsName(cs[0]);
      var f := Flat(cs);
      assert f == "/" + cs[0] + Flat(cs[1..]);
      if |cs| == 1 {
        assert f == "/" + cs[0];
        assert f[|f| - 1] == cs[0][|cs[0]| - 1];
      } else {
        assert f[|f| - 1] == Flat(cs[1..])[|Flat(cs[1..])| - 1];
      }
    }
  }

  lemma FlatSnoc(cs: seq<string>, c: string)
    ensures Flat(cs + [c]) == Flat(cs) + "/" + c
  {
    FlatAppend(cs, [c]);
    assert Flat([c]) == "/" + c;
    assert Flat(cs) + ("/" + c) == Flat(cs) + "/" + c;
  }

  lemma NameBoundary(x: string, s: string, y: string, t: string)
    requires IsName(x) && IsName(y)
    requires s == "" || s[0] == '/'
    requires t == "" || t[0] == '/'
    requires x + s <= y + t && (|x + s| == |y + t| || (y + t)[|x + s|] == '/')
    ensures x == y && s <= t && (|s| == |t| || t[|s|] == '/')
  {
    var u, v := x + s, y + t;
    var n, m := |x|, |y|;
    assert x == u[..n] && y == v[..m];
    assert s == u[n..] && t == v[m..];
  }

  lemma {:induction false} FlatPrefix(a: seq<string>, b: seq<string>)
    requires Names(a) && Names(b)
    requires Flat(a) <= Flat(b) && (|Flat(a)| == |Flat(b)| || Flat(b)[|Flat(a)|] == '/')
    ensures a <= b
  {
    hide Trim, Render;
    if a != [] {
      var ta, tb := Flat(a[1..]), Flat(b[1..]);
      FlatShape(a[1..]);
      FlatShape(b[1..]);
      assert Flat(a)[1..] == a[0] + ta && Flat(b)[1..] == b[0] + tb;
      NameBoundary(a[0], ta, b[0], tb);
      FlatPrefix(a[1..], b[1..]);
      assert b == [b[0]] + b[1..] && a == [a[0]] + a[1..];
    }
  }

  /** On canonical texts, covering is the prefix order of component lists. */
  lemma CoversIsComponentPrefix(a: seq<string>, b: seq<string>)
    requires Names(a) && Names(b)
    ensures Covers(Render(a), Render(b)) <==> a <= b
    ensures SameLocation(Render(a), Render(b)) <==> a == b
  {
    FlatShape(a);
    FlatShape(b);
    if Covers(Render(a), Render(b)) { FlatPrefix(a, b); }
    if a <= b {
      assert b == a + b[|a|..];
      FlatAppend(a, b[|a|..]);
      if b[|a|..] != [] { FlatShape(b[|a|..]); }
    }
    if SameLocation(Render(a), Render(b)) { FlatPrefix(a, b); FlatPrefix(b, a); }
  }

  // ---------------------------------------------------------------------
  // join_paths
  // ---------------------------------------------------------------------

  /** One turn of the loop of join_paths. */
  function JoinStep(result: string, path: string): Result<string> {
    var tail := result != "" && result[|result| - 1] == '/';
    var head := path != "" && path[0] == '/';
    var joined := if result != "" && !tail && !head then result + "/" + path
                  else if tail && head then result + path[1..]
                  else result + path;
    if |joined| + 1 >= PATH_MAX then Err(ENAMETOOLONG) else Ok(joined)
  }

  function JoinAll(paths: seq<string>): Result<string> {
    if paths == [] then Ok("")
    else match JoinAll(paths[..|paths| - 1])
      case Ok(result) => JoinStep(result, paths[|paths| - 1])
      case Err(e) => Err(e)
  }

  method JoinPaths(paths: seq<string>) returns (r: Result<string>)
    ensures r == JoinAll(paths)
  {
    var result := "";
    var i := 0;
    while i < |paths|
      invariant 0 <= i <= |paths|
      invariant JoinAll(paths[..i]) == Ok(result)
    {
      assert paths[..i + 1][..i] == paths[..i];
      var step := JoinStep(result, paths[i]);
      match step {
        case Err(e) =>
          JoinAllFails(paths, i + 1, e);
          return step;
        case Ok(joined) =>
          result := joined;
      }
      i := i + 1;
    }
    assert paths[..i] == paths;
    return Ok(result);
  }

  lemma {:induction false} JoinAllFails(paths: seq<string>, k: nat, e: nat)
    requires k <= |paths| && JoinAll(paths[..k]) == Err(e)
    ensures JoinAll(paths) == Err(e)
  {
    if k == |paths| {
      assert paths[..k] == paths;
    } else {
      var front := paths[..|paths| - 1];
      assert front[..k] == paths[..k];
      JoinAllFails(front, k, e);
    }
  }

  function Join2(a: string, b: string): Result<string> {
    JoinAll([a, b])
  }

  lemma Join2Text(a: string, b: string)
    requires a != "" && |a| + 1 < PATH_MAX
    ensures Join2(a, b) == JoinStep(a, b)
  {
    assert [a, b][..1] == [a] && [a][..0] == [];
    assert JoinAll([a]) == JoinStep("", a);
    assert "" + a == a;
  }

  /** Joining a name to a canonical path appends one component. */
  lemma JoinName(cs: seq<string>, c: string)
    requires Names(cs) && IsName(c) && |Render(cs)| + 1 < PATH_MAX
    ensures Join2(Render(cs), c)
         == if |Render(cs + [c])| + 1 >= PATH_MAX then Err(ENAMETOOLONG) else Ok(Render(cs + [c]))
  {
    Join2Text(Render(cs), c);
    FlatShape(cs);
    FlatSnoc(cs, c);
    if cs == [] {
      assert cs + [c] == [c];
      assert Flat([]) + "/" + c == "/" + c;
    }
  }

  // ---------------------------------------------------------------------
  // substitute_path_prefix
  // ---------------------------------------------------------------------

  /**
   The text `path` after its first `oldLength` characters are replaced by `newPrefix`.
   When the result does not fit, the code leaves the buffer alone (path.c:707, 726).
   */
  function SubstitutePathPrefix(path: string, oldLength: nat, newPrefix: string): string
    requires oldLength <= |path|
  {
    if |newPrefix| == 1 then
      if |path| - oldLength != 0 then path[oldLength..] else "/"
    else if oldLength == 1 then
      if |newPrefix| + |path| >= PATH_MAX then path
      else if |path| > 1 then newPrefix + path
      else newPrefix
    else if |path| - oldLength + |newPrefix| >= PATH_MAX then path
    else newPrefix + path[oldLength..]
  }

  /** The guard of the two early returns of substitute_path_prefix. */
  predicate TooLong(path: string, oldLength: nat, newPrefix: string) {
    && |newPrefix| != 1
    && if oldLength == 1 then |newPrefix| + |path| >= PATH_MAX
       else |path| - oldLength + |newPrefix| >= PATH_MAX
  }

  /** On canonical texts the substitution replaces the leading components, or does nothing at all. */
  lemma SubstituteComponents(before: seq<string>, after: seq<string>, rest: seq<string>)
    requires Names(before) && Names(after) && Names(rest)
    requires before != [] || after != []
    ensures |Render(before)| <= |Render(before + rest)|
    ensures SubstitutePathPrefix(Render(before + rest), |Render(before)|, Render(after))
         == if TooLong(Render(before + rest), |Render(before)|, Render(after)) then Render(before + rest)
            else Render(after + rest)
  {
    FlatAppend(before, rest);
    FlatAppend(after, rest);
    FlatShape(before);
    FlatShape(after);
    FlatShape(rest);
    var path := Render(before + rest);
    if before == [] {
      assert before + rest == rest;
      if rest == [] { assert after + rest == after; }
    } else {
      assert before + rest != [];
      assert path[|Render(before)|..] == Flat(rest);
      if after == [] { assert after + rest == rest; }
    }
  }

  // ---------------------------------------------------------------------
  // chop_finality
  // ---------------------------------------------------------------------

  datatype Finality = NotFinal | FinalNormal | FinalSlash | FinalDot

  /** What canonicalize returns at its first level for the components `cs`. */
  function Finish(cs: seq<string>, finality: Finality): string {
    match finality
    case FinalSlash => if cs == [] then "/" else Flat(cs) + "/"
    case FinalDot => Flat(cs) + "/."
    case _ => Render(cs)
  }

  function ChopFinality(path: string): string
    requires path != ""
    requires path[|path| - 1] == '.' ==> |path| >= 2
  {
    var length := |path|;
    if path[length - 1] == '.' then
      if length == 2 then path[..length - 1] else path[..length - 2]
    else if path[length - 1] == '/' then
      if length > 1 then path[..length - 1] else path
    else path
  }

  predicate EndsWithDot(cs: seq<string>) {
    cs != [] && cs[|cs| - 1] != "" && cs[|cs| - 1][|cs[|cs| - 1]| - 1] == '.'
  }

  /**
   The code removes the finality, as its comment says, exactly when the path does not end in a
   component that itself ends with a dot: "/mnt/v1." loses its last two characters.
   */
  lemma ChopRemovesFinality(cs: seq<string>, finality: Finality)
    requires Canonical(cs) && finality != NotFinal
    ensures Finish(cs, finality) != "" && (Finish(cs, finality)[|Finish(cs, finality)| - 1] == '.'
              ==> |Finish(cs, finality)| >= 2)
    ensures ChopFinality(Finish(cs, finality)) == Render(cs)
        <==> !(finality == FinalNormal && EndsWithDot(cs))
  {
    hide Flat, Canonical, Trim;
    if cs == [] {
      FlatOfNone();
    } else {
      LastCharacter(cs);
      ChopText(Flat(cs), finality);
    }
  }

  lemma FlatOfNone()
    ensures Flat([]) == ""
  {
  }

  /** The last character of the text is that of the last name. */
  lemma LastCharacter(cs: seq<string>)
    requires Canonical(cs) && cs != []
    ensures |Flat(cs)| >= 2 && Flat(cs)[|Flat(cs)| - 1] != '/'
    ensures Flat(cs)[|Flat(cs)| - 1] == '.' <==> EndsWithDot(cs)
    ensures EndsWithDot(cs) ==> |Flat(cs)| > 2
  {
    hide Flat;
    FlatShape(cs);
    var front, last := cs[..|cs| - 1], cs[|cs| - 1];
    assert cs == front + [last] && IsProper(last);
    FlatSnoc(front, last);
  }

  lemma ChopText(f: string, finality: Finality)
    requires |f| >= 2 && f[|f| - 1] != '/' && (f[|f| - 1] == '.' ==> |f| > 2)
    ensures ChopFinality(f + "/") == f && ChopFinality(f + "/.") == f
    ensures ChopFinality(f) == f <==> f[|f| - 1] != '.'
  {
    assert (f + "/")[..|f|] == f;
    assert (f + "/.")[..|f|] == f;
  }

  /** The smallest such path names the root after chopping. */
  lemma ChopCanReachTheRoot()
    ensures Canonical(["x."]) && Render(["x."]) == "/x." && ChopFinality("/x.") == "/"
  {
    assert IsProper("x.") by { assert "x."[0] == 'x' && "x."[1] == '.'; }
    assert Flat(["x."]) == "/" + "x." + Flat([]);
  }
}
