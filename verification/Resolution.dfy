/**
 Pathname resolution inside a virtual root, on lists of components: what canonicalize of
 path/canon.c:199-411 is to compute.
 */
module Resolution {
  import opened Collections
  import opened Wrappers
  import opened Paths

  /** MAXSYMLINKS of <sys/param.h>, 8 on some systems; nothing depends on the value. */
  const MAXSYMLINKS: nat := 20
  const NAME_MAX: nat := 255

  /**
   What is found at a canonical guest path once its binding is substituted.  `Unreachable` stands
   for an error of the substitution; the target of a link is what readlink and detranslate_path give.
   */
  datatype Node =
    | Unreachable(errno: nat)
    | Missing
    | Directory
    | Other
    | Link(target: Result<string>)

  type Filesystem = string -> Node

  /** Targets of links are not empty. */
  ghost predicate Sound(fs: Filesystem) {
    forall p :: fs(p).Link? && fs(p).target.Ok? ==> fs(p).target.value != "" && '\0' !in fs(p).target.value
  }

  // ----- Components of a path text -----

  function SkipSlashes(p: string): (r: string)
    ensures |r| <= |p| && (r != "" ==> r[0] != '/')
  {
    if p != "" && p[0] == '/' then SkipSlashes(p[1..]) else p
  }

  function NameLength(p: string): (n: nat)
    ensures n <= |p| && (p != "" && p[0] != '/' ==> n > 0)
  {
    if p == "" || p[0] == '/' then 0 else 1 + NameLength(p[1..])
  }

  /** The names between the separators. */
  function Components(p: string): seq<string>
    decreases |p|
  {
    var q := SkipSlashes(p);
    if q == "" then [] else [q[..NameLength(q)]] + Components(q[NameLength(q)..])
  }

  /** A path of separators only has one empty component. */
  function Items(p: string): (r: seq<string>)
    ensures r != []
  {
    if Components(p) == [] then [""] else Components(p)
  }

  predicate EndsWithSlash(p: string) {
    p != "" && p[|p| - 1] == '/'
  }

  // ----- Resolution -----

  /** substitute_binding_stat: is it a link?  What a path goes through must be a directory or a link. */
  function Check(fs: Filesystem, p: string, last: bool): Result<bool> {
    match fs(p)
    case Unreachable(e) => Err(e)
    case Directory => Ok(false)
    case Link(_) => Ok(true)
    case Missing => if last then Ok(false) else Err(ENOENT)
    case Other => if last then Ok(false) else Err(ENOTDIR)
  }

  function Extend(cs: seq<string>, c: string): seq<string> {
    if c == "" then cs else cs + [c]
  }

  /** The parent of a directory; that of the root is the root. */
  function Parent(cs: seq<string>): seq<string> {
    if cs == [] then [] else cs[..|cs| - 1]
  }

  /** Where a resolution ends, and how the path asked for it. */
  datatype Place = Place(cs: seq<string>, finality: Finality)

  /** The finality of the first of `items`. */
  function FinalityOf(items: seq<string>, slash: bool): Finality
    requires items != []
  {
    if |items| > 1 then NotFinal
    else if items != [""] && slash then FinalSlash
    else FinalNormal
  }

  /** Resolve `items` from the directory `cs`, at a level of recursion and after some links. */
  function Walk(fs: Filesystem, cs: seq<string>, items: seq<string>, slash: bool, deref: bool,
                level: nat, followed: nat): Result<Place>
    requires Sound(fs) && items != [] && level <= MAXSYMLINKS
    decreases MAXSYMLINKS + 1 - level, 0, 4 * |items|
  {
    var c, finality := items[0], FinalityOf(items, slash);
    if |c| >= NAME_MAX then Err(ENAMETOOLONG)
    else if c == "." then
      Continue(fs, cs, items, slash, deref, level, followed, if finality == NotFinal then NotFinal else FinalDot)
    else if c == ".." then
      Continue(fs, Parent(cs), items, slash, deref, level, followed,
               if finality == NotFinal then NotFinal else FinalSlash)
    else if |Render(Extend(cs, c))| + 1 >= PATH_MAX then Err(ENAMETOOLONG)
    else
      match Check(fs, Render(Extend(cs, c)), finality != NotFinal)
      case Err(e) => Err(e)
      case Ok(isLink) =>
        if !isLink || (finality == FinalNormal && !deref) then
          Continue(fs, Extend(cs, c), items, slash, deref, level, followed, finality)
        else
          match fs(Render(Extend(cs, c))).target
          case Err(e) => Err(e)
          case Ok(target) =>
            AfterLink(fs, cs, items, slash, deref, level, followed, finality,
                      Resolve(fs, cs, target, true, level + followed + 1))
  }

  /** Go on from where the target of a link in the directory `cs` was found. */
  function AfterLink(fs: Filesystem, cs: seq<string>, items: seq<string>, slash: bool, deref: bool,
                     level: nat, followed: nat, finality: Finality, found: Result<Place>): Result<Place>
    requires Sound(fs) && items != [] && level <= MAXSYMLINKS
    requires finality == NotFinal <==> |items| > 1
    decreases MAXSYMLINKS + 1 - level, 0, 4 * |items| - 1
  {
    match found
    case Err(e) => Err(e)
    case Ok(Place(there, _)) =>
      if there == cs then Err(ELOOP)
      else
        match Check(fs, Render(there), finality != NotFinal)
        case Err(e) => Err(e)
        case Ok(_) => Continue(fs, there, items, slash, deref, level, followed + 1, finality)
  }

  /** Go on with the items after the first one, if there are any. */
  function Continue(fs: Filesystem, cs: seq<string>, items: seq<string>, slash: bool, deref: bool,
                    level: nat, followed: nat, finality: Finality): Result<Place>
    requires Sound(fs) && items != [] && level <= MAXSYMLINKS
    requires finality == NotFinal <==> |items| > 1
    decreases MAXSYMLINKS + 1 - level, 0, 4 * |items| - 2
  {
    if finality != NotFinal then Ok(Place(cs, finality))
    else Walk(fs, cs, items[1..], slash, deref, level, followed)
  }

  /** Resolve a path from the directory `cs`, without the text at the end of the first level. */
  function Resolve(fs: Filesystem, cs: seq<string>, path: string, deref: bool, level: nat): Result<Place>
    requires Sound(fs) && path != ""
    decreases if level <= MAXSYMLINKS then MAXSYMLINKS + 1 - level else 0, 1
  {
    if level > MAXSYMLINKS then Err(ELOOP)
    else Walk(fs, if path[0] == '/' then [] else cs, Items(path), EndsWithSlash(path), deref, level, 0)
  }

  lemma WalkAtDots(fs: Filesystem, cs: seq<string>, items: seq<string>, slash: bool, deref: bool, level: nat,
                   followed: nat)
    requires Sound(fs) && items != [] && level <= MAXSYMLINKS
    ensures items[0] == "." ==>
      Walk(fs, cs, items, slash, deref, level, followed) ==
        Continue(fs, cs, items, slash, deref, level, followed, if |items| > 1 then NotFinal else FinalDot)
    ensures items[0] == ".." ==>
      Walk(fs, cs, items, slash, deref, level, followed) ==
        Continue(fs, Parent(cs), items, slash, deref, level, followed, if |items| > 1 then NotFinal else FinalSlash)
  {
  }

  // ----- Components of texts -----

  lemma {:induction false} FirstName(q: string)
    requires '\0' !in q
    ensures '/' !in q[..NameLength(q)] && '\0' !in q[NameLength(q)..]
    ensures NameLength(q) < |q| ==> q[NameLength(q)] == '/'
    ensures q != "" && q[0] != '/' ==> IsName(q[..NameLength(q)])
  {
    if q != "" && q[0] != '/' {
      FirstName(q[1..]);
      assert q == [q[0]] + q[1..];
    }
  }

  lemma {:induction false} SkippedHasNoNul(p: string)
    requires '\0' !in p
    ensures '\0' !in SkipSlashes(p)
  {
    if p != "" && p[0] == '/' {
      SkippedHasNoNul(p[1..]);
    }
  }

  lemma {:induction false} ComponentsAreNames(p: string)
    requires '\0' !in p
    ensures Names(Components(p))
    decreases |p|
  {
    var q := SkipSlashes(p);
    if q != "" {
      SkippedHasNoNul(p);
      FirstName(q);
      ComponentsAreNames(q[NameLength(q)..]);
      NamesCons(q[..NameLength(q)], Components(q[NameLength(q)..]));
    }
  }

  lemma NamesCons(c: string, cs: seq<string>)
    requires IsName(c) && Names(cs)
    ensures Names([c] + cs)
  {
  }

  /** A separator, a name, and what follows it. */
  lemma ComponentsOfName(c: string, rest: string)
    requires IsName(c) && (rest == "" || rest[0] == '/')
    ensures Components("/" + c + rest) == [c] + Components(rest)
  {
    var p := "/" + c + rest;
    assert p[1..] == c + rest && (c + rest)[0] == c[0] != '/';
    assert SkipSlashes(p) == c + rest;
    NameLengthIs(c, rest);
    assert (c + rest)[..|c|] == c && (c + rest)[|c|..] == rest;
  }

  lemma {:induction false} NameLengthIs(c: string, rest: string)
    requires '/' !in c && (rest == "" || rest[0] == '/')
    ensures NameLength(c + rest) == |c|
    decreases |c|
  {
    if c == "" {
      assert c + rest == rest;
    } else {
      assert (c + rest)[1..] == c[1..] + rest;
      NameLengthIs(c[1..], rest);
    }
  }

  lemma FlatStart(cs: seq<string>, rest: string)
    requires Names(cs) && (rest == "" || rest[0] == '/')
    ensures Flat(cs) + rest == "" || (Flat(cs) + rest)[0] == '/'
  {
    FlatShape(cs);
  }

  lemma {:induction false} ComponentsOfFlat(cs: seq<string>, rest: string)
    requires Names(cs) && (rest == "" || rest[0] == '/')
    ensures Components(Flat(cs) + rest) == cs + Components(rest)
    decreases |cs|
  {
    if cs == [] {
      assert Flat(cs) + rest == rest;
      assert cs + Components(rest) == Components(rest);
    } else {
      var tail := Flat(cs[1..]) + rest;
      assert Flat(cs) + rest == "/" + cs[0] + tail;
      FlatStart(cs[1..], rest);
      ComponentsOfFlat(cs[1..], rest);
      OneMoreName(cs, tail, Components(rest));
    }
  }

  lemma OneMoreName(cs: seq<string>, tail: string, after: seq<string>)
    requires cs != [] && Names(cs) && (tail == "" || tail[0] == '/') && Components(tail) == cs[1..] + after
    ensures Components("/" + cs[0] + tail) == cs + after
  {
    ComponentsOfName(cs[0], tail);
    HeadAndTail(cs, after);
  }

  lemma RenderIsInjective(a: seq<string>, b: seq<string>)
    requires Names(a) && Names(b)
    ensures Render(a) == Render(b) <==> a == b
  {
    CoversIsComponentPrefix(a, b);
  }

  // ----- What resolution gives -----

  /** A component that a resolved path may hold. */
  predicate IsResolvedName(c: string) {
    IsProper(c) && |c| < NAME_MAX
  }

  predicate Resolved(cs: seq<string>) {
    && (forall i {:trigger IsResolvedName(cs[i])} :: 0 <= i < |cs| ==> IsResolvedName(cs[i]))
    && |Render(cs)| + 1 < PATH_MAX
  }

  ghost predicate DirectoryAt(fs: Filesystem, cs: seq<string>, k: nat)
    requires k <= |cs|
  {
    fs(Render(cs[..k])) == Directory
  }

  /** A resolved path through directories only, itself included. */
  ghost predicate Solid(fs: Filesystem, cs: seq<string>) {
    Resolved(cs) && forall k {:trigger DirectoryAt(fs, cs, k)} :: 0 <= k <= |cs| ==> DirectoryAt(fs, cs, k)
  }

  /** Where a resolution may end: below directories, and not at a link that was to be followed. */
  ghost predicate Arrived(fs: Filesystem, cs: seq<string>, finality: Finality, deref: bool) {
    && Resolved(cs) && Solid(fs, Parent(cs)) && !fs(Render(cs)).Unreachable?
    && match finality
       case NotFinal => false
       case FinalNormal => deref ==> !fs(Render(cs)).Link?
       case FinalSlash => !fs(Render(cs)).Link?
       case FinalDot => Solid(fs, cs)
  }

  ghost predicate ArrivesIfOk(fs: Filesystem, r: Result<Place>, deref: bool) {
    r.Ok? ==> Arrived(fs, r.value.cs, r.value.finality, deref)
  }

  ghost predicate ItemsOk(items: seq<string>, cs: seq<string>) {
    Names(items) || (items == [""] && cs == [])
  }

  lemma ItemsOfPath(path: string, cs: seq<string>)
    requires '\0' !in path && path != ""
    ensures ItemsOk(Items(path), if path[0] == '/' then [] else cs)
  {
    ComponentsAreNames(path);
    if path[0] != '/' {
      assert SkipSlashes(path) == path;
    }
  }

  lemma ResolvedFront(cs: seq<string>, k: nat)
    requires Resolved(cs) && k <= |cs|
    ensures Resolved(cs[..k])
  {
    var front, rest := cs[..k], cs[k..];
    assert cs == front + rest;
    FlatAppend(front, rest);
    forall i | 0 <= i < |front|
      ensures IsResolvedName(front[i])
    {
      assert IsResolvedName(cs[i]);
    }
  }

  lemma SolidParent(fs: Filesystem, cs: seq<string>)
    requires Solid(fs, cs)
    ensures Solid(fs, Parent(cs))
  {
    if cs != [] {
      var front := cs[..|cs| - 1];
      ResolvedFront(cs, |cs| - 1);
      forall k | 0 <= k <= |front|
        ensures DirectoryAt(fs, front, k)
      {
        assert DirectoryAt(fs, cs, k);
        assert front[..k] == cs[..k];
      }
    }
  }

  lemma SolidIsDirectory(fs: Filesystem, cs: seq<string>)
    requires Solid(fs, cs)
    ensures fs(Render(cs)) == Directory
  {
    assert DirectoryAt(fs, cs, |cs|);
    assert cs[..|cs|] == cs;
  }

  /** A directory below directories. */
  lemma SolidMore(fs: Filesystem, cs: seq<string>)
    requires Resolved(cs) && Solid(fs, Parent(cs)) && fs(Render(cs)) == Directory
    ensures Solid(fs, cs)
  {
    forall k | 0 <= k <= |cs|
      ensures DirectoryAt(fs, cs, k)
    {
      if k == |cs| {
        assert cs[..k] == cs;
      } else {
        assert DirectoryAt(fs, Parent(cs), k);
        assert Parent(cs)[..k] == cs[..k];
      }
    }
  }

  lemma Extended(fs: Filesystem, cs: seq<string>, c: string)
    requires Solid(fs, cs) && (IsResolvedName(c) || (c == "" && cs == []))
    requires |Render(Extend(cs, c))| + 1 < PATH_MAX
    ensures Resolved(Extend(cs, c)) && Solid(fs, Parent(Extend(cs, c)))
  {
    if c == "" {
      assert Parent(cs) == cs;
    } else {
      assert Parent(cs + [c]) == cs;
      forall i | 0 <= i < |cs + [c]|
        ensures IsResolvedName((cs + [c])[i])
      {
        assert i < |cs| ==> IsResolvedName(cs[i]);
      }
    }
  }

  /**
   Every resolution ends at a path without ".", ".." and empty components, through directories only,
   and not at a link unless the last one was not to be followed.
   */
  lemma {:induction false} WalkArrives(fs: Filesystem, cs: seq<string>, items: seq<string>, slash: bool, deref: bool,
                                       level: nat, followed: nat)
    requires Sound(fs) && items != [] && level <= MAXSYMLINKS && ItemsOk(items, cs) && Solid(fs, cs)
    requires fs("/") == Directory
    ensures ArrivesIfOk(fs, Walk(fs, cs, items, slash, deref, level, followed), deref)
    decreases MAXSYMLINKS + 1 - level, 0, 4 * |items|
  {
    var c, finality := items[0], FinalityOf(items, slash);
    SolidParent(fs, cs);
    SolidIsDirectory(fs, cs);
    if |c| >= NAME_MAX {
    } else if c == "." {
      ContinueArrives(fs, cs, items, slash, deref, level, followed,
                      if finality == NotFinal then NotFinal else FinalDot);
    } else if c == ".." {
      SolidIsDirectory(fs, Parent(cs));
      SolidParent(fs, Parent(cs));
      ContinueArrives(fs, Parent(cs), items, slash, deref, level, followed,
                      if finality == NotFinal then NotFinal else FinalSlash);
    } else if |Render(Extend(cs, c))| + 1 >= PATH_MAX {
    } else {
      assert items == [""] || IsName(c);
      Extended(fs, cs, c);
      WalkStepArrives(fs, cs, items, slash, deref, level, followed);
    }
  }

  /** The same from the second item on. */
  lemma {:induction false} ContinueArrives(fs: Filesystem, cs: seq<string>, items: seq<string>, slash: bool,
                                           deref: bool, level: nat, followed: nat, finality: Finality)
    requires Sound(fs) && items != [] && level <= MAXSYMLINKS && (finality == NotFinal <==> |items| > 1)
    requires fs("/") == Directory && (|items| > 1 ==> Names(items) && Solid(fs, cs))
    requires finality != NotFinal ==> Arrived(fs, cs, finality, deref)
    ensures ArrivesIfOk(fs, Continue(fs, cs, items, slash, deref, level, followed, finality), deref)
    decreases MAXSYMLINKS + 1 - level, 0, 4 * |items| - 2
  {
    if finality == NotFinal {
      assert forall i :: 0 <= i < |items[1..]| ==> items[1..][i] == items[i + 1];
      WalkArrives(fs, cs, items[1..], slash, deref, level, followed);
    }
  }

  lemma {:induction false} WalkStepArrives(fs: Filesystem, cs: seq<string>, items: seq<string>, slash: bool,
                                           deref: bool, level: nat, followed: nat)
    requires Sound(fs) && items != [] && level <= MAXSYMLINKS && ItemsOk(items, cs) && Solid(fs, cs)
    requires fs("/") == Directory && |items[0]| < NAME_MAX && items[0] != "." && items[0] != ".."
    requires |Render(Extend(cs, items[0]))| + 1 < PATH_MAX
    requires Resolved(Extend(cs, items[0])) && Solid(fs, Parent(Extend(cs, items[0])))
    ensures ArrivesIfOk(fs, Walk(fs, cs, items, slash, deref, level, followed), deref)
    decreases MAXSYMLINKS + 1 - level, 0, 4 * |items|, 1
  {
    var finality := FinalityOf(items, slash);
    var next := Extend(cs, items[0]);
    var check := Check(fs, Render(next), finality != NotFinal);
    if check.Ok? {
      if !check.value || (finality == FinalNormal && !deref) {
        if finality == NotFinal {
          SolidMore(fs, next);
        }
        ContinueArrives(fs, next, items, slash, deref, level, followed, finality);
      } else if fs(Render(next)).target.Ok? {
        LinkArrives(fs, cs, items, slash, deref, level, followed, fs(Render(next)).target.value);
      }
    }
  }

  lemma {:induction false} LinkArrives(fs: Filesystem, cs: seq<string>, items: seq<string>, slash: bool,
                                       deref: bool, level: nat, followed: nat, target: string)
    requires Sound(fs) && items != [] && level <= MAXSYMLINKS && (|items| > 1 ==> Names(items))
    requires fs("/") == Directory && Solid(fs, cs) && target != "" && '\0' !in target
    ensures ArrivesIfOk(fs, AfterLink(fs, cs, items, slash, deref, level, followed, FinalityOf(items, slash),
                                      Resolve(fs, cs, target, true, level + followed + 1)), deref)
    decreases MAXSYMLINKS + 1 - level, 0, 4 * |items|, 0
  {
    ResolveArrives(fs, cs, target, true, level + followed + 1);
    AfterLinkArrives(fs, cs, items, slash, deref, level, followed,
                     Resolve(fs, cs, target, true, level + followed + 1));
  }

  /** Going on from the place of a link that was followed. */
  lemma {:induction false} AfterLinkArrives(fs: Filesystem, cs: seq<string>, items: seq<string>, slash: bool,
                                            deref: bool, level: nat, followed: nat, found: Result<Place>)
    requires Sound(fs) && items != [] && level <= MAXSYMLINKS && (|items| > 1 ==> Names(items))
    requires fs("/") == Directory && ArrivesIfOk(fs, found, true)
    ensures ArrivesIfOk(fs, AfterLink(fs, cs, items, slash, deref, level, followed, FinalityOf(items, slash), found),
                        deref)
    decreases MAXSYMLINKS + 1 - level, 0, 4 * |items| - 1
  {
    var finality := FinalityOf(items, slash);
    if found.Ok? && found.value.cs != cs && Check(fs, Render(found.value.cs), finality != NotFinal).Ok? {
      ArrivedGoesOn(fs, found.value.cs, found.value.finality, finality, deref);
      ContinueArrives(fs, found.value.cs, items, slash, deref, level, followed + 1, finality);
    }
  }

  /** Where links were followed to the end, there is none. */
  lemma ArrivedStops(fs: Filesystem, cs: seq<string>, finality: Finality)
    requires Arrived(fs, cs, finality, true)
    ensures !fs(Render(cs)).Link?
  {
    if finality == FinalDot {
      SolidIsDirectory(fs, cs);
    }
  }

  /** The place of a followed link serves as a directory to go through, or as an end. */
  lemma ArrivedGoesOn(fs: Filesystem, there: seq<string>, f: Finality, finality: Finality, deref: bool)
    requires Arrived(fs, there, f, true) && Check(fs, Render(there), finality != NotFinal).Ok?
    requires finality != FinalDot
    ensures finality == NotFinal ==> Solid(fs, there)
    ensures finality != NotFinal ==> Arrived(fs, there, finality, deref)
  {
    ArrivedStops(fs, there, f);
    if finality == NotFinal {
      SolidMore(fs, there);
    }
  }

  lemma RootIsSolid(fs: Filesystem)
    requires fs("/") == Directory
    ensures Solid(fs, [])
  {
    assert Render([]) == "/";
    assert DirectoryAt(fs, [], 0);
  }

  lemma {:induction false} ResolveArrives(fs: Filesystem, cs: seq<string>, path: string, deref: bool, level: nat)
    requires Sound(fs) && path != "" && '\0' !in path && fs("/") == Directory && (path[0] != '/' ==> Solid(fs, cs))
    ensures ArrivesIfOk(fs, Resolve(fs, cs, path, deref, level), deref)
    decreases if level <= MAXSYMLINKS then MAXSYMLINKS + 1 - level else 0, 1
  {
    if level <= MAXSYMLINKS {
      var base := if path[0] == '/' then [] else cs;
      ItemsOfPath(path, base);
      RootIsSolid(fs);
      WalkArrives(fs, base, Items(path), EndsWithSlash(path), deref, level, 0);
    }
  }

  // ----- Resolving a resolved path again -----

  /** Going down a path whose parents are directories and whose end is not a link to follow. */
  lemma {:induction false} WalkDown(fs: Filesystem, cs: seq<string>, n: nat, slash: bool, deref: bool)
    requires Sound(fs) && Resolved(cs) && n < |cs| && Solid(fs, Parent(cs))
    requires !fs(Render(cs)).Unreachable?
    requires (slash || deref) ==> !fs(Render(cs)).Link?
    ensures Walk(fs, cs[..n], cs[n..], slash, deref, 0, 0)
         == Ok(Place(cs, if slash then FinalSlash else FinalNormal))
    decreases |cs| - n
  {
    var c, next := cs[n], cs[..n + 1];
    assert IsResolvedName(cs[n]);
    assert Extend(cs[..n], c) == next;
    ResolvedFront(cs, n + 1);
    assert cs[n..][1..] == cs[n + 1..];
    if n + 1 == |cs| {
      assert next == cs && cs[n..] == [c];
      assert [c] != [""];
    } else {
      assert DirectoryAt(fs, Parent(cs), n + 1);
      assert Parent(cs)[..n + 1] == next;
      WalkDown(fs, cs, n + 1, slash, deref);
    }
  }

  /** The same with a final ".". */
  lemma {:induction false} WalkDownDot(fs: Filesystem, cs: seq<string>, n: nat, deref: bool)
    requires Sound(fs) && n <= |cs| && Solid(fs, cs)
    ensures Walk(fs, cs[..n], cs[n..] + ["."], false, deref, 0, 0) == Ok(Place(cs, FinalDot))
    decreases |cs| - n
  {
    var items := cs[n..] + ["."];
    if n == |cs| {
      assert items == ["."] && cs[..n] == cs;
    } else {
      var c, next := cs[n], cs[..n + 1];
      assert IsResolvedName(cs[n]);
      assert Extend(cs[..n], c) == next;
      ResolvedFront(cs, n + 1);
      assert DirectoryAt(fs, cs, n + 1);
      assert items[1..] == cs[n + 1..] + ["."] && items[0] == c;
      WalkDownDot(fs, cs, n + 1, deref);
    }
  }

  lemma ItemsOfFinish(cs: seq<string>, finality: Finality)
    requires Resolved(cs) && finality != NotFinal
    ensures Finish(cs, finality) != "" && Finish(cs, finality)[0] == '/'
    ensures Items(Finish(cs, finality)) == if finality == FinalDot then cs + ["."] else if cs == [] then [""] else cs
    ensures EndsWithSlash(Finish(cs, finality)) <==> (finality == FinalSlash || (cs == [] && finality == FinalNormal))
  {
    assert forall i :: 0 <= i < |cs| ==> IsResolvedName(cs[i]);
    FlatShape(cs);
    match finality
    case FinalSlash => ItemsOfSlash(cs);
    case FinalDot => ItemsOfDot(cs);
    case FinalNormal => ItemsOfNormal(cs);
  }

  lemma ItemsOfNormal(cs: seq<string>)
    requires Names(cs)
    ensures Items(Render(cs)) == if cs == [] then [""] else cs
    ensures EndsWithSlash(Render(cs)) <==> cs == []
  {
    FlatShape(cs);
    if cs == [] {
      assert Components("/") == [];
    } else {
      ComponentsOfFlat(cs, "");
      assert Flat(cs) + "" == Flat(cs) && cs + Components("") == cs;
    }
  }

  lemma ItemsOfSlash(cs: seq<string>)
    requires Names(cs)
    ensures Items(Finish(cs, FinalSlash)) == if cs == [] then [""] else cs
    ensures EndsWithSlash(Finish(cs, FinalSlash))
  {
    assert Components("/") == [];
    if cs != [] {
      ComponentsOfFlat(cs, "/");
      assert cs + Components("/") == cs;
    }
  }

  lemma ItemsOfDot(cs: seq<string>)
    requires Names(cs)
    ensures Items(Finish(cs, FinalDot)) == cs + ["."]
    ensures !EndsWithSlash(Finish(cs, FinalDot))
  {
    ComponentsOfFlat(cs, "/.");
    ComponentsOfDot();
  }

  lemma ComponentsOfDot()
    ensures Components("/.") == ["."]
  {
    ComponentsOfName(".", "");
    assert "/" + "." + "" == "/." && Components("") == [];
  }

  /** Resolving the text of a resolution gives this text again: canonicalization is idempotent. */
  lemma Idempotent(fs: Filesystem, base: seq<string>, path: string, deref: bool, other: seq<string>)
    requires Sound(fs) && path != "" && '\0' !in path && fs("/") == Directory && Solid(fs, base)
    requires Resolve(fs, base, path, deref, 0).Ok?
    ensures var place := Resolve(fs, base, path, deref, 0).value;
      var text := Finish(place.cs, place.finality);
      && text != ""
      && var again := Resolve(fs, other, text, deref, 0);
         again.Ok? && again.value.cs == place.cs && Finish(again.value.cs, again.value.finality) == text
  {
    ResolveArrives(fs, base, path, deref, 0);
    var place := Resolve(fs, base, path, deref, 0).value;
    ItemsOfFinish(place.cs, place.finality);
    AgainFromRoot(fs, place, deref);
  }

  lemma AgainFromRoot(fs: Filesystem, place: Place, deref: bool)
    requires Sound(fs) && fs("/") == Directory && Arrived(fs, place.cs, place.finality, deref)
    ensures var cs, f := place.cs, place.finality;
      var items := if f == FinalDot then cs + ["."] else if cs == [] then [""] else cs;
      var slash := f == FinalSlash || (cs == [] && f == FinalNormal);
      var again := Walk(fs, [], items, slash, deref, 0, 0);
      again.Ok? && again.value.cs == cs && Finish(cs, again.value.finality) == Finish(cs, f)
  {
    var cs, f := place.cs, place.finality;
    assert cs[..0] == [] && cs[0..] == cs;
    if f == FinalDot {
      WalkDownDot(fs, cs, 0, deref);
    } else if cs == [] {
      assert Render(Extend([], "")) == "/";
    } else {
      WalkDown(fs, cs, 0, f == FinalSlash, deref);
    }
  }

  // ----- Names on any filesystem -----

  /** Names, and if `proper` then neither "." nor "..". */
  ghost predicate Good(proper: bool, cs: seq<string>) {
    Names(cs) && (proper ==> Canonical(cs))
  }

  ghost predicate NamesIfOk(r: Result<Place>, proper: bool) {
    r.Ok? ==> Good(proper, r.value.cs) && r.value.finality != NotFinal
  }

  lemma NamesExtended(cs: seq<string>, items: seq<string>, proper: bool)
    requires Good(proper, cs) && items != [] && ItemsOk(items, cs)
    ensures items[0] != "." && items[0] != ".." ==> Good(proper, Extend(cs, items[0]))
    ensures Good(proper, Parent(cs))
    ensures |items| > 1 ==> Names(items[1..])
  {
    assert Names(items) ==> IsName(items[0]);
  }

  lemma {:induction false} WalkNames(fs: Filesystem, cs: seq<string>, items: seq<string>, slash: bool, deref: bool,
                                     level: nat, followed: nat, proper: bool)
    requires Sound(fs) && items != [] && level <= MAXSYMLINKS && ItemsOk(items, cs) && Good(proper, cs)
    ensures NamesIfOk(Walk(fs, cs, items, slash, deref, level, followed), proper)
    decreases MAXSYMLINKS + 1 - level, 0, 4 * |items|
  {
    var c, finality := items[0], FinalityOf(items, slash);
    NamesExtended(cs, items, proper);
    if c == "." {
      ContinueNames(fs, cs, items, slash, deref, level, followed,
                    if finality == NotFinal then NotFinal else FinalDot, proper);
    } else if c == ".." {
      ContinueNames(fs, Parent(cs), items, slash, deref, level, followed,
                    if finality == NotFinal then NotFinal else FinalSlash, proper);
    } else {
      var next := Extend(cs, c);
      ContinueNames(fs, next, items, slash, deref, level, followed, finality, proper);
      if fs(Render(next)).Link? && fs(Render(next)).target.Ok? {
        LinkNames(fs, cs, items, slash, deref, level, followed, fs(Render(next)).target.value, proper);
      }
    }
  }

  lemma {:induction false} ContinueNames(fs: Filesystem, cs: seq<string>, items: seq<string>, slash: bool,
                                         deref: bool, level: nat, followed: nat, finality: Finality, proper: bool)
    requires Sound(fs) && items != [] && level <= MAXSYMLINKS && (finality == NotFinal <==> |items| > 1)
    requires Good(proper, cs) && (|items| > 1 ==> Names(items[1..]))
    ensures NamesIfOk(Continue(fs, cs, items, slash, deref, level, followed, finality), proper)
    decreases MAXSYMLINKS + 1 - level, 0, 4 * |items| - 2
  {
    if finality == NotFinal {
      WalkNames(fs, cs, items[1..], slash, deref, level, followed, proper);
    }
  }

  lemma {:induction false} LinkNames(fs: Filesystem, cs: seq<string>, items: seq<string>, slash: bool,
                                     deref: bool, level: nat, followed: nat, target: string, proper: bool)
    requires Sound(fs) && items != [] && level <= MAXSYMLINKS && (|items| > 1 ==> Names(items[1..]))
    requires Good(proper, cs) && target != "" && '\0' !in target
    ensures NamesIfOk(AfterLink(fs, cs, items, slash, deref, level, followed, FinalityOf(items, slash),
                                Resolve(fs, cs, target, true, level + followed + 1)), proper)
    decreases MAXSYMLINKS + 1 - level, 0, 4 * |items| - 1
  {
    ResolveNames(fs, cs, target, true, level + followed + 1, proper);
    var found := Resolve(fs, cs, target, true, level + followed + 1);
    if found.Ok? {
      ContinueNames(fs, found.value.cs, items, slash, deref, level, followed + 1, FinalityOf(items, slash), proper);
    }
  }

  /**
   On any filesystem, and whatever happened to the directory it starts from: the components of a
   result are never empty, "." or "..", if those of the base are not.
   */
  lemma {:induction false} ResolveNames(fs: Filesystem, cs: seq<string>, path: string, deref: bool, level: nat,
                                        proper: bool)
    requires Sound(fs) && path != "" && '\0' !in path && (path[0] != '/' ==> Good(proper, cs))
    ensures NamesIfOk(Resolve(fs, cs, path, deref, level), proper)
    decreases if level <= MAXSYMLINKS then MAXSYMLINKS + 1 - level else 0, 1
  {
    if level <= MAXSYMLINKS {
      var base := if path[0] == '/' then [] else cs;
      ItemsOfPath(path, base);
      WalkNames(fs, base, Items(path), EndsWithSlash(path), deref, level, 0, proper);
    }
  }

  // ----- Joining -----

  lemma {:induction false} NameLengthAppend(a: string, b: string)
    requires NameLength(a) < |a| || b == "" || b[0] == '/'
    ensures NameLength(a + b) == NameLength(a)
    decreases |a|
  {
    if a == "" {
      assert a + b == b;
    } else if a[0] != '/' {
      assert (a + b)[1..] == a[1..] + b;
      NameLengthAppend(a[1..], b);
    }
  }

  lemma {:induction false} NameHasNoSlash(a: string)
    requires NameLength(a) == |a|
    ensures '/' !in a
    decreases |a|
  {
    if a != "" {
      assert a == [a[0]] + a[1..];
      NameHasNoSlash(a[1..]);
    }
  }

  lemma SlashInFront(p: string)
    ensures Components("/" + p) == Components(p)
  {
    assert ("/" + p)[1..] == p;
    assert SkipSlashes("/" + p) == SkipSlashes(p);
  }

  /** Where a separator lies between two texts, their components follow each other. */
  lemma {:induction false} ComponentsAppend(a: string, b: string)
    requires a == "" || b == "" || EndsWithSlash(a) || b[0] == '/'
    ensures Components(a + b) == Components(a) + Components(b)
    decreases |a|
  {
    if a == "" {
      assert a + b == b && Components(a) == [];
    } else if a[0] == '/' {
      var rest := a[1..];
      assert a == "/" + rest && a + b == "/" + (rest + b);
      assert rest != "" ==> rest[|rest| - 1] == a[|a| - 1];
      SlashInFront(rest);
      SlashInFront(rest + b);
      ComponentsAppend(rest, b);
    } else {
      NameInFront(a, b);
    }
  }

  lemma {:induction false} NameInFront(a: string, b: string)
    requires a != "" && a[0] != '/' && (b == "" || EndsWithSlash(a) || b[0] == '/')
    ensures Components(a + b) == Components(a) + Components(b)
    decreases |a|, 0
  {
    var n := NameLength(a);
    var name, rest := a[..n], a[n..];
    if n == |a| {
      NameHasNoSlash(a);
    }
    NameLengthAppend(a, b);
    assert (a + b)[..n] == name && (a + b)[n..] == rest + b;
    assert rest != "" ==> rest[|rest| - 1] == a[|a| - 1];
    ComponentsAppend(rest, b);
    assert Components(a + b) == [name] + Components(rest + b);
    assert [name] + (Components(rest) + Components(b)) == ([name] + Components(rest)) + Components(b);
  }

  /** The components of several paths, one path after the other. */
  function ComponentsOfAll(paths: seq<string>): seq<string> {
    if paths == [] then [] else ComponentsOfAll(paths[..|paths| - 1]) + Components(paths[|paths| - 1])
  }

  lemma JoinStepComponents(result: string, path: string)
    requires JoinStep(result, path).Ok?
    ensures Components(JoinStep(result, path).value) == Components(result) + Components(path)
  {
    if result != "" && !EndsWithSlash(result) && (path == "" || path[0] != '/') {
      assert result + "/" + path == result + ("/" + path);
      ComponentsAppend(result, "/" + path);
      SlashInFront(path);
    } else if EndsWithSlash(result) && path != "" && path[0] == '/' {
      assert path == "/" + path[1..];
      SlashInFront(path[1..]);
      ComponentsAppend(result, path[1..]);
    } else {
      ComponentsAppend(result, path);
    }
  }

  /**
   The components of a joined path are those of its parts in their order, whatever separators the parts
   begin or end with; the text fits its buffer, and the only error is that it would not.
   */
  lemma {:induction false} JoinedComponents(paths: seq<string>)
    ensures JoinAll(paths).Ok? ==>
      && Components(JoinAll(paths).value) == ComponentsOfAll(paths)
      && (paths != [] ==> |JoinAll(paths).value| + 1 < PATH_MAX)
    ensures JoinAll(paths).Err? ==> JoinAll(paths).errno == ENAMETOOLONG
    decreases |paths|
  {
    if paths != [] {
      var front, last := paths[..|paths| - 1], paths[|paths| - 1];
      JoinedComponents(front);
      if JoinAll(paths).Ok? {
        JoinStepComponents(JoinAll(front).value, last);
      }
    }
  }
}
