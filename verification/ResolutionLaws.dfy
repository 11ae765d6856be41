/**
 What pathname resolution means, apart from the way it is computed: without links a path is its lexical
 normal form, a link stands for the text of its target, and exactly so many links are followed.
 */
module ResolutionLaws {
  import opened Collections
  import opened Wrappers
  import opened Paths
  import opened Resolution

  // ----- Paths without links -----

  /** A name is appended, "." does nothing, ".." drops the last name. */
  function Lexical(cs: seq<string>, items: seq<string>): (r: seq<string>)
    decreases |items|
  {
    if items == [] then cs
    else
      var front, c := Lexical(cs, items[..|items| - 1]), items[|items| - 1];
      if c == "" || c == "." then front
      else if c != ".." then front + [c]
      else if front == [] then []
      else front[..|front| - 1]
  }

  lemma {:induction false} LexicalFirst(cs: seq<string>, items: seq<string>)
    requires items != []
    ensures Lexical(cs, items) == Lexical(Lexical(cs, items[..1]), items[1..])
    decreases |items|
  {
    var n := |items|;
    assert items[..1][..0] == [];
    if n > 1 {
      var front := items[..n - 1];
      LexicalFirst(cs, front);
      assert front[..1] == items[..1] && front[1..] == items[1..][..n - 2];
    } else {
      assert items[..1] == items && items[1..] == [];
    }
  }

  /** The node that the first `k + 1` items name is looked at. */
  predicate Looked(items: seq<string>, k: nat)
    requires k < |items|
  {
    items[k] != "." && items[k] != ".."
  }

  ghost predicate LinkAt(fs: Filesystem, cs: seq<string>, items: seq<string>, k: nat)
    requires k < |items|
  {
    Looked(items, k) && fs(Render(Lexical(cs, items[..k + 1]))).Link?
  }

  /** No link is met that would have to be followed. */
  ghost predicate LinkFree(fs: Filesystem, cs: seq<string>, items: seq<string>, slash: bool, deref: bool) {
    forall k {:trigger LinkAt(fs, cs, items, k)} :: 0 <= k < |items| && LinkAt(fs, cs, items, k) ==>
      k == |items| - 1 && !deref && (!slash || items == [""])
  }

  /** What is wrong with an item: too long, or not a directory to go on from. */
  ghost function Trouble(fs: Filesystem, cs: seq<string>, items: seq<string>, k: nat): Option<nat>
    requires k < |items|
  {
    var there := Render(Lexical(cs, items[..k + 1]));
    if |items[k]| >= NAME_MAX then Some(ENAMETOOLONG)
    else if !Looked(items, k) then None
    else if |there| + 1 >= PATH_MAX then Some(ENAMETOOLONG)
    else match fs(there)
      case Unreachable(e) => Some(e)
      case Missing => if k < |items| - 1 then Some(ENOENT) else None
      case Other => if k < |items| - 1 then Some(ENOTDIR) else None
      case Directory => None
      case Link(_) => None
  }

  /** The errno of the first item that has trouble. */
  ghost predicate FirstTrouble(fs: Filesystem, cs: seq<string>, items: seq<string>, errno: nat) {
    exists k {:trigger Trouble(fs, cs, items, k)} :: 0 <= k < |items| && Trouble(fs, cs, items, k) == Some(errno)
      && forall j {:trigger Trouble(fs, cs, items, j)} :: 0 <= j < k ==> Trouble(fs, cs, items, j) == None
  }

  /** How a path asks for its end. */
  function End(last: string, slash: bool): Finality {
    if last == "." then FinalDot else if last == ".." || (slash && last != "") then FinalSlash else FinalNormal
  }

  /** The first item seen from the rest. */
  lemma FromSecond(fs: Filesystem, cs: seq<string>, items: seq<string>, k: nat)
    requires 0 < k < |items|
    ensures Lexical(cs, items[..k + 1]) == Lexical(Lexical(cs, items[..1]), items[1..][..k])
    ensures LinkAt(fs, cs, items, k) <==> LinkAt(fs, Lexical(cs, items[..1]), items[1..], k - 1)
    ensures Trouble(fs, cs, items, k) == Trouble(fs, Lexical(cs, items[..1]), items[1..], k - 1)
  {
    LexicalFirst(cs, items[..k + 1]);
    assert items[..k + 1][..1] == items[..1] && items[..k + 1][1..] == items[1..][..k];
  }

  lemma RestIsLinkFree(fs: Filesystem, cs: seq<string>, items: seq<string>, slash: bool, deref: bool)
    requires |items| > 1 && LinkFree(fs, cs, items, slash, deref) && items[1..] != [""]
    ensures LinkFree(fs, Lexical(cs, items[..1]), items[1..], slash, deref)
  {
    hide Lexical, LinkAt, Trouble;
    forall k | 0 <= k < |items[1..]| && LinkAt(fs, Lexical(cs, items[..1]), items[1..], k)
      ensures k == |items[1..]| - 1 && !deref && !slash
    {
      FromSecond(fs, cs, items, k + 1);
    }
  }

  lemma TroubleInRest(fs: Filesystem, cs: seq<string>, items: seq<string>, errno: nat)
    requires |items| > 1 && Trouble(fs, cs, items, 0) == None
    ensures FirstTrouble(fs, Lexical(cs, items[..1]), items[1..], errno) ==> FirstTrouble(fs, cs, items, errno)
  {
    hide Lexical, Trouble;
    var next, rest := Lexical(cs, items[..1]), items[1..];
    if FirstTrouble(fs, next, rest, errno) {
      var k :| 0 <= k < |rest| && Trouble(fs, next, rest, k) == Some(errno)
        && forall j {:trigger Trouble(fs, next, rest, j)} :: 0 <= j < k ==> Trouble(fs, next, rest, j) == None;
      FromSecond(fs, cs, items, k + 1);
      forall j | 0 <= j < k + 1
        ensures Trouble(fs, cs, items, j) == None
      {
        if j > 0 {
          FromSecond(fs, cs, items, j);
        }
      }
    }
  }

  lemma NoTroubleInRest(fs: Filesystem, cs: seq<string>, items: seq<string>)
    requires |items| > 1 && Trouble(fs, cs, items, 0) == None
    requires forall k :: 0 <= k < |items[1..]| ==> Trouble(fs, Lexical(cs, items[..1]), items[1..], k) == None
    ensures forall k :: 0 <= k < |items| ==> Trouble(fs, cs, items, k) == None
  {
    hide Lexical, Trouble;
    forall k | 0 <= k < |items|
      ensures Trouble(fs, cs, items, k) == None
    {
      if k > 0 {
        FromSecond(fs, cs, items, k);
      }
    }
  }

  /**
   Without links: the path is its lexical normal form from where it starts, or the result is the error
   of the first item that has trouble, and the latter exactly if one has.
   */
  ghost predicate IsLexical(fs: Filesystem, cs: seq<string>, items: seq<string>, slash: bool, r: Result<Place>)
    requires items != []
  {
    match r
    case Ok(place) =>
      && place == Place(Lexical(cs, items), End(items[|items| - 1], slash))
      && forall k {:trigger Trouble(fs, cs, items, k)} :: 0 <= k < |items| ==> Trouble(fs, cs, items, k) == None
    case Err(e) => FirstTrouble(fs, cs, items, e)
  }

  lemma {:induction false} WalkIsLexical(fs: Filesystem, cs: seq<string>, items: seq<string>, slash: bool,
                                         deref: bool, level: nat, followed: nat)
    requires Sound(fs) && items != [] && level <= MAXSYMLINKS && (Names(items) || items == [""])
    requires LinkFree(fs, cs, items, slash, deref)
    ensures IsLexical(fs, cs, items, slash, Walk(fs, cs, items, slash, deref, level, followed))
    decreases |items|
  {
    hide LinkFree;
    var c, next := items[0], Lexical(cs, items[..1]);
    assert items[..1][..0] == [];
    FirstIsLexical(fs, cs, items, slash, deref, level, followed);
    if Trouble(fs, cs, items, 0) == None && |items| > 1 {
      assert Names(items[1..]) by {
        assert forall i :: 0 <= i < |items[1..]| ==> items[1..][i] == items[i + 1];
      }
      assert items[1..] != [""] by {
        assert IsName(items[1]);
      }
      RestIsLinkFree(fs, cs, items, slash, deref);
      WalkIsLexical(fs, next, items[1..], slash, deref, level, followed);
      RestOfLexical(fs, cs, items, slash, Walk(fs, next, items[1..], slash, deref, level, followed));
    }
  }

  lemma RestOfLexical(fs: Filesystem, cs: seq<string>, items: seq<string>, slash: bool, r: Result<Place>)
    requires |items| > 1 && Trouble(fs, cs, items, 0) == None
    requires IsLexical(fs, Lexical(cs, items[..1]), items[1..], slash, r)
    ensures IsLexical(fs, cs, items, slash, r)
  {
    hide Lexical, Trouble, FirstTrouble;
    if r.Ok? {
      NoTroubleInRest(fs, cs, items);
      LexicalFirst(cs, items);
    } else {
      TroubleInRest(fs, cs, items, r.errno);
    }
  }

  /** The first item, and the end if there is no other. */
  lemma FirstIsLexical(fs: Filesystem, cs: seq<string>, items: seq<string>, slash: bool, deref: bool, level: nat,
                       followed: nat)
    requires Sound(fs) && items != [] && level <= MAXSYMLINKS && (Names(items) || items == [""])
    requires LinkFree(fs, cs, items, slash, deref)
    ensures var r := Walk(fs, cs, items, slash, deref, level, followed);
      match Trouble(fs, cs, items, 0)
      case Some(e) => r == Err(e) && FirstTrouble(fs, cs, items, e)
      case None =>
        if |items| > 1 then r == Walk(fs, Lexical(cs, items[..1]), items[1..], slash, deref, level, followed)
        else IsLexical(fs, cs, items, slash, r)
  {
    var c := items[0];
    assert items[..1] == [c] && [c][..0] == [];
    assert Lexical(cs, []) == cs;
    assert Looked(items, 0) ==> Lexical(cs, items[..1]) == Extend(cs, c);
    assert !LinkAt(fs, cs, items, 0) || (|items| == 1 && !deref && (!slash || items == [""]));
    if |items| == 1 {
      assert items == [c] && items[..1] == items;
    }
  }

  /** Of a path text, from the root or from the base. */
  lemma ResolveIsLexical(fs: Filesystem, base: seq<string>, path: string, deref: bool, level: nat)
    requires Sound(fs) && path != "" && '\0' !in path && level <= MAXSYMLINKS
    requires LinkFree(fs, if path[0] == '/' then [] else base, Items(path), EndsWithSlash(path), deref)
    ensures IsLexical(fs, if path[0] == '/' then [] else base, Items(path), EndsWithSlash(path),
                      Resolve(fs, base, path, deref, level))
  {
    hide Walk, Items, LinkFree;
    ItemsOfPath(path, base);
    WalkIsLexical(fs, if path[0] == '/' then [] else base, Items(path), EndsWithSlash(path), deref, level, 0);
  }

  // ----- The end of a path -----

  ghost predicate EndsAs(r: Result<Place>, finality: Finality) {
    r.Ok? ==> r.value.finality == finality
  }

  /** Through whatever links: a resolution ends as its path asks for it. */
  lemma {:induction false} WalkEnds(fs: Filesystem, cs: seq<string>, items: seq<string>, slash: bool, deref: bool,
                                    level: nat, followed: nat)
    requires Sound(fs) && items != [] && level <= MAXSYMLINKS && (Names(items) || items == [""])
    ensures EndsAs(Walk(fs, cs, items, slash, deref, level, followed), End(items[|items| - 1], slash))
    decreases |items|, 1
  {
    hide Render, Resolve, Names;
    var c, finality := items[0], FinalityOf(items, slash);
    var next := Extend(cs, c);
    ContinueEnds(fs, cs, items, slash, deref, level, followed, if |items| > 1 then NotFinal else FinalDot);
    ContinueEnds(fs, Parent(cs), items, slash, deref, level, followed, if |items| > 1 then NotFinal else FinalSlash);
    ContinueEnds(fs, next, items, slash, deref, level, followed, finality);
    if |items| == 1 {
      assert items == [c];
    }
    if fs(Render(next)).Link? && fs(Render(next)).target.Ok? {
      var found := Resolve(fs, cs, fs(Render(next)).target.value, true, level + followed + 1);
      if found.Ok? {
        ContinueEnds(fs, found.value.cs, items, slash, deref, level, followed + 1, finality);
      }
    }
  }

  lemma {:induction false} ContinueEnds(fs: Filesystem, cs: seq<string>, items: seq<string>, slash: bool, deref: bool,
                                        level: nat, followed: nat, finality: Finality)
    requires Sound(fs) && items != [] && level <= MAXSYMLINKS && (Names(items) || items == [""])
    requires finality == NotFinal <==> |items| > 1
    ensures |items| > 1 ==> EndsAs(Continue(fs, cs, items, slash, deref, level, followed, finality),
                                   End(items[|items| - 1], slash))
    ensures |items| == 1 ==> Continue(fs, cs, items, slash, deref, level, followed, finality) == Ok(Place(cs, finality))
    decreases |items|, 0
  {
    if |items| > 1 {
      assert IsName(items[1]);
      assert forall i :: 0 <= i < |items[1..]| ==> items[1..][i] == items[i + 1];
      WalkEnds(fs, cs, items[1..], slash, deref, level, followed);
    }
  }

  // ----- Levels -----

  /** How a walk is asked to treat its end, and how many links are behind it. */
  datatype How = How(slash: bool, deref: bool, level: nat, followed: nat) {
    /** A link at the end is followed. */
    predicate Follows() {
      slash || deref
    }

    predicate Valid() {
      level <= MAXSYMLINKS
    }

    function Depth(): nat {
      level + followed
    }
  }

  function From(fs: Filesystem, cs: seq<string>, items: seq<string>, how: How): Result<Place>
    requires Sound(fs) && items != [] && how.Valid()
  {
    Walk(fs, cs, items, how.slash, how.deref, how.level, how.followed)
  }

  /** The same error or the same components. */
  predicate SamePlace(a: Result<Place>, b: Result<Place>) {
    match a
    case Err(e) => b == Err(e)
    case Ok(place) => b.Ok? && b.value.cs == place.cs
  }

  /** The same unless one of the two met too many links. */
  predicate Agree(a: Result<Place>, b: Result<Place>) {
    a == Err(ELOOP) || b == Err(ELOOP) || SamePlace(a, b)
  }

  /** `b` is asked for at least as deep as `a`, and treats a link at the end alike. */
  ghost predicate Deeper(fs: Filesystem, items: seq<string>, a: How, b: How) {
    && a.Valid() && b.Valid() && a.Depth() <= b.Depth()
    && (items == [""] ==> fs("/") == Directory || (a.slash == b.slash && a.deref == b.deref))
    && a.Follows() == b.Follows()
  }

  /** The first item leads to a link with this target. */
  ghost predicate LeadsToLink(fs: Filesystem, cs: seq<string>, c: string, target: string) {
    && c != "." && c != ".." && |c| < NAME_MAX && |Render(Extend(cs, c))| + 1 < PATH_MAX
    && fs(Render(Extend(cs, c))) == Link(Ok(target))
  }

  /** A link that has to be followed. */
  lemma WalkAtLink(fs: Filesystem, cs: seq<string>, items: seq<string>, how: How, target: string)
    requires Sound(fs) && items != [] && how.Valid() && LeadsToLink(fs, cs, items[0], target)
    requires |items| > 1 || how.deref || (how.slash && items != [""])
    ensures target != "" && '\0' !in target
    ensures From(fs, cs, items, how) ==
      AfterLink(fs, cs, items, how.slash, how.deref, how.level, how.followed, FinalityOf(items, how.slash),
                Resolve(fs, cs, target, true, how.Depth() + 1))
  {
    assert fs(Render(Extend(cs, items[0]))).target.Ok?;
  }

  /** A link at the end that is not to be followed. */
  lemma WalkAtLastLink(fs: Filesystem, cs: seq<string>, items: seq<string>, how: How)
    requires Sound(fs) && items != [] && how.Valid() && |items| == 1 && !how.deref && (!how.slash || items == [""])
    requires fs(Render(Extend(cs, items[0]))).Link?
    requires items[0] != "." && items[0] != ".." && |items[0]| < NAME_MAX && |Render(Extend(cs, items[0]))| + 1 < PATH_MAX
    ensures From(fs, cs, items, how) == Ok(Place(Extend(cs, items[0]), FinalNormal))
  {
    assert Walk(fs, cs, items, how.slash, how.deref, how.level, how.followed) ==
           Continue(fs, Extend(cs, items[0]), items, how.slash, how.deref, how.level, how.followed, FinalNormal);
  }

  /** What is neither a dot nor a link. */
  lemma WalkAtPlain(fs: Filesystem, cs: seq<string>, items: seq<string>, how: How)
    requires Sound(fs) && items != [] && how.Valid() && !fs(Render(Extend(cs, items[0]))).Link?
    requires items[0] != "." && items[0] != ".." && |items[0]| < NAME_MAX && |Render(Extend(cs, items[0]))| + 1 < PATH_MAX
    ensures var next := Extend(cs, items[0]);
      match Check(fs, Render(next), |items| == 1)
      case Err(e) => From(fs, cs, items, how) == Err(e)
      case Ok(_) => if |items| > 1 then From(fs, cs, items, how) == From(fs, next, items[1..], how)
                    else SamePlace(From(fs, cs, items, how), Ok(Place(next, FinalNormal)))
  {
    var next := Extend(cs, items[0]);
    if Check(fs, Render(next), |items| == 1).Ok? {
      assert Walk(fs, cs, items, how.slash, how.deref, how.level, how.followed) ==
             Continue(fs, next, items, how.slash, how.deref, how.level, how.followed, FinalityOf(items, how.slash));
    }
  }

  /** What is too long, or a link that cannot be read. */
  lemma WalkFails(fs: Filesystem, cs: seq<string>, items: seq<string>, how: How)
    requires Sound(fs) && items != [] && how.Valid() && items[0] != "." && items[0] != ".."
    ensures var p := Render(Extend(cs, items[0]));
      && (|items[0]| >= NAME_MAX || |p| + 1 >= PATH_MAX ==> From(fs, cs, items, how) == Err(ENAMETOOLONG))
      && (|items[0]| < NAME_MAX && |p| + 1 < PATH_MAX && fs(p).Link? && fs(p).target.Err?
          && (|items| > 1 || how.deref || (how.slash && items != [""])) ==>
            From(fs, cs, items, how) == Err(fs(p).target.errno))
  {
    assert From(fs, cs, items, how) == Walk(fs, cs, items, how.slash, how.deref, how.level, how.followed);
  }

  /** From deeper in the recursion, or after more links, the result is the same or ELOOP. */
  lemma {:induction false} DeeperIsSame(fs: Filesystem, cs: seq<string>, items: seq<string>, a: How, b: How)
    requires Sound(fs) && ItemsOk(items, cs) && items != [] && Deeper(fs, items, a, b)
    ensures From(fs, cs, items, b) == Err(ELOOP) || SamePlace(From(fs, cs, items, a), From(fs, cs, items, b))
    decreases MAXSYMLINKS + 1 - a.level, 0, 3 * |items| + 2
  {
    hide Render, Names;
    var c, next := items[0], Extend(cs, items[0]);
    WalkAtDots(fs, cs, items, a.slash, a.deref, a.level, a.followed);
    WalkAtDots(fs, cs, items, b.slash, b.deref, b.level, b.followed);
    if |c| >= NAME_MAX {
    } else if c == "." {
      RestIsSame(fs, cs, items, a, b);
    } else if c == ".." {
      RestIsSame(fs, Parent(cs), items, a, b);
    } else {
      NameIsSame(fs, cs, items, a, b);
    }
  }

  lemma RootText()
    ensures Render([]) == "/"
  {
  }

  lemma {:induction false} NameIsSame(fs: Filesystem, cs: seq<string>, items: seq<string>, a: How, b: How)
    requires Sound(fs) && ItemsOk(items, cs) && items != [] && Deeper(fs, items, a, b)
    requires items[0] != "." && items[0] != ".."
    ensures From(fs, cs, items, b) == Err(ELOOP) || SamePlace(From(fs, cs, items, a), From(fs, cs, items, b))
    decreases MAXSYMLINKS + 1 - a.level, 0, 3 * |items| + 1
  {
    hide Render, Walk, From;
    var next := Extend(cs, items[0]);
    assert items == [""] ==> cs == [] by {
      assert !IsName("");
    }
    RootText();
    var node := fs(Render(next));
    WalkFails(fs, cs, items, a);
    WalkFails(fs, cs, items, b);
    if |items[0]| < NAME_MAX && |Render(next)| + 1 < PATH_MAX {
      if !node.Link? {
        RestIsSame(fs, next, items, a, b);
        WalkAtPlain(fs, cs, items, a);
        WalkAtPlain(fs, cs, items, b);
      } else if |items| == 1 && !a.deref && (!a.slash || items == [""]) {
        WalkAtLastLink(fs, cs, items, a);
        WalkAtLastLink(fs, cs, items, b);
      } else if node.target.Ok? {
        LinkIsSame(fs, cs, items, a, b, node.target.value);
        WalkAtLink(fs, cs, items, a, node.target.value);
        WalkAtLink(fs, cs, items, b, node.target.value);
      }
    }
  }

  /** The same for the items after the first one. */
  lemma {:induction false} RestIsSame(fs: Filesystem, cs: seq<string>, items: seq<string>, a: How, b: How)
    requires Sound(fs) && (Names(items) || items == [""]) && items != [] && Deeper(fs, items, a, b)
    ensures |items| > 1 ==>
      From(fs, cs, items[1..], b) == Err(ELOOP) || SamePlace(From(fs, cs, items[1..], a), From(fs, cs, items[1..], b))
    decreases MAXSYMLINKS + 1 - a.level, 0, 3 * |items|, 0
  {
    hide Walk;
    if |items| > 1 {
      assert IsName(items[1]);
      assert forall i :: 0 <= i < |items[1..]| ==> items[1..][i] == items[i + 1];
      DeeperIsSame(fs, cs, items[1..], a, b);
    }
  }

  /** The target of a link from deeper. */
  lemma {:induction false} TargetIsSame(fs: Filesystem, cs: seq<string>, target: string, a: How, b: How)
    requires Sound(fs) && target != "" && '\0' !in target
    requires a.Valid() && b.Valid() && a.Depth() <= b.Depth()
    ensures var deep := Resolve(fs, cs, target, true, b.Depth() + 1);
      deep == Err(ELOOP) || SamePlace(Resolve(fs, cs, target, true, a.Depth() + 1), deep)
    decreases MAXSYMLINKS + 1 - a.level, 0, 0
  {
    hide Walk;
    if b.Depth() < MAXSYMLINKS {
      ItemsOfPath(target, cs);
      DeeperIsSame(fs, if target[0] == '/' then [] else cs, Items(target),
                   How(EndsWithSlash(target), true, a.Depth() + 1, 0), How(EndsWithSlash(target), true, b.Depth() + 1, 0));
    }
  }

  lemma {:induction false} LinkIsSame(fs: Filesystem, cs: seq<string>, items: seq<string>, a: How, b: How,
                                      target: string)
    requires Sound(fs) && (Names(items) || items == [""]) && items != [] && Deeper(fs, items, a, b)
    requires target != "" && '\0' !in target
    ensures var f1, f2 := FinalityOf(items, a.slash), FinalityOf(items, b.slash);
      var r1 := AfterLink(fs, cs, items, a.slash, a.deref, a.level, a.followed, f1,
                          Resolve(fs, cs, target, true, a.Depth() + 1));
      var r2 := AfterLink(fs, cs, items, b.slash, b.deref, b.level, b.followed, f2,
                          Resolve(fs, cs, target, true, b.Depth() + 1));
      r2 == Err(ELOOP) || SamePlace(r1, r2)
    decreases MAXSYMLINKS + 1 - a.level, 0, 3 * |items|, 1
  {
    hide Walk, Resolve, Render;
    TargetIsSame(fs, cs, target, a, b);
    var found := Resolve(fs, cs, target, true, a.Depth() + 1);
    if found.Ok? && found.value.cs != cs {
      RestIsSame(fs, found.value.cs, items, a.(followed := a.followed + 1), b.(followed := b.followed + 1));
    }
  }

  // ----- A path goes on from where its first part leads -----

  /** Resolving further items from where the first ones led, which has to be a directory. */
  ghost predicate GoesOn(fs: Filesystem, part: Result<Place>, whole: Result<Place>, b: seq<string>, how: How)
    requires Sound(fs) && b != [] && how.Valid()
  {
    match part
    case Err(e) => whole == Err(e)
    case Ok(place) =>
      match Check(fs, Render(place.cs), false)
      case Err(e) => whole == Err(e)
      case Ok(_) => exists n {:trigger AfterLinks(fs, place.cs, b, how, n)} ::
                      how.followed <= n && whole == AfterLinks(fs, place.cs, b, how, n)
  }

  function AfterLinks(fs: Filesystem, cs: seq<string>, items: seq<string>, how: How, n: nat): Result<Place>
    requires Sound(fs) && items != [] && how.Valid()
  {
    From(fs, cs, items, how.(followed := n))
  }

  function ToTheEnd(how: How): How {
    How(false, true, how.level, how.followed)
  }

  lemma GoesOnSooner(fs: Filesystem, part: Result<Place>, whole: Result<Place>, b: seq<string>, how: How, more: How)
    requires Sound(fs) && b != [] && how.Valid() && more == how.(followed := how.followed + 1)
    requires GoesOn(fs, part, whole, b, more)
    ensures GoesOn(fs, part, whole, b, how)
  {
    if part.Ok? && Check(fs, Render(part.value.cs), false).Ok? {
      var n :| more.followed <= n && whole == AfterLinks(fs, part.value.cs, b, more, n);
      assert whole == AfterLinks(fs, part.value.cs, b, how, n);
    }
  }

  lemma {:induction false} Splits(fs: Filesystem, cs: seq<string>, a: seq<string>, b: seq<string>, how: How)
    requires Sound(fs) && a != [] && b != [] && Names(a) && how.Valid()
    requires Solid(fs, cs) && fs("/") == Directory
    ensures GoesOn(fs, From(fs, cs, a, ToTheEnd(how)), From(fs, cs, a + b, how), b, how)
    decreases |a|, 3
  {
    hide Render, Names;
    var all, end := a + b, ToTheEnd(how);
    WalkAtDots(fs, cs, a, end.slash, end.deref, end.level, end.followed);
    WalkAtDots(fs, cs, all, how.slash, how.deref, how.level, how.followed);
    assert all[0] == a[0] && all[1..] == a[1..] + b;
    SolidIsDirectory(fs, cs);
    SolidParent(fs, cs);
    if |a[0]| >= NAME_MAX {
    } else if a[0] == "." {
      RestSplits(fs, cs, a, b, how);
    } else if a[0] == ".." {
      SolidIsDirectory(fs, Parent(cs));
      RestSplits(fs, Parent(cs), a, b, how);
    } else {
      NameSplits(fs, cs, a, b, how);
    }
  }

  /** The items after the first one. */
  lemma {:induction false} RestSplits(fs: Filesystem, cs: seq<string>, a: seq<string>, b: seq<string>, how: How)
    requires Sound(fs) && a != [] && b != [] && Names(a) && how.Valid()
    requires Solid(fs, cs) && fs("/") == Directory
    ensures (a + b)[1..] == a[1..] + b
    ensures |a| > 1 ==> GoesOn(fs, From(fs, cs, a[1..], ToTheEnd(how)), From(fs, cs, a[1..] + b, how), b, how)
    ensures |a| == 1 ==> a[1..] + b == b && From(fs, cs, b, how) == AfterLinks(fs, cs, b, how, how.followed)
    decreases |a|, 0
  {
    if |a| > 1 {
      assert forall i :: 0 <= i < |a[1..]| ==> a[1..][i] == a[i + 1];
      Splits(fs, cs, a[1..], b, how);
    }
  }

  lemma {:induction false} NameSplits(fs: Filesystem, cs: seq<string>, a: seq<string>, b: seq<string>, how: How)
    requires Sound(fs) && a != [] && b != [] && Names(a) && how.Valid()
    requires Solid(fs, cs) && fs("/") == Directory
    requires a[0] != "." && a[0] != ".." && |a[0]| < NAME_MAX
    ensures GoesOn(fs, From(fs, cs, a, ToTheEnd(how)), From(fs, cs, a + b, how), b, how)
    decreases |a|, 2
  {
    assert IsName(a[0]);
    hide Render, Names, Walk, From, Solid;
    var all, end, next := a + b, ToTheEnd(how), Extend(cs, a[0]);
    assert all[0] == a[0];
    var node := fs(Render(next));
    WalkFails(fs, cs, a, end);
    WalkFails(fs, cs, all, how);
    if |Render(next)| + 1 < PATH_MAX {
      if !node.Link? {
        WalkAtPlain(fs, cs, a, end);
        WalkAtPlain(fs, cs, all, how);
        if node == Directory {
          Extended(fs, cs, a[0]);
          SolidMore(fs, next);
          RestSplits(fs, next, a, b, how);
        }
      } else if node.target.Ok? {
        WalkAtLink(fs, cs, a, end, node.target.value);
        WalkAtLink(fs, cs, all, how, node.target.value);
        LinkSplits(fs, cs, a, b, how, node.target.value);
      }
    }
  }

  lemma {:induction false} LinkSplits(fs: Filesystem, cs: seq<string>, a: seq<string>, b: seq<string>, how: How,
                                      target: string)
    requires Sound(fs) && a != [] && b != [] && Names(a) && how.Valid()
    requires Solid(fs, cs) && fs("/") == Directory && target != "" && '\0' !in target
    ensures var found := Resolve(fs, cs, target, true, how.Depth() + 1);
      GoesOn(fs, AfterLink(fs, cs, a, false, true, how.level, how.followed, FinalityOf(a, false), found),
             AfterLink(fs, cs, a + b, how.slash, how.deref, how.level, how.followed, FinalityOf(a + b, how.slash), found),
             b, how)
    decreases |a|, 1
  {
    hide Render, Names, Walk, Resolve, Solid, Arrived;
    var found := Resolve(fs, cs, target, true, how.Depth() + 1);
    assert |a| > 1 ==> FinalityOf(a, false) == NotFinal;
    if found.Ok? && found.value.cs != cs {
      ResolveArrives(fs, cs, target, true, how.Depth() + 1);
      var there := found.value.cs;
      ArrivedStops(fs, there, found.value.finality);
      var more := how.(followed := how.followed + 1);
      if fs(Render(there)) == Directory {
        ArrivedGoesOn(fs, there, found.value.finality, NotFinal, true);
        RestSplits(fs, there, a, b, more);
        if |a| > 1 {
          GoesOnSooner(fs, From(fs, there, a[1..], ToTheEnd(more)), From(fs, there, a[1..] + b, more), b, how, more);
        } else {
          assert From(fs, there, b, more) == AfterLinks(fs, there, b, how, more.followed);
        }
      }
    }
  }

  // ----- A link stands for its target -----

  /** Where the target of a link in the directory `cs` starts from. */
  function BaseOf(cs: seq<string>, target: string): seq<string>
    requires target != ""
  {
    if target[0] == '/' then [] else cs
  }

  /** A link at the end that is followed leads to where its target does. */
  lemma LastLinkIsItsTarget(fs: Filesystem, cs: seq<string>, c: string, target: string, how: How, other: How)
    requires Sound(fs) && how.Valid() && other.Valid() && how.Follows() && other.Follows() && fs("/") == Directory
    requires Solid(fs, cs) && IsName(c) && LeadsToLink(fs, cs, c, target) && target != ""
    ensures Agree(From(fs, cs, [c], how), From(fs, BaseOf(cs, target), Items(target), other))
  {
    hide Render, Walk, From, Solid, Items;
    WalkAtLink(fs, cs, [c], how, target);
    ItemsOfPath(target, cs);
    var base, items := BaseOf(cs, target), Items(target);
    var found := Resolve(fs, cs, target, true, how.Depth() + 1);
    ResolveArrives(fs, cs, target, true, how.Depth() + 1);
    if how.Depth() + 1 <= MAXSYMLINKS {
      var deep := How(EndsWithSlash(target), true, how.Depth() + 1, 0);
      assert found == From(fs, base, items, deep) by { ResolveIsFrom(fs, cs, target, true, how.Depth() + 1); }
      if deep.Depth() <= other.Depth() {
        DeeperIsSame(fs, base, items, deep, other);
      } else {
        DeeperIsSame(fs, base, items, other, deep);
      }
      LastFound(fs, cs, c, found, how);
    }
  }

  lemma ResolveIsFrom(fs: Filesystem, cs: seq<string>, path: string, deref: bool, level: nat)
    requires Sound(fs) && path != "" && level <= MAXSYMLINKS
    ensures Resolve(fs, cs, path, deref, level)
         == From(fs, BaseOf(cs, path), Items(path), How(EndsWithSlash(path), deref, level, 0))
  {
  }

  lemma LastFound(fs: Filesystem, cs: seq<string>, c: string, found: Result<Place>, how: How)
    requires Sound(fs) && how.Valid() && ArrivesIfOk(fs, found, true)
    ensures var r := AfterLink(fs, cs, [c], how.slash, how.deref, how.level, how.followed, FinalityOf([c], how.slash), found);
      r == Err(ELOOP) || SamePlace(r, found)
    ensures found.Ok? && found.value.cs == cs ==>
      AfterLink(fs, cs, [c], how.slash, how.deref, how.level, how.followed, FinalityOf([c], how.slash), found) == Err(ELOOP)
  {
  }

  /** The order of the two does not matter. */
  lemma LevelsAgree(fs: Filesystem, cs: seq<string>, items: seq<string>, a: How, b: How)
    requires Sound(fs) && ItemsOk(items, cs) && items != [] && a.Valid() && b.Valid() && a.Follows() == b.Follows()
    requires fs("/") == Directory
    ensures Agree(From(fs, cs, items, a), From(fs, cs, items, b))
  {
    if a.Depth() <= b.Depth() {
      DeeperIsSame(fs, cs, items, a, b);
    } else {
      DeeperIsSame(fs, cs, items, b, a);
    }
  }

  lemma RootItself(fs: Filesystem, how: How)
    requires Sound(fs) && fs("/") == Directory && how.Valid()
    ensures SamePlace(From(fs, [], [""], how), Ok(Place([], FinalNormal)))
  {
    RootText();
    WalkAtPlain(fs, [], [""], how);
  }

  lemma HasItems(path: string)
    requires path != ""
    ensures path[0] != '/' ==> Components(path) != []
  {
    assert path[0] != '/' ==> SkipSlashes(path) == path;
  }

  /** The items of the target of a link, and further ones after them. */
  lemma TargetThenRest(fs: Filesystem, base: seq<string>, target: string, rest: seq<string>, found: Result<Place>,
                       deep: How, other: How)
    requires Sound(fs) && deep.Valid() && other.Valid() && deep.Follows() && fs("/") == Directory && Solid(fs, base)
    requires target != "" && '\0' !in target && rest != [] && (target[0] == '/' ==> base == [])
    requires found == From(fs, base, Items(target), deep)
    ensures var right := From(fs, base, Components(target) + rest, other);
      found == Err(ELOOP) || right == Err(ELOOP) || GoesOn(fs, found, right, rest, other)
  {
    hide Render, Walk, From, Solid;
    var names := Components(target);
    if names == [] {
      assert names + rest == rest;
      HasItems(target);
      RootItself(fs, deep);
      RootText();
      assert From(fs, [], rest, other) == AfterLinks(fs, [], rest, other, other.followed);
    } else {
      ComponentsAreNames(target);
      Splits(fs, base, names, rest, other);
      LevelsAgree(fs, base, names, deep, ToTheEnd(other));
    }
  }

  /** A link that further items follow: they go on from where its target leads. */
  lemma InnerLinkIsItsTarget(fs: Filesystem, cs: seq<string>, c: string, target: string, rest: seq<string>, how: How,
                             other: How)
    requires Sound(fs) && how.Valid() && other.Valid() && how.Follows() == other.Follows() && fs("/") == Directory
    requires Solid(fs, cs) && IsName(c) && LeadsToLink(fs, cs, c, target) && target != "" && rest != [] && Names(rest)
    ensures Agree(From(fs, cs, [c] + rest, how), From(fs, BaseOf(cs, target), Components(target) + rest, other))
  {
    hide Render, Walk, Solid, Components, Check;
    var items, base := [c] + rest, BaseOf(cs, target);
    assert items[0] == c && items[1..] == rest;
    WalkAtLink(fs, cs, items, how, target);
    ItemsOfPath(target, cs);
    var found := Resolve(fs, cs, target, true, how.Depth() + 1);
    if how.Depth() + 1 <= MAXSYMLINKS {
      var deep := How(EndsWithSlash(target), true, how.Depth() + 1, 0);
      assert found == From(fs, base, Items(target), deep) by { ResolveIsFrom(fs, cs, target, true, how.Depth() + 1); }
      RootIsSolid(fs);
      TargetThenRest(fs, base, target, rest, found, deep, other);
      if found.Ok? && found.value.cs != cs && Check(fs, Render(found.value.cs), false).Ok? {
        var right := From(fs, base, Components(target) + rest, other);
        if right != Err(ELOOP) {
          var n :| other.followed <= n && right == AfterLinks(fs, found.value.cs, rest, other, n);
          LevelsAgree(fs, found.value.cs, rest, how.(followed := how.followed + 1), other.(followed := n));
          assert right == From(fs, found.value.cs, rest, other.(followed := n));
        }
      }
    }
  }

  /** The items of a text after that of an earlier one. */
  function OrEmpty(items: seq<string>): seq<string> {
    if items == [] then [""] else items
  }

  lemma LinkIsItsTarget(fs: Filesystem, cs: seq<string>, c: string, target: string, rest: seq<string>, how: How,
                        other: How)
    requires Sound(fs) && how.Valid() && other.Valid() && how.Follows() == other.Follows() && fs("/") == Directory
    requires Solid(fs, cs) && IsName(c) && LeadsToLink(fs, cs, c, target) && target != "" && Names(rest)
    requires rest == [] ==> how.Follows()
    ensures Agree(From(fs, cs, [c] + rest, how),
                  From(fs, BaseOf(cs, target), OrEmpty(Components(target) + rest), other))
  {
    hide LeadsToLink, From, Solid, Components;
    if rest == [] {
      assert [c] + rest == [c] && Components(target) + rest == Components(target);
      LastLinkIsItsTarget(fs, cs, c, target, how, other);
    } else {
      InnerLinkIsItsTarget(fs, cs, c, target, rest, how, other);
    }
  }

  /** Where a path starts from that begins with `prefix`. */
  function Start(fs: Filesystem, base: seq<string>, prefix: string, level: nat): Result<Place>
    requires Sound(fs)
  {
    if prefix == "" then Ok(Place(base, NotFinal)) else Resolve(fs, base, prefix, true, level)
  }

  lemma StartIsSolid(fs: Filesystem, base: seq<string>, prefix: string, level: nat)
    requires Sound(fs) && fs("/") == Directory && Solid(fs, base) && '\0' !in prefix
    requires Start(fs, base, prefix, level).Ok? && fs(Render(Start(fs, base, prefix, level).value.cs)) == Directory
    ensures Solid(fs, Start(fs, base, prefix, level).value.cs)
  {
    hide Resolve, Solid, Render;
    if prefix != "" {
      ResolveArrives(fs, base, prefix, true, level);
      SolidMore(fs, Start(fs, base, prefix, level).value.cs);
    }
  }

  /** Of a prefix without names. */
  lemma StartOfSeparators(fs: Filesystem, base: seq<string>, prefix: string, level: nat)
    requires Sound(fs) && level <= MAXSYMLINKS && fs("/") == Directory && Components(prefix) == []
    ensures SamePlace(Start(fs, base, prefix, level), Ok(Place(if prefix == "" then base else [], NotFinal)))
    ensures prefix != "" ==> prefix[0] == '/'
  {
    hide From, Components;
    if prefix != "" {
      HasItems(prefix);
      ResolveIsFrom(fs, base, prefix, true, level);
      RootItself(fs, How(EndsWithSlash(prefix), true, level, 0));
    }
  }

  /** Of a prefix with names. */
  lemma StartOfNames(fs: Filesystem, base: seq<string>, prefix: string, level: nat)
    requires Sound(fs) && level <= MAXSYMLINKS && fs("/") == Directory && Components(prefix) != [] && '\0' !in prefix
    requires Start(fs, base, prefix, level).Ok?
    ensures prefix != "" && SamePlace(Start(fs, base, prefix, level),
                      From(fs, BaseOf(base, prefix), Components(prefix), How(false, true, level, 0)))
  {
    hide From, Walk;
    assert prefix != "";
    ResolveIsFrom(fs, base, prefix, true, level);
    ComponentsAreNames(prefix);
    DeeperIsSame(fs, BaseOf(base, prefix), Components(prefix), How(false, true, level, 0),
                 How(EndsWithSlash(prefix), true, level, 0));
  }

  /** A whole path leads to where `x` leads from the directory `cs`, after some links. */
  ghost predicate LeadsOn(fs: Filesystem, cs: seq<string>, x: string, how: How, whole: Result<Place>)
    requires Sound(fs) && how.Valid()
  {
    Components(x) != [] &&
    exists n: nat {:trigger AfterLinks(fs, cs, Components(x), how, n)} ::
      whole == AfterLinks(fs, cs, Components(x), how, n)
  }

  /** A path resolves from where a part of it leads, if that is a directory. */
  lemma PrefixLeads(fs: Filesystem, base: seq<string>, prefix: string, x: string, deref: bool, level: nat)
    requires Sound(fs) && level <= MAXSYMLINKS && fs("/") == Directory && Solid(fs, base)
    requires (prefix == "" || EndsWithSlash(prefix)) && '\0' !in prefix && x != "" && x[0] != '/'
    requires Start(fs, base, prefix, level).Ok? && fs(Render(Start(fs, base, prefix, level).value.cs)) == Directory
    ensures LeadsOn(fs, Start(fs, base, prefix, level).value.cs, x, How(EndsWithSlash(x), deref, level, 0),
                    Resolve(fs, base, prefix + x, deref, level))
  {
    hide Walk, From, Resolve, Solid, Components, Render, Start;
    var how, names, first := How(EndsWithSlash(x), deref, level, 0), Components(x), Components(prefix);
    var d := Start(fs, base, prefix, level).value.cs;
    HasItems(x);
    ComponentsAppend(prefix, x);
    ResolveIsFrom(fs, base, prefix + x, deref, level);
    assert EndsWithSlash(prefix + x) == EndsWithSlash(x);
    if first == [] {
      assert first + names == names;
      StartOfSeparators(fs, base, prefix, level);
      assert prefix + x == if prefix == "" then x else prefix + x;
      assert From(fs, d, names, how) == AfterLinks(fs, d, names, how, 0);
    } else {
      StartOfNames(fs, base, prefix, level);
      ComponentsAreNames(prefix);
      RootIsSolid(fs);
      Splits(fs, BaseOf(base, prefix), first, names, how);
    }
  }

  /** The path with the text of the target in place of the link: after the prefix, or from the root. */
  function Replaced(prefix: string, target: string, rest: string): string
    requires target != ""
  {
    if target[0] == '/' then target + rest else prefix + target + rest
  }

  /**
   A followed link stands for its target: whatever comes before the link in the path, and whatever comes
   after it, the path leads to where it leads with the text of the target in place of the link.  Errors
   are the same too; only one of the two may meet too many links.
   */
  lemma LinkStandsForItsTarget(fs: Filesystem, base: seq<string>, prefix: string, c: string, target: string,
                               rest: string, deref: bool, level: nat)
    requires Sound(fs) && fs("/") == Directory && Solid(fs, base)
    requires (prefix == "" || EndsWithSlash(prefix)) && '\0' !in prefix && (rest == "" || rest[0] == '/') && '\0' !in rest
    requires Start(fs, base, prefix, level).Ok? && fs(Render(Start(fs, base, prefix, level).value.cs)) == Directory
    requires IsName(c) && LeadsToLink(fs, Start(fs, base, prefix, level).value.cs, c, target)
    requires (rest != "" || deref) && target != ""
    ensures Agree(Resolve(fs, base, prefix + c + rest, deref, level),
                  Resolve(fs, base, Replaced(prefix, target, rest), deref, level))
  {
    hide Walk, From, Solid, Components, Render, Start, LeadsToLink;
    if level <= MAXSYMLINKS {
      var d := Start(fs, base, prefix, level).value.cs;
      var x, y := c + rest, target + rest;
      assert prefix + c + rest == prefix + x && prefix + target + rest == prefix + y;
      ComponentsAreNames(rest);
      ComponentsOfLink(c, rest);
      ComponentsAppend(target, rest);
      StartIsSolid(fs, base, prefix, level);
      var how, other := How(EndsWithSlash(x), deref, level, 0), How(EndsWithSlash(y), deref, level, 0);
      assert rest != "" ==> EndsWithSlash(x) == EndsWithSlash(rest) == EndsWithSlash(y);
      PrefixLeads(fs, base, prefix, x, deref, level);
      var left := Resolve(fs, base, prefix + x, deref, level);
      var n :| left == AfterLinks(fs, d, Components(x), how, n);
      if target[0] == '/' {
        ResolveIsFrom(fs, base, y, deref, level);
        LinkIsItsTarget(fs, d, c, target, Components(rest), how.(followed := n), other);
      } else {
        PrefixLeads(fs, base, prefix, y, deref, level);
        var right := Resolve(fs, base, prefix + y, deref, level);
        var m :| right == AfterLinks(fs, d, Components(y), other, m);
        LinkIsItsTarget(fs, d, c, target, Components(rest), how.(followed := n), other.(followed := m));
      }
    }
  }

  lemma ComponentsOfLink(c: string, rest: string)
    requires IsName(c) && (rest == "" || rest[0] == '/')
    ensures Components(c + rest) == [c] + Components(rest)
    ensures rest != "" && Components(rest) == [] ==> EndsWithSlash(rest)
  {
    hide Components;
    ComponentsOfName(c, rest);
    assert "/" + c + rest == "/" + (c + rest);
    SlashInFront(c + rest);
    if Components(rest) == [] {
      OnlySeparators(rest);
    }
  }

  lemma {:induction false} OnlySeparators(p: string)
    requires Components(p) == []
    ensures p == "" || EndsWithSlash(p)
    decreases |p|
  {
    if p != "" && p[0] == '/' {
      assert p == "/" + p[1..];
      SlashInFront(p[1..]);
      OnlySeparators(p[1..]);
    } else if p != "" {
      HasItems(p);
    }
  }

  // ----- Too many links -----

  /** Something at the end of a path that is no link. */
  ghost predicate Ends(fs: Filesystem, cs: seq<string>, c: string) {
    && IsResolvedName(c) && |Render(cs + [c])| + 1 < PATH_MAX
    && !fs(Render(cs + [c])).Link? && !fs(Render(cs + [c])).Unreachable?
  }

  /** Each of these names in one directory is a link to the next one. */
  ghost predicate LinkChain(fs: Filesystem, cs: seq<string>, names: seq<string>) {
    && names != [] && Names(names)
    && forall i :: 0 <= i < |names| - 1 ==> LeadsToLink(fs, cs, names[i], names[i + 1])
  }

  /** The name that a link leads to, from one level deeper. */
  lemma NextName(fs: Filesystem, cs: seq<string>, c: string, target: string, items: seq<string>, how: How)
    requires Sound(fs) && how.Valid() && LeadsToLink(fs, cs, c, target) && IsName(c) && IsName(target)
    requires items != [] && items[0] == c && (|items| > 1 || how.Follows())
    ensures how.Depth() >= MAXSYMLINKS ==> From(fs, cs, items, how) == Err(ELOOP)
    ensures how.Depth() < MAXSYMLINKS ==>
      From(fs, cs, items, how) ==
        AfterLink(fs, cs, items, how.slash, how.deref, how.level, how.followed, FinalityOf(items, how.slash),
                  From(fs, cs, [target], How(false, true, how.Depth() + 1, 0)))
  {
    hide Walk, From, Render;
    WalkAtLink(fs, cs, items, how, target);
    if how.Depth() < MAXSYMLINKS {
      ResolveIsFrom(fs, cs, target, true, how.Depth() + 1);
      assert target + "" == target && [target] + Components("") == [target];
      ComponentsOfLink(target, "");
    }
  }

  /** So many nested links are followed, and not one more: n of them need n levels. */
  lemma {:induction false} NestedLinks(fs: Filesystem, cs: seq<string>, names: seq<string>, how: How)
    requires Sound(fs) && how.Valid() && how.Follows() && LinkChain(fs, cs, names)
    ensures how.Depth() + |names| - 1 > MAXSYMLINKS && |names| > 1 ==> From(fs, cs, [names[0]], how) == Err(ELOOP)
    ensures how.Depth() + |names| - 1 <= MAXSYMLINKS && Ends(fs, cs, names[|names| - 1]) ==>
      SamePlace(From(fs, cs, [names[0]], how), Ok(Place(cs + [names[|names| - 1]], FinalNormal)))
    decreases |names|
  {
    hide Walk, From, Render;
    assert IsName(names[0]);
    if |names| == 1 {
      if Ends(fs, cs, names[0]) {
        WalkAtPlain(fs, cs, names, how);
        assert [names[0]] == names;
      }
    } else {
      assert IsName(names[1]);
      NextName(fs, cs, names[0], names[1], [names[0]], how);
      if how.Depth() < MAXSYMLINKS {
        assert forall i :: 0 <= i < |names[1..]| ==> names[1..][i] == names[i + 1];
        NestedLinks(fs, cs, names[1..], How(false, true, how.Depth() + 1, 0));
      }
    }
  }

  /** Links to each other in a circle are never resolved. */
  lemma {:induction false} CircleLoops(fs: Filesystem, cs: seq<string>, names: seq<string>, i: nat, how: How)
    requires Sound(fs) && how.Valid() && how.Follows() && LinkChain(fs, cs, names)
    requires i < |names| - 1 && names[|names| - 1] == names[0]
    ensures From(fs, cs, [names[i]], how) == Err(ELOOP)
    decreases MAXSYMLINKS - how.level
  {
    hide Walk, From, Render;
    assert IsName(names[i]) && IsName(names[i + 1]);
    NextName(fs, cs, names[i], names[i + 1], [names[i]], how);
    if how.Depth() < MAXSYMLINKS {
      CircleLoops(fs, cs, names, if i + 1 == |names| - 1 then 0 else i + 1, How(false, true, how.Depth() + 1, 0));
    }
  }

  /** One after the other, links to directories next to them. */
  ghost predicate LinksInARow(fs: Filesystem, cs: seq<string>, links: seq<string>, dirs: seq<string>) {
    && |links| == |dirs| && Names(links) && Names(dirs)
    && forall k {:trigger links[k]} :: 0 <= k < |links| ==>
         && LeadsToLink(fs, cs + dirs[..k], links[k], dirs[k])
         && Ends(fs, cs + dirs[..k], dirs[k]) && fs(Render(cs + dirs[..k] + [dirs[k]])) == Directory
  }

  /** So many links in a path are followed, and not one more. */
  lemma {:induction false} LinksAddUp(fs: Filesystem, cs: seq<string>, links: seq<string>, dirs: seq<string>, how: How)
    requires Sound(fs) && how.Valid() && how.Follows() && links != [] && LinksInARow(fs, cs, links, dirs)
    ensures SamePlace(From(fs, cs, links, how),
                      if how.Depth() + |links| > MAXSYMLINKS then Err(ELOOP) else Ok(Place(cs + dirs, FinalNormal)))
    decreases |links|
  {
    hide Walk, Render;
    var c, d := links[0], dirs[0];
    var next := cs + [d];
    assert cs + dirs[..0] == cs && IsName(c) && IsName(d);
    NextName(fs, cs, c, d, links, how);
    if how.Depth() < MAXSYMLINKS {
      var deep := How(false, true, how.Depth() + 1, 0);
      WalkAtPlain(fs, cs, [d], deep);
      RestInARow(fs, cs, links, dirs);
      assert cs + dirs == next + dirs[1..];
      if |links| > 1 {
        LinksAddUp(fs, next, links[1..], dirs[1..], how.(followed := how.followed + 1));
      }
    }
  }

  lemma RestInARow(fs: Filesystem, cs: seq<string>, links: seq<string>, dirs: seq<string>)
    requires links != [] && LinksInARow(fs, cs, links, dirs)
    ensures LinksInARow(fs, cs + [dirs[0]], links[1..], dirs[1..])
  {
    hide Render, LeadsToLink, Ends;
    forall k | 0 <= k < |links[1..]|
      ensures var at := cs + [dirs[0]] + dirs[1..][..k];
        LeadsToLink(fs, at, links[1..][k], dirs[1..][k]) && Ends(fs, at, dirs[1..][k])
        && fs(Render(at + [dirs[1..][k]])) == Directory
    {
      assert links[k + 1] == links[1..][k];
      assert cs + [dirs[0]] + dirs[1..][..k] == cs + dirs[..k + 1];
    }
    assert forall i :: 0 <= i < |dirs[1..]| ==> dirs[1..][i] == dirs[i + 1];
    assert forall i :: 0 <= i < |links[1..]| ==> links[1..][i] == links[i + 1];
  }

  /**
   A link whose target is the directory that holds it, like "." or ".." and the name of that directory,
   is not followed even once.
   */
  lemma LinkToItsDirectory(fs: Filesystem, cs: seq<string>, c: string, target: string, rest: seq<string>, how: How,
                           other: How)
    requires Sound(fs) && how.Valid() && other.Valid() && other.Follows() && fs("/") == Directory
    requires Solid(fs, cs) && IsName(c) && LeadsToLink(fs, cs, c, target) && target != "" && Names(rest)
    requires rest != [] || how.Follows()
    requires SamePlace(From(fs, BaseOf(cs, target), Items(target), other), Ok(Place(cs, FinalNormal)))
    ensures From(fs, cs, [c] + rest, how) == Err(ELOOP)
  {
    hide Walk, Render, Solid, Items;
    var items := [c] + rest;
    WalkAtLink(fs, cs, items, how, target);
    ItemsOfPath(target, cs);
    if how.Depth() + 1 <= MAXSYMLINKS {
      ResolveIsFrom(fs, cs, target, true, how.Depth() + 1);
      LevelsAgree(fs, BaseOf(cs, target), Items(target), How(EndsWithSlash(target), true, how.Depth() + 1, 0), other);
    }
  }

  /** A link at the end is refused exactly if it is too deep, or its target is, or leads to its directory. */
  lemma LastLinkLoopsIff(fs: Filesystem, cs: seq<string>, c: string, target: string, how: How)
    requires Sound(fs) && how.Valid() && how.Follows() && IsName(c) && LeadsToLink(fs, cs, c, target) && target != ""
    requires forall p :: fs(p) != Unreachable(ELOOP)
    ensures From(fs, cs, [c], how) == Err(ELOOP) <==>
      || how.Depth() >= MAXSYMLINKS
      || Resolve(fs, cs, target, true, how.Depth() + 1) == Err(ELOOP)
      || SamePlace(Resolve(fs, cs, target, true, how.Depth() + 1), Ok(Place(cs, FinalNormal)))
  {
    hide Walk, Render;
    WalkAtLink(fs, cs, [c], how, target);
  }
}
