/**
 canonicalize of path/canon.c:44-411 on path buffers and a cursor.  The emulation of links in /proc,
 the notification of extensions and the construction of the glue are not part of this model.
 */
module Canon {
  import opened Wrappers
  import opened Paths
  import opened Resolution
  import Laws = ResolutionLaws

  /** pop_component: cut the end of the path right before its last component, trailing separators or not. */
  method PopComponent(path: string, ghost cs: seq<string>, ghost separators: string) returns (r: string)
    requires Names(cs) && path == Flat(cs) + separators && (cs == [] ==> separators != "")
    requires forall i :: 0 <= i < |separators| ==> separators[i] == '/'
    ensures r == Render(Parent(cs))
  {
    FlatShape(cs);
    var offset := |path| - 1;
    if offset == 0 {
      return path;
    }
    ghost var last := |Flat(cs)| - 1;
    while offset > 1 && path[offset] == '/'
      invariant 0 < offset < |path| && last <= offset
    {
      offset := offset - 1;
    }
    if cs != [] {
      FlatLast(cs);
    }
    ghost var cut := |Flat(Parent(cs))|;
    while offset > 1 && path[offset] != '/'
      invariant 0 < offset < |path| && cut <= offset && (cs != [] ==> offset <= last)
    {
      offset := offset - 1;
    }
    PopCut(cs, separators, offset);
    return path[..offset];
  }

  lemma FlatLast(cs: seq<string>)
    requires Names(cs) && cs != []
    ensures Flat(cs) == Flat(Parent(cs)) + "/" + cs[|cs| - 1]
    ensures |Flat(Parent(cs))| + 1 < |Flat(cs)| && Flat(cs)[|Flat(Parent(cs))|] == '/'
  {
    var front, c := cs[..|cs| - 1], cs[|cs| - 1];
    assert cs == front + [c] && IsName(c);
    FlatSnoc(front, c);
  }

  /** Where the search for the separator stops. */
  lemma PopCut(cs: seq<string>, separators: string, offset: nat)
    requires Names(cs) && 0 < offset < |Flat(cs) + separators|
    requires cs != [] ==> |Flat(Parent(cs))| <= offset < |Flat(cs)|
    requires offset <= 1 || (Flat(cs) + separators)[offset] == '/'
    requires cs == [] ==> offset == 1 && separators[0] == '/'
    ensures (Flat(cs) + separators)[..offset] == Render(Parent(cs))
  {
    if cs != [] {
      FlatLast(cs);
      var cut, c := |Flat(Parent(cs))|, cs[|cs| - 1];
      assert IsName(c);
      FlatShape(Parent(cs));
      if offset > cut {
        assert Flat(cs)[offset] == c[offset - cut - 1];
        assert offset == 1 && Parent(cs) == [];
      }
    }
  }

  /** The component found from `cursor` starts at `start` and ends at `after`. */
  lemma FirstItem(path: string, cursor: nat, start: nat, after: nat)
    requires cursor <= start <= after <= |path|
    requires SkipSlashes(path[cursor..]) == path[start..] && NameLength(path[start..]) == after - start
    ensures Items(path[cursor..])[0] == path[start..after]
    ensures start == |path| ==> Items(path[cursor..]) == [""]
    ensures start < |path| ==>
              path[start..after] != "" && Components(path[cursor..]) == [path[start..after]] + Components(path[after..])
  {
    hide SkipSlashes, NameLength, EndsWithSlash;
    var q := path[start..];
    assert q[..after - start] == path[start..after] && q[after - start..] == path[after..];
  }

  /** The next component is to be found from `at`. */
  lemma NextItems(path: string, cursor: nat, start: nat, after: nat, at: nat)
    requires cursor <= start <= after <= at <= |path|
    requires SkipSlashes(path[cursor..]) == path[start..] && NameLength(path[start..]) == after - start
    requires SkipSlashes(path[after..]) == path[at..] && forall i :: after <= i < at ==> path[i] == '/'
    requires forall i :: start <= i < after ==> path[i] != '/'
    ensures at == |path| ==>
      FinalityOf(Items(path[cursor..]), EndsWithSlash(path[cursor..])) ==
        (if after < |path| then FinalSlash else FinalNormal)
    ensures at < |path| ==>
      && start < |path| && |Items(path[cursor..])| > 1 && Items(path[at..]) == Items(path[cursor..])[1..]
      && EndsWithSlash(path[at..]) == EndsWithSlash(path[cursor..])
  {
    FirstItem(path, cursor, start, after);
    if start < |path| {
      var rest := Components(path[after..]);
      assert Items(path[cursor..]) == [path[start..after]] + rest;
      if at == |path| {
        assert rest == [];
        assert path[cursor..][|path| - cursor - 1] == path[|path| - 1];
      } else {
        assert Components(path[at..]) == rest by {
          SkipTwice(path[after..]);
        }
        assert path[cursor..][|path| - cursor - 1] == path[|path| - 1] == path[at..][|path| - at - 1];
      }
    }
  }

  lemma SkipTwice(p: string)
    ensures SkipSlashes(SkipSlashes(p)) == SkipSlashes(p)
    ensures Components(SkipSlashes(p)) == Components(p)
  {
    var q := SkipSlashes(p);
    assert SkipSlashes(q) == q;
  }

  method SkipSeparators(path: string, cursor: nat) returns (at: nat)
    requires cursor <= |path|
    ensures cursor <= at <= |path| && (at < |path| ==> path[at] != '/')
    ensures SkipSlashes(path[cursor..]) == path[at..]
    ensures forall i :: cursor <= i < at ==> path[i] == '/'
  {
    at := cursor;
    while at < |path| && path[at] == '/'
      invariant cursor <= at <= |path| && SkipSlashes(path[cursor..]) == SkipSlashes(path[at..])
      invariant forall i :: cursor <= i < at ==> path[i] == '/'
    {
      assert path[at..][1..] == path[at + 1..];
      at := at + 1;
    }
  }

  method SkipName(path: string, start: nat) returns (at: nat)
    requires start <= |path|
    ensures start <= at <= |path| && (at < |path| ==> path[at] == '/')
    ensures NameLength(path[start..]) == at - start && NameLength(path[at..]) == 0
    ensures forall i :: start <= i < at ==> path[i] != '/'
  {
    at := start;
    while at < |path| && path[at] != '/'
      invariant start <= at <= |path| && NameLength(path[start..]) == at - start + NameLength(path[at..])
      invariant forall i :: start <= i < at ==> path[i] != '/'
    {
      assert path[at..][1..] == path[at + 1..];
      at := at + 1;
    }
  }

  /** next_component: the component at the cursor, the cursor of the next one, and the finality. */
  method NextComponent(path: string, cursor: nat) returns (component: Result<string>, next: nat, finality: Finality)
    requires cursor <= |path|
    ensures cursor <= next <= |path|
    ensures |Items(path[cursor..])[0]| >= NAME_MAX ==> component == Err(ENAMETOOLONG)
    ensures var items := Items(path[cursor..]);
      |items[0]| < NAME_MAX ==>
        && component == Ok(items[0]) && finality == FinalityOf(items, EndsWithSlash(path[cursor..]))
        && (finality == NotFinal ==>
              cursor < next && Items(path[next..]) == items[1..]
              && EndsWithSlash(path[next..]) == EndsWithSlash(path[cursor..]))
  {
    hide SkipSlashes, NameLength;
    var start := SkipSeparators(path, cursor);
    var at := SkipName(path, start);
    var name := path[start..at];
    FirstItem(path, cursor, start, at);
    if |name| >= NAME_MAX {
      return Err(ENAMETOOLONG), at, NotFinal;
    }
    var wantDir := at < |path| && path[at] == '/';
    ghost var after := at;
    at := SkipSeparators(path, at);
    NextItems(path, cursor, start, after, at);
    if at == |path| {
      return Ok(name), at, if wantDir then FinalSlash else FinalNormal;
    }
    return Ok(name), at, NotFinal;
  }

  // ----- canonicalize -----

  /** Joining a component, also the empty one of a path of separators, to a canonical path. */
  lemma JoinExtend(cs: seq<string>, c: string)
    requires Names(cs) && (IsName(c) || (c == "" && cs == []))
    ensures Join2(Render(cs), c) == if |Render(Extend(cs, c))| + 1 >= PATH_MAX then Err(ENAMETOOLONG)
                                    else Ok(Render(Extend(cs, c)))
  {
    if |Render(cs)| + 1 < PATH_MAX {
      if c == "" {
        Join2Text("/", "");
        assert "/" + "" == "/";
      } else {
        JoinName(cs, c);
      }
    } else {
      FlatSnoc(cs, c);
      JoinTooLong(Render(cs), c);
    }
  }

  /** The text of a place, with the end that keeps the meaning of the user's path at the first level. */
  function Text(found: Result<Place>, level: nat): Result<string> {
    match found
    case Err(e) => Err(e)
    case Ok(place) =>
      if level != 0 || place.finality in {NotFinal, FinalNormal} then Ok(Render(place.cs))
      else if |Finish(place.cs, place.finality)| + 1 >= PATH_MAX then Err(ENAMETOOLONG)
      else Ok(Finish(place.cs, place.finality))
  }

  /**
   The text of a canonical path: names other than "." and ".." with one separator in front of each, and
   at the first level perhaps a final "/" or "/." in addition.
   */
  ghost predicate IsCanonicalText(text: string, level: nat) {
    exists cs, finality :: Canonical(cs) && finality != NotFinal && text == CanonicalText(cs, finality, level)
  }

  function CanonicalText(cs: seq<string>, finality: Finality, level: nat): string {
    if level == 0 then Finish(cs, finality) else Render(cs)
  }

  /** Whatever the filesystem, the result of a resolution from a canonical base is a canonical text. */
  lemma ResultIsCanonical(fs: Filesystem, base: seq<string>, path: string, deref: bool, level: nat)
    requires Sound(fs) && path != "" && '\0' !in path && (path[0] != '/' ==> Canonical(base))
    requires Text(Resolve(fs, base, path, deref, level), level).Ok?
    ensures IsCanonicalText(Text(Resolve(fs, base, path, deref, level), level).value, level)
  {
    assert path[0] != '/' ==> forall i :: 0 <= i < |base| ==> IsProper(base[i]);
    ResolveNames(fs, base, path, deref, level, true);
    var place := Resolve(fs, base, path, deref, level).value;
    assert Text(Ok(place), level).value == CanonicalText(place.cs, place.finality, level);
  }

  predicate EndsIn(text: string, end: string) {
    |end| <= |text| && text[|text| - |end|..] == end
  }

  /**
   The result ends like the path of the user asks for it, whatever links are in between: in "/." for a last
   component ".", in "/" for a last component ".." or a final separator, and else in the last name.
   */
  lemma EndIsKept(fs: Filesystem, base: seq<string>, path: string, deref: bool)
    requires Sound(fs) && path != "" && '\0' !in path && (path[0] != '/' ==> Canonical(base))
    requires Text(Resolve(fs, base, path, deref, 0), 0).Ok?
    ensures var last, text := Items(path)[|Items(path)| - 1], Text(Resolve(fs, base, path, deref, 0), 0).value;
      if last == "." then EndsIn(text, "/.")
      else if last == ".." || (EndsWithSlash(path) && last != "") then EndsIn(text, "/")
      else text == "/" || !EndsIn(text, "/")
  {
    hide Walk, Items, Canonical, Components;
    ItemsOfPath(path, base);
    Laws.WalkEnds(fs, if path[0] == '/' then [] else base, Items(path), EndsWithSlash(path), deref, 0, 0);
    assert path[0] != '/' ==> Good(true, base) by {
      if path[0] != '/' {
        GoodBase(base);
      }
    }
    ResolveNames(fs, base, path, deref, 0, true);
    FlatShape(Resolve(fs, base, path, deref, 0).value.cs);
  }

  lemma GoodBase(cs: seq<string>)
    requires Canonical(cs)
    ensures Good(true, cs)
  {
    assert forall i :: 0 <= i < |cs| ==> IsProper(cs[i]);
  }

  /** The end of the first level. */
  method KeepFinality(guest: string, finality: Finality, ghost cs: seq<string>) returns (r: Result<string>)
    requires Names(cs) && guest == Render(cs)
    ensures r == Text(Ok(Place(cs, finality)), 0)
  {
    FlatShape(cs);
    match finality {
      case NotFinal => return Ok(guest);
      case FinalNormal => return Ok(guest);
      case FinalSlash =>
        JoinFinality(cs, "", FinalSlash);
        r := JoinPaths([guest, ""]);
      case FinalDot =>
        JoinFinality(cs, ".", FinalDot);
        r := JoinPaths([guest, "."]);
    }
  }

  lemma JoinFinality(cs: seq<string>, end: string, finality: Finality)
    requires Names(cs) && ((finality == FinalSlash && end == "") || (finality == FinalDot && end == "."))
    ensures Join2(Render(cs), end) == Text(Ok(Place(cs, finality)), 0)
  {
    FlatShape(cs);
    if |Render(cs)| + 1 < PATH_MAX {
      Join2Text(Render(cs), end);
      if cs == [] {
        assert Render(cs) == "/" && "/" + end == (if end == "" then "/" else "/.");
        assert Flat(cs) + "/." == "/.";
      } else {
        assert Flat(cs)[|Flat(cs)| - 1] != '/';
        assert Flat(cs) + "/" + end == Flat(cs) + (if end == "" then "/" else "/.");
        assert JoinStep(Flat(cs), end) == if |Flat(cs) + "/" + end| + 1 >= PATH_MAX then Err(ENAMETOOLONG)
                                          else Ok(Flat(cs) + "/" + end);
      }
    } else {
      JoinTooLong(Render(cs), end);
    }
  }

  lemma JoinTooLong(a: string, b: string)
    requires |a| + 1 >= PATH_MAX
    ensures Join2(a, b) == Err(ENAMETOOLONG)
  {
    assert [a, b][..1] == [a] && [a][..0] == [];
    assert "" + a == a;
    assert JoinAll([a]) == Err(ENAMETOOLONG);
  }

  /** The state of the loop: what is left to resolve gives the result. */
  ghost predicate Underway(fs: Filesystem, whole: Result<Place>, guest: string, cs: seq<string>, path: string,
                           cursor: nat, finality: Finality, deref: bool, level: nat, followed: nat)
    requires Sound(fs) && level <= MAXSYMLINKS
  {
    && Names(cs) && guest == Render(cs) && cursor <= |path|
    && if finality != NotFinal then whole == Ok(Place(cs, finality))
       else
         && ItemsOk(Items(path[cursor..]), cs)
         && whole == Walk(fs, cs, Items(path[cursor..]), EndsWithSlash(path[cursor..]), deref, level, followed)
  }

  /** What one turn of the loop leaves: an error, or the new state. */
  datatype Progress = Stopped(errno: nat) | Going(guest: string, cursor: nat, finality: Finality, followed: nat)

  /** What next_component left of the items. */
  ghost predicate Advanced(path: string, cursor: nat, next: nat, items: seq<string>, slash: bool, more: bool) {
    && items != [] && next <= |path| && cursor <= next && (more <==> |items| > 1)
    && (more ==> cursor < next && Items(path[next..]) == items[1..] && EndsWithSlash(path[next..]) == slash)
  }

  /** Going on with the items after the first one is the next turn of the loop. */
  lemma NextTurn(fs: Filesystem, whole: Result<Place>, cs: seq<string>, path: string, cursor: nat, next: nat,
                 items: seq<string>, slash: bool, finality: Finality, deref: bool, level: nat, followed: nat)
    requires Sound(fs) && level <= MAXSYMLINKS && Names(cs)
    requires Advanced(path, cursor, next, items, slash, finality == NotFinal) && (|items| > 1 ==> Names(items))
    requires whole == Continue(fs, cs, items, slash, deref, level, followed, finality)
    ensures Underway(fs, whole, Render(cs), cs, path, next, finality, deref, level, followed)
  {
    if finality == NotFinal {
      assert forall i :: 0 <= i < |items[1..]| ==> items[1..][i] == items[i + 1];
    }
  }

  /** One turn of the loop. */
  method Step(fs: Filesystem, path: string, deref: bool, guest: string, cursor: nat, level: nat, followed: nat,
              ghost cs: seq<string>, ghost whole: Result<Place>)
    returns (p: Progress, ghost there: seq<string>)
    requires Sound(fs) && level <= MAXSYMLINKS
    requires Underway(fs, whole, guest, cs, path, cursor, NotFinal, deref, level, followed)
    ensures p.Stopped? ==> whole == Err(p.errno)
    ensures p.Going? ==>
      && Underway(fs, whole, p.guest, there, path, p.cursor, p.finality, deref, level, p.followed)
      && cursor <= p.cursor && (p.finality == NotFinal ==> cursor < p.cursor)
    decreases MAXSYMLINKS + 1 - level, 1
  {
    ghost var items, slash := Items(path[cursor..]), EndsWithSlash(path[cursor..]);
    var component, next, finality := NextComponent(path, cursor);
    if component.Err? {
      return Stopped(component.errno), cs;
    }
    var c := component.value;
    WalkAtDots(fs, cs, items, slash, deref, level, followed);
    if c == "." {
      finality := if finality == NotFinal then NotFinal else FinalDot;
      NextTurn(fs, whole, cs, path, cursor, next, items, slash, finality, deref, level, followed);
      return Going(guest, next, finality, followed), cs;
    }
    if c == ".." {
      assert guest == Flat(cs) + (if cs == [] then "/" else "");
      var popped := PopComponent(guest, cs, if cs == [] then "/" else "");
      finality := if finality == NotFinal then NotFinal else FinalSlash;
      NextTurn(fs, whole, Parent(cs), path, cursor, next, items, slash, finality, deref, level, followed);
      return Going(popped, next, finality, followed), Parent(cs);
    }
    p, there := Enter(fs, path, deref, guest, c, cursor, next, finality, level, followed, cs, items, slash, whole);
  }

  /** The part of a turn for a name. */
  method Enter(fs: Filesystem, path: string, deref: bool, guest: string, c: string, ghost cursor: nat, next: nat,
               finality: Finality, level: nat, followed: nat,
               ghost cs: seq<string>, ghost items: seq<string>, ghost slash: bool, ghost whole: Result<Place>)
    returns (p: Progress, ghost there: seq<string>)
    requires Sound(fs) && level <= MAXSYMLINKS && Names(cs) && guest == Render(cs)
    requires Advanced(path, cursor, next, items, slash, finality == NotFinal) && ItemsOk(items, cs)
    requires finality == FinalityOf(items, slash)
    requires whole == Walk(fs, cs, items, slash, deref, level, followed)
    requires c == items[0] && |c| < NAME_MAX && c != "." && c != ".."
    ensures p.Stopped? ==> whole == Err(p.errno)
    ensures p.Going? ==>
      && Underway(fs, whole, p.guest, there, path, p.cursor, p.finality, deref, level, p.followed)
      && cursor <= p.cursor && (p.finality == NotFinal ==> cursor < p.cursor)
    decreases MAXSYMLINKS + 1 - level, 0, 1
  {
    JoinExtend(cs, c);
    NamesExtended(cs, items, false);
    var scratch := JoinPaths([guest, c]);
    if scratch.Err? {
      return Stopped(scratch.errno), cs;
    }
    var isLink := Check(fs, scratch.value, finality != NotFinal);
    if isLink.Err? {
      return Stopped(isLink.errno), cs;
    }
    if !isLink.value || (finality == FinalNormal && !deref) {
      var joined := JoinPaths([guest, c]);
      NextTurn(fs, whole, Extend(cs, c), path, cursor, next, items, slash, finality, deref, level, followed);
      return Going(joined.value, next, finality, followed), Extend(cs, c);
    }
    var target := fs(scratch.value).target;
    if target.Err? {
      return Stopped(target.errno), cs;
    }
    GuestFits(cs, c);
    p, there := Follow(fs, path, deref, guest, target.value, cursor, next, finality, level, followed, cs, items, slash, whole);
  }

  lemma GuestFits(cs: seq<string>, c: string)
    requires Names(cs) && |Render(Extend(cs, c))| + 1 < PATH_MAX
    ensures |Render(cs)| < PATH_MAX
  {
    FlatSnoc(cs, c);
  }

  /** The part of a turn for a link that is followed. */
  method Follow(fs: Filesystem, path: string, deref: bool, guest: string, target: string, ghost cursor: nat, next: nat,
                finality: Finality, level: nat, followed: nat,
                ghost cs: seq<string>, ghost items: seq<string>, ghost slash: bool, ghost whole: Result<Place>)
    returns (p: Progress, ghost there: seq<string>)
    requires Sound(fs) && level <= MAXSYMLINKS && Names(cs) && guest == Render(cs) && |guest| < PATH_MAX
    requires Advanced(path, cursor, next, items, slash, finality == NotFinal) && ItemsOk(items, cs)
    requires target != "" && '\0' !in target
    requires whole == AfterLink(fs, cs, items, slash, deref, level, followed, finality,
                                Resolve(fs, cs, target, true, level + followed + 1))
    ensures p.Stopped? ==> whole == Err(p.errno)
    ensures p.Going? ==>
      && Underway(fs, whole, p.guest, there, path, p.cursor, p.finality, deref, level, p.followed)
      && cursor <= p.cursor && (p.finality == NotFinal ==> cursor < p.cursor)
    decreases MAXSYMLINKS + 1 - level, 0, 0
  {
    var text := Canonicalize(fs, target, true, guest, level + followed + 1, cs);
    ghost var found := Resolve(fs, cs, target, true, level + followed + 1);
    ResolveNames(fs, cs, target, true, level + followed + 1, false);
    p, there := AfterFollow(fs, path, deref, guest, text, cursor, next, finality, level, followed, cs, items, slash,
                            whole, found);
  }

  /** The part of a turn after the target was canonicalized. */
  method AfterFollow(fs: Filesystem, path: string, deref: bool, guest: string, text: Result<string>, ghost cursor: nat,
                     next: nat, finality: Finality, level: nat, followed: nat,
                     ghost cs: seq<string>, ghost items: seq<string>, ghost slash: bool, ghost whole: Result<Place>,
                     ghost found: Result<Place>)
    returns (p: Progress, ghost there: seq<string>)
    requires Sound(fs) && level <= MAXSYMLINKS && Names(cs) && guest == Render(cs)
    requires Advanced(path, cursor, next, items, slash, finality == NotFinal) && ItemsOk(items, cs)
    requires text == Text(found, 1) && NamesIfOk(found, false)
    requires whole == AfterLink(fs, cs, items, slash, deref, level, followed, finality, found)
    ensures p.Stopped? ==> whole == Err(p.errno)
    ensures p.Going? ==>
      && Underway(fs, whole, p.guest, there, path, p.cursor, p.finality, deref, level, p.followed)
      && cursor <= p.cursor && (p.finality == NotFinal ==> cursor < p.cursor)
  {
    if text.Err? {
      return Stopped(text.errno), cs;
    }
    there := found.value.cs;
    RenderIsInjective(there, cs);
    if text.value == guest {
      return Stopped(ELOOP), cs;
    }
    var again := Check(fs, text.value, finality != NotFinal);
    if again.Err? {
      return Stopped(again.errno), cs;
    }
    NextTurn(fs, whole, there, path, cursor, next, items, slash, finality, deref, level, followed + 1);
    return Going(text.value, next, finality, followed + 1), there;
  }

  method Loop(fs: Filesystem, path: string, deref: bool, start: string, level: nat, ghost base: seq<string>)
    returns (r: Result<string>)
    requires Sound(fs) && level <= MAXSYMLINKS && Names(base) && start == Render(base)
    requires path != "" && ItemsOk(Items(path), base)
    ensures r == Text(Walk(fs, base, Items(path), EndsWithSlash(path), deref, level, 0), level)
    decreases MAXSYMLINKS + 1 - level, 2
  {
    ghost var whole := Walk(fs, base, Items(path), EndsWithSlash(path), deref, level, 0);
    ghost var cs := base;
    var guest, cursor, finality, followed := start, 0, NotFinal, 0;
    assert path[0..] == path;
    while finality == NotFinal
      invariant Underway(fs, whole, guest, cs, path, cursor, finality, deref, level, followed)
      decreases |path| - cursor, finality == NotFinal
    {
      var progress, there := Step(fs, path, deref, guest, cursor, level, followed, cs, whole);
      if progress.Stopped? {
        return Err(progress.errno);
      }
      guest, cursor, finality, followed := progress.guest, progress.cursor, progress.finality, progress.followed;
      cs := there;
    }
    if level == 0 {
      r := KeepFinality(guest, finality, cs);
    } else {
      r := Ok(guest);
    }
  }

  /**
   canonicalize.  The base `guest` is a canonical text when it is absolute and used.  The recursion
   ends on every filesystem, and the result is that of resolution on component lists.
   */
  method Canonicalize(fs: Filesystem, userPath: string, deref: bool, guestPath: string, level: nat,
                      ghost base: seq<string>) returns (r: Result<string>)
    requires Sound(fs) && userPath != "" && '\0' !in userPath
    requires Names(base) && (userPath[0] != '/' && guestPath != "" && guestPath[0] == '/' ==> guestPath == Render(base))
    ensures level > MAXSYMLINKS ==> r == Err(ELOOP)
    ensures level <= MAXSYMLINKS && |guestPath| >= PATH_MAX ==> r == Err(ENAMETOOLONG)
    ensures level <= MAXSYMLINKS && |guestPath| < PATH_MAX && userPath[0] != '/' && (guestPath == "" || guestPath[0] != '/') ==>
              r == Err(EINVAL)
    ensures level <= MAXSYMLINKS && |guestPath| < PATH_MAX && (userPath[0] == '/' || (guestPath != "" && guestPath[0] == '/')) ==>
              r == Text(Resolve(fs, base, userPath, deref, level), level)
    ensures r.Ok? && (userPath[0] == '/' || Canonical(base)) ==> IsCanonicalText(r.value, level)
    decreases if level <= MAXSYMLINKS then MAXSYMLINKS + 1 - level else 0, 3
  {
    if level > MAXSYMLINKS {
      return Err(ELOOP);
    }
    if |guestPath| >= PATH_MAX {
      return Err(ENAMETOOLONG);
    }
    var guest := guestPath;
    if userPath[0] != '/' {
      if guest == "" || guest[0] != '/' {
        return Err(EINVAL);
      }
    } else {
      guest := "/";
    }
    ghost var cs := if userPath[0] == '/' then [] else base;
    ItemsOfPath(userPath, base);
    assert userPath[0..] == userPath;
    r := Loop(fs, userPath, deref, guest, level, cs);
    if r.Ok? && (userPath[0] == '/' || Canonical(base)) {
      ResultIsCanonical(fs, base, userPath, deref, level);
    }
  }
}
