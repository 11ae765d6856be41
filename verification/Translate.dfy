/**
 From canonical guest paths to host paths and back: substitute_binding (path/binding.c:227-272)
 and detranslate_path without a referrer (path/path.c:402-515).
 */
module Translate {
  import opened Wrappers
  import opened Paths
  import opened Bindings
  import opened BindingTable

  datatype Substitution = NoBinding | Symmetric | Substituted(path: string)

  /** The substitution of the binding "ref:reverse" in a path that it covers. */
  function Through(ref: string, reverse: string, path: string): Substitution {
    if SameLocation(ref, reverse) then Symmetric
    else if |ref| <= |path| then Substituted(SubstitutePathPrefix(path, |ref|, reverse))
    else Substituted(path)
  }

  function SubstituteBinding(t: Table, side: Side, path: string): Substitution
    requires HasRoot(t)
  {
    match side
    case Guest =>
      var hit := FirstHit(t.guest, Guest, path);
      if hit.None? then NoBinding else Through(hit.value.guest, hit.value.host, path)
    case Host =>
      var hit := HostHit(t, path);
      if hit.None? then NoBinding else Through(hit.value.host, hit.value.guest, path)
  }

  /** The host path that translate_path computes from a canonical guest path. */
  function HostPath(t: Table, path: string): Result<string>
    requires HasRoot(t)
  {
    match SubstituteBinding(t, Guest, path)
    case NoBinding => Err(ENOENT)
    case Symmetric => Ok(path)
    case Substituted(host) => Ok(host)
  }

  function Detranslate(t: Table, path: string): Result<string>
    requires HasRoot(t) && t.guest[|t.guest| - 1].host != ""
  {
    if path == "" || path[0] != '/' then Ok(path)
    else match SubstituteBinding(t, Host, path)
      case Symmetric => Ok(path)
      case Substituted(guest) => Ok(guest)
      case NoBinding => StripRoot(t.guest[|t.guest| - 1].host, path)
  }

  /** Remove the leading part of `path`, that is, the root. */
  function StripRoot(root: string, path: string): Result<string>
    requires root != "" && path != ""
  {
    match ComparePaths(root, path)
    case Path1IsPrefix =>
      var prefixLength := if |root| == 1 then 0 else |root|;
      if prefixLength <= |path| then Ok(path[prefixLength..]) else Ok(path)
    case PathsAreEqual => Ok("/")
    case _ => Err(EPERM)
  }

  // ---------------------------------------------------------------------
  // On canonical tables
  // ---------------------------------------------------------------------

  ghost predicate CanonicalText(p: string) {
    exists cs :: Canonical(cs) && p == Render(cs)
  }

  ghost predicate CanonicalTable(t: Table) {
    WellFormed(t) && forall b :: b in t.guest ==> CanonicalText(b.host) && CanonicalText(b.guest)
  }

  /** A substitution of the binding `bh`:`bg` that is not cut short by PATH_MAX. */
  lemma SubstituteText(ref: seq<string>, reverse: seq<string>, path: seq<string>)
    requires Canonical(ref) && Canonical(reverse) && Canonical(path) && ref <= path && ref != reverse
    requires !TooLong(Render(path), |Render(ref)|, Render(reverse))
    ensures |Render(ref)| <= |Render(path)|
    ensures SubstitutePathPrefix(Render(path), |Render(ref)|, Render(reverse)) == Render(reverse + path[|ref|..])
  {
    assert path == ref + path[|ref|..];
    SubstituteComponents(ref, reverse, path[|ref|..]);
  }

  /** No binding on the host side that is hit precedes a deeper one. */
  lemma {:induction false} HostHitIsDeepest(list: seq<Binding>, path: string, c: Binding)
    requires Pairwise(list, HostBefore) && c in list && Covers(c.host, path)
    ensures FirstHit(list, Host, path).Some?
    ensures Covers(c.host, FirstHit(list, Host, path).value.host)
  {
    var h, tail := list[0], list[1..];
    if Covers(On(h, Host), path) {
      CoversChain(h.host, c.host, path);
      var i :| 0 <= i < |list| && list[i] == c;
      if i > 0 { assert HostBefore(list[0], list[i]); }
    } else {
      assert c in tail;
      HostHitIsDeepest(tail, path, c);
    }
  }

  /** The substitution of "ref:reverse" in `path` is not cut short by PATH_MAX. */
  predicate Fits(path: string, ref: string, reverse: string) {
    SameLocation(ref, reverse) || !TooLong(path, |ref|, reverse)
  }

  function Resulting(s: Substitution, path: string): string {
    if s.Substituted? then s.path else path
  }

  lemma ThroughText(ref: seq<string>, reverse: seq<string>, path: seq<string>)
    requires Canonical(ref) && Canonical(reverse) && Canonical(path) && ref <= path
    requires Fits(Render(path), Render(ref), Render(reverse))
    ensures Resulting(Through(Render(ref), Render(reverse), Render(path)), Render(path))
         == Render(reverse + path[|ref|..])
  {
    CoversIsComponentPrefix(ref, reverse);
    if ref == reverse {
      assert reverse + path[|ref|..] == path;
    } else {
      SubstituteText(ref, reverse, path);
    }
  }

  lemma GuestToHost(t: Table, g: seq<string>, b: Binding, bh: seq<string>, bg: seq<string>)
    requires HasRoot(t) && FirstHit(t.guest, Guest, Render(g)) == Some(b)
    requires Canonical(g) && Canonical(bh) && Canonical(bg) && b.host == Render(bh) && b.guest == Render(bg)
    requires Fits(Render(g), b.guest, b.host)
    ensures bg <= g && HostPath(t, Render(g)) == Ok(Render(bh + g[|bg|..]))
  {
    CoversIsComponentPrefix(bg, g);
    assert HostPath(t, Render(g)) == Ok(Resulting(Through(b.guest, b.host, Render(g)), Render(g)));
    ThroughText(bg, bh, g);
  }

  lemma HostToGuest(t: Table, h: seq<string>, c: Binding, ch: seq<string>, cg: seq<string>)
    requires HasRoot(t) && HostHit(t, Render(h)) == Some(c) && t.guest[|t.guest| - 1].host != ""
    requires Canonical(h) && Canonical(ch) && Canonical(cg) && c.host == Render(ch) && c.guest == Render(cg)
    requires Fits(Render(h), c.host, c.guest)
    ensures ch <= h && Detranslate(t, Render(h)) == Ok(Render(cg + h[|ch|..]))
  {
    CoversIsComponentPrefix(ch, h);
    assert Detranslate(t, Render(h)) == Ok(Resulting(Through(c.host, c.guest, Render(h)), Render(h)));
    ThroughText(ch, cg, h);
  }

  /** Inside of the guest rootfs the leading root is removed. */
  lemma StripRootText(h: seq<string>, root: seq<string>)
    requires Canonical(h) && Canonical(root) && root != [] && root <= h
    ensures StripRoot(Render(root), Render(h)) == Ok(Render(h[|root|..]))
  {
    FlatShape(h);
    FlatShape(root);
    CoversIsComponentPrefix(root, h);
    var rest := h[|root|..];
    assert h == root + rest;
    FlatAppend(root, rest);
    if rest == [] {
      assert root == h;
    } else {
      assert root != h;
      assert (Flat(root) + Flat(rest))[|Flat(root)|..] == Flat(rest);
    }
  }

  lemma RootIsStripped(t: Table, h: seq<string>, root: seq<string>)
    requires HasRoot(t) && Canonical(h) && Canonical(root) && t.guest[|t.guest| - 1].host == Render(root)
    requires root != [] && root <= h
    ensures Detranslate(t, Render(h)) == Ok(Render(h[|root|..]))
  {
    StripRootText(h, root);
    CoversIsComponentPrefix(root, h);
    CoversIsComponentPrefix(root, []);
    assert HostHit(t, Render(h)).None?;
  }

  /**
   The binding that decides the way back of the host path `h`: the root binding inside of a guest
   rootfs other than "/", otherwise the first hit on the host side.
   */
  function WayBack(t: Table, h: string): Option<Binding>
    requires HasRoot(t)
  {
    var root := t.guest[|t.guest| - 1];
    if Hidden(root.host, h) then Some(root) else FirstHit(t.host, Host, h)
  }

  /** The answer of Detranslate on any host path that a binding covers. */
  lemma DetranslateText(t: Table, h: seq<string>, c: Binding, ch: seq<string>, cg: seq<string>)
    requires CanonicalTable(t) && Canonical(h) && WayBack(t, Render(h)) == Some(c)
    requires Canonical(ch) && Canonical(cg) && c.host == Render(ch) && c.guest == Render(cg)
    requires Fits(Render(h), c.host, c.guest)
    ensures ch <= h && Detranslate(t, Render(h)) == Ok(Render(cg + h[|ch|..]))
  {
    var root := t.guest[|t.guest| - 1];
    assert root in t.guest;
    if Hidden(root.host, Render(h)) {
      CoversIsComponentPrefix(ch, h);
      CoversIsComponentPrefix(ch, []);
      RootIsStripped(t, h, ch);
      CoversIsComponentPrefix(cg, []);
      assert cg == [];
      assert cg + h[|ch|..] == h[|ch|..];
    } else {
      HostToGuest(t, h, c, ch, cg);
    }
  }

  lemma BackThroughShallower(g: seq<string>, bh: seq<string>, bg: seq<string>, ch: seq<string>, cg: seq<string>)
    requires bg <= g && ch <= bh
    ensures ch <= bh + g[|bg|..]
    ensures cg + (bh + g[|bg|..])[|ch|..] == g <==> bg == cg + bh[|ch|..]
  {
    var rest := g[|bg|..];
    var back := cg + (bh + rest)[|ch|..];
    var front := cg + bh[|ch|..];
    assert g == bg + rest && back == front + rest;
    if back == g {
      assert |front| == |bg|;
      assert front == back[..|front|] && bg == g[..|bg|];
    }
  }

  lemma BackThroughDeeper(g: seq<string>, bh: seq<string>, bg: seq<string>, ch: seq<string>, cg: seq<string>)
    requires bg <= g && bh < ch <= bh + g[|bg|..]
    requires cg + (bh + g[|bg|..])[|ch|..] == g
    ensures bg < cg <= g
  {
    var rest := g[|bg|..];
    var r1 := ch[|bh|..];
    var r2 := (bh + rest)[|ch|..];
    assert rest == r1 + r2;
    assert g == (bg + r1) + r2 && g == cg + r2;
    assert |cg| == |bg + r1|;
    assert cg == g[..|cg|];
  }

  /** On the guest side no binding but the first hit is deeper and still covers the path. */
  lemma NoDeeperGuest(t: Table, g: seq<string>, b: Binding, bg: seq<string>, c: Binding, cg: seq<string>)
    requires Consistent(t) && Canonical(g) && FirstHit(t.guest, Guest, Render(g)) == Some(b) && c in t.guest
    requires Canonical(bg) && Canonical(cg) && b.guest == Render(bg) && c.guest == Render(cg)
    ensures !(bg < cg <= g)
  {
    FirstHitIsDeepest(t.guest, Render(g));
    CoversIsComponentPrefix(cg, g);
    CoversIsComponentPrefix(cg, bg);
  }

  lemma WayBackIsBound(t: Table, h: string)
    requires WellFormed(t)
    ensures WayBack(t, h).Some? ==> WayBack(t, h).value in t.guest
  {
    assert t.guest[|t.guest| - 1] in t.guest;
  }

  /**
   The way back of the host path of `g` gives `g` again exactly when the binding `c` that decides it
   maps the host path of `b`, the binding that translated `g`, back to the guest path of `b`.
   */
  lemma RoundTripExactly(t: Table, g: seq<string>, hostPath: string, b: Binding, bh: seq<string>, bg: seq<string>,
                         c: Binding, ch: seq<string>, cg: seq<string>)
    requires CanonicalTable(t) && Canonical(g) && FirstHit(t.guest, Guest, Render(g)) == Some(b)
    requires Canonical(bh) && Canonical(bg) && b.host == Render(bh) && b.guest == Render(bg)
    requires Canonical(ch) && Canonical(cg) && c.host == Render(ch) && c.guest == Render(cg)
    requires Fits(Render(g), b.guest, b.host) && HostPath(t, Render(g)) == Ok(hostPath)
    requires WayBack(t, hostPath) == Some(c) && Fits(hostPath, c.host, c.guest)
    ensures Detranslate(t, hostPath) == Ok(Render(g)) <==> ch <= bh && bg == cg + bh[|ch|..]
  {
    hide Covers, FirstHit, Detranslate, HostPath, WayBack, Fits;
    GuestToHost(t, g, b, bh, bg);
    var h := bh + g[|bg|..];
    DetranslateText(t, h, c, ch, cg);
    SameText(cg + h[|ch|..], g);
    WayBackIsBound(t, hostPath);
    NoDeeperGuest(t, g, b, bg, c, cg);
    BackIs(g, bh, bg, ch, cg);
  }

  lemma SameText(a: seq<string>, b: seq<string>)
    requires Canonical(a) && Canonical(b)
    ensures Render(a) == Render(b) <==> a == b
  {
    CoversIsComponentPrefix(a, b);
  }

  lemma BackIs(g: seq<string>, bh: seq<string>, bg: seq<string>, ch: seq<string>, cg: seq<string>)
    requires bg <= g && ch <= bh + g[|bg|..] && !(bg < cg <= g)
    ensures cg + (bh + g[|bg|..])[|ch|..] == g <==> ch <= bh && bg == cg + bh[|ch|..]
  {
    var h := bh + g[|bg|..];
    if |ch| <= |bh| {
      assert ch == h[..|ch|] == bh[..|ch|];
      BackThroughShallower(g, bh, bg, ch, cg);
    } else if cg + h[|ch|..] == g {
      BackThroughDeeper(g, bh, bg, ch, cg);
    }
  }

  /**
   When no host path of a binding covers that of another, every canonical guest path that join_paths
   can make survives the way to the host and back, unless its host path reaches PATH_MAX.
   */
  lemma RoundTrip(t: Table, g: seq<string>, hostPath: string)
    requires CanonicalTable(t) && Canonical(g) && HostPath(t, Render(g)) == Ok(hostPath)
    requires forall b, c :: b in t.guest && c in t.guest && b != c ==> !Covers(b.host, c.host)
    requires |Render(g)| + 1 < PATH_MAX
    requires var hit := FirstHit(t.guest, Guest, Render(g)); hit.Some? ==> Fits(Render(g), hit.value.guest, hit.value.host)
    ensures Detranslate(t, hostPath) == Ok(Render(g))
  {
    EveryGuestPathHasAHostPath(t, g);
    var b := FirstHit(t.guest, Guest, Render(g)).value;
    assert CanonicalText(b.host) && CanonicalText(b.guest);
    var bh :| Canonical(bh) && b.host == Render(bh);
    var bg :| Canonical(bg) && b.guest == Render(bg);
    RoundTripThrough(t, g, hostPath, b, bh, bg);
  }

  /** The guest path is not too long for the way back to it. */
  lemma WayBackFits(g: seq<string>, bh: seq<string>, bg: seq<string>)
    requires Canonical(g) && Canonical(bh) && bg <= g && |Render(g)| + 1 < PATH_MAX
    ensures Fits(Render(bh + g[|bg|..]), Render(bh), Render(bg))
  {
    var rest := g[|bg|..];
    assert g == bg + rest;
    FlatAppend(bg, rest);
    FlatAppend(bh, rest);
    FlatShape(bg);
    FlatShape(bh);
    FlatShape(rest);
  }

  lemma RoundTripThrough(t: Table, g: seq<string>, hostPath: string, b: Binding, bh: seq<string>, bg: seq<string>)
    requires CanonicalTable(t) && Canonical(g) && HostPath(t, Render(g)) == Ok(hostPath)
    requires FirstHit(t.guest, Guest, Render(g)) == Some(b)
    requires Canonical(bh) && Canonical(bg) && b.host == Render(bh) && b.guest == Render(bg)
    requires |Render(g)| + 1 < PATH_MAX && Fits(Render(g), b.guest, b.host)
    requires forall c, d :: c in t.guest && d in t.guest && c != d ==> !Covers(c.host, d.host)
    ensures Detranslate(t, hostPath) == Ok(Render(g))
  {
    hide Covers, FirstHit, Detranslate, HostPath;
    GuestToHost(t, g, b, bh, bg);
    CoversIsComponentPrefix(bh, bh + g[|bg|..]);
    OnlyWayBack(t, hostPath, b);
    WayBackFits(g, bh, bg);
    assert bg == bg + bh[|bh|..];
    RoundTripExactly(t, g, hostPath, b, bh, bg, b, bh, bg);
  }

  /** Every canonical guest path has a host path. */
  lemma EveryGuestPathHasAHostPath(t: Table, g: seq<string>)
    requires WellFormed(t) && Canonical(g)
    ensures FirstHit(t.guest, Guest, Render(g)).Some? && HostPath(t, Render(g)).Ok?
  {
    FlatShape(g);
    RootAlwaysHit(t, Render(g));
  }

  lemma OnlyWayBack(t: Table, h: string, b: Binding)
    requires WellFormed(t) && b in t.guest && Covers(b.host, h)
    requires forall c, d :: c in t.guest && d in t.guest && c != d ==> !Covers(c.host, d.host)
    ensures WayBack(t, h) == Some(b)
  {
    hide StrictlyCovers, Covers, FirstHit, SameLocation;
    var root := t.guest[|t.guest| - 1];
    assert root in t.guest;
    if Hidden(root.host, h) {
      CoversChain(root.host, b.host, h);
    } else {
      HostHitIsDeepest(t.host, h, b);
      assert FirstHit(t.host, Host, h).value in t.guest;
    }
  }

  /** A host path too long for PATH_MAX is reported as substituted although it is still the guest path. */
  lemma TooLongIsSilent(t: Table, g: seq<string>, b: Binding, bh: seq<string>, bg: seq<string>)
    requires HasRoot(t) && FirstHit(t.guest, Guest, Render(g)) == Some(b)
    requires Canonical(g) && Canonical(bh) && Canonical(bg) && b.host == Render(bh) && b.guest == Render(bg)
    requires !Fits(Render(g), b.guest, b.host)
    ensures SubstituteBinding(t, Guest, Render(g)) == Substituted(Render(g))
    ensures HostPath(t, Render(g)) == Ok(Render(g))
  {
    CoversIsComponentPrefix(bg, g);
    CoversIsComponentPrefix(bh, bg);
    assert g == bg + g[|bg|..];
    SubstituteComponents(bg, bh, g[|bg|..]);
  }
  /** A path is cut short by PATH_MAX exactly when its result would not fit, or the bare root would leave no room. */
  lemma TooLongExactly(ref: seq<string>, reverse: seq<string>, rest: seq<string>)
    requires Canonical(ref) && Canonical(reverse) && Canonical(rest) && (ref != [] || reverse != [])
    requires |Render(ref + rest)| < PATH_MAX
    ensures TooLong(Render(ref + rest), |Render(ref)|, Render(reverse)) <==>
      |Render(reverse + rest)| + (if ref + rest == [] then 1 else 0) >= PATH_MAX
    ensures |Render(ref)| <= |Render(ref + rest)|
    ensures |SubstitutePathPrefix(Render(ref + rest), |Render(ref)|, Render(reverse))| < PATH_MAX
  {
    hide Canonical, Flat, SubstitutePathPrefix, Trim;
    SameText(ref, []);
    FlatOfNone();
    FlatAppend(ref, rest);
    FlatAppend(reverse, rest);
    NamesOfText(ref);
    NamesOfText(reverse);
    NamesOfText(rest);
    FlatShape(ref);
    FlatShape(reverse);
    FlatShape(rest);
    assert ref == [] ==> ref + rest == rest;
    assert reverse == [] ==> reverse + rest == rest;
    SubstituteComponents(ref, reverse, rest);
  }

  lemma NamesOfText(cs: seq<string>)
    requires Canonical(cs)
    ensures Names(cs)
  {
    assert forall i :: 0 <= i < |cs| ==> IsProper(cs[i]);
  }

  /** An absolute host path has a guest path exactly if some binding covers it; else the answer is EPERM. */
  lemma OnlyBoundPathsComeBack(t: Table, h: string)
    requires WellFormed(t) && AbsText(h) && t.guest[|t.guest| - 1].host != ""
    ensures Detranslate(t, h).Ok? <==> exists b :: b in t.guest && Covers(b.host, h)
    ensures Detranslate(t, h).Err? ==> Detranslate(t, h) == Err(EPERM)
  {
    hide Covers, StrictlyCovers, SameLocation, ComparePaths, FirstHit, SubstitutePathPrefix;
    var root := t.guest[|t.guest| - 1];
    assert root in t.guest;
    ConsistentOf(t);
    ComparisonCovers(root.host, h);
    if b :| b in t.guest && Covers(b.host, h) {
      if !Hidden(root.host, h) {
        HostHitIsDeepest(t.host, h, b);
      }
    } else {
      assert FirstHit(t.host, Host, h).None?;
    }
  }
}
