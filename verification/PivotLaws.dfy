/**
 What pivot_root and initialize_bindings do to the guest's view, in terms of locations: which binding is
 found where afterwards, and nothing else.
 */
module PivotLaws {
  import opened Wrappers
  import opened Paths
  import opened Bindings
  import opened Pivot

  // ----- Where the old root goes -----

  /** A final "/" or "/." of a path. */
  function Ending(finality: Finality): string {
    match finality
    case FinalSlash => "/"
    case FinalDot => "/."
    case _ => ""
  }

  lemma BelowText(a: string, b: string, e: string)
    requires a != "" && b != "" && a[|a| - 1] != '/' && b[|b| - 1] != '/' && e in {"", "/", "/."}
    ensures a <= b + e && CharAt(b + e, |a|) == '/' <==> a <= b && (if |a| == |b| then e != "" else b[|a|] == '/')
  {
    var p := b + e;
    if |a| <= |b| {
      assert p[..|a|] == b[..|a|];
      assert |a| < |b| ==> p[|a|] == b[|a|];
      assert |a| == |b| && e != "" ==> p[|a|] == e[0];
    }
  }

  lemma CutText(a: string, r: string, e: string)
    ensures ((a + r) + e)[|a|..] == r + e && |a| <= |a + r|
  {
  }

  lemma PrefixOf(a: seq<string>, b: seq<string>)
    requires Names(a) && Names(b) && a != [] && b != []
    ensures Flat(a) <= Flat(b) && (|Flat(a)| == |Flat(b)| || Flat(b)[|Flat(a)|] == '/') <==> a <= b
    ensures a <= b ==> (|Flat(a)| == |Flat(b)| <==> |a| == |b|)
  {
    hide Flat;
    if a <= b {
      var rest := b[|a|..];
      assert b == a + rest;
      FlatAppend(a, rest);
      FlatShape(rest);
      if rest == [] {
        FlatOfNone();
      }
    }
    if Flat(a) <= Flat(b) && (|Flat(a)| == |Flat(b)| || Flat(b)[|Flat(a)|] == '/') {
      FlatPrefix(a, b);
    }
  }

  /** What is left of a text once the new root is cut off. */
  lemma RestText(rest: seq<string>, finality: Finality)
    requires Names(rest) && finality != NotFinal
    ensures rest != [] || finality != FinalNormal ==> Flat(rest) + Ending(finality) == Finish(rest, finality)
    ensures rest != [] ==> CharAt(Finish(rest, finality), 0) == '/' && CharAt(Finish(rest, finality), 1) != '\0'
  {
    FlatShape(rest);
    if rest != [] {
      assert Flat(rest) + "" == Flat(rest) && IsName(rest[0]);
      assert Flat(rest)[1] == rest[0][0];
    }
  }

  /** put_old relative to the new root, in components: it is exposed if it lies below, or is the new root with "/.". */
  lemma PutOldIsRelative(root: seq<string>, putOld: seq<string>, finality: Finality)
    requires Canonical(root) && Canonical(putOld) && finality != NotFinal
    ensures PutOldAfter(Render(root), Finish(putOld, finality)) ==
      if root <= putOld && (|putOld| > |root| || finality == FinalDot) then Some(Finish(putOld[|root|..], finality))
      else None
  {
    hide Flat, Canonical, Trim;
    NamesOf(root);
    NamesOf(putOld);
    FlatShape(root);
    FlatShape(putOld);
    FlatOfNone();
    var text := Finish(putOld, finality);
    assert text == if putOld == [] && finality != FinalDot then "/" else Flat(putOld) + Ending(finality) by {
      assert Flat(putOld) + "" == Flat(putOld);
    }
    if root == [] {
      assert putOld[0..] == putOld && text[0] == '/';
    } else if putOld == [] {
      assert Flat([]) + "/." == "/.";
      assert |text| <= 2 <= |Render(root)|;
    } else {
      BelowText(Flat(root), Flat(putOld), Ending(finality));
      PrefixOf(root, putOld);
      if root <= putOld {
        var rest := putOld[|root|..];
        assert putOld == root + rest;
        FlatAppend(root, rest);
        CutText(Flat(root), Flat(rest), Ending(finality));
        RestText(rest, finality);
      }
    }
  }

  // ----- The guest's view after the pivot -----

  /** The guest path lies strictly under the new root, and moves with it. */
  predicate Below(newRoot: string, guest: string) {
    newRoot != "/" && StrictlyCovers(newRoot, guest)
  }

  lemma MovesIffBelow(b: Binding, newRoot: string)
    requires Tidy(newRoot) && Tidy(b.guest) && CharAt(b.guest, 1) != '/'
    ensures Moves(b, newRoot) <==> Below(newRoot, b.guest)
  {
  }

  /** No guest path begins with two separators. */
  ghost predicate Single(p: Pivoting) {
    forall b :: b in p.before.guest ==> CharAt(b.guest, 1) != '/'
  }

  lemma SitsIffCovered(b: Binding, put: string)
    requires Tidy(put) && put != "/" && Tidy(b.guest)
    ensures SitsUnder(b, put) <==> Covers(put, b.guest)
  {
  }

  /** The old root, seen through the lookup of "/". */
  function HostOfRoot(t: Table): string
    requires HasRoot(t)
  {
    t.guest[|t.guest| - 1].host
  }

  /** A binding that stays outside of the new root gets an alias below put_old. */
  predicate Aliased(newRoot: string, put: Option<string>, guest: string) {
    && guest != "/" && !Below(newRoot, guest) && put.Some?
    && !Covers(put.value, guest) && |put.value + guest| < PATH_MAX
  }

  /** What is found where after a pivot. */
  ghost predicate Found(t: Table, newRootHost: string, newRoot: string, put: Option<string>, r: Table)
    requires HasRoot(t)
  {
    && MapsTo(r, "/", newRootHost)
    && (put.Some? ==> MapsTo(r, put.value, HostOfRoot(t)))
    && (forall b :: b in t.guest && Below(newRoot, b.guest) && |newRoot| <= |b.guest| ==>
          MapsTo(r, b.guest[|newRoot|..], b.host))
    && (forall b :: b in t.guest && Aliased(newRoot, put, b.guest) ==> MapsTo(r, put.value + b.guest, b.host))
  }

  /** Where a binding after the pivot comes from. */
  ghost predicate ComesFrom(t: Table, newRootHost: string, newRoot: string, put: Option<string>, c: Binding)
    requires HasRoot(t)
  {
    || (c.guest == "/" && c.host == newRootHost)
    || (put == Some(c.guest) && c.host == HostOfRoot(t))
    || (exists b :: b in t.guest && b.host == c.host && Below(newRoot, b.guest) && b.guest == newRoot + c.guest)
    || (exists b :: b in t.guest && b.host == c.host && Aliased(newRoot, put, b.guest) && c.guest == put.value + b.guest)
    || (c in t.guest && c.guest != "/" && !Below(newRoot, c.guest))
  }

  lemma UsableAt(p: Pivoting, b: Binding)
    requires Usable(p) && Single(p) && b in p.before.guest
    ensures Tidy(p.newRoot) && p.newRoot != "" && Tidy(b.guest) && CharAt(b.guest, 1) != '/'
    ensures p.put.Some? ==> Tidy(p.put.value) && p.put.value != "/"
  {
  }

  lemma TargetIs(p: Pivoting, b: Binding)
    requires Usable(p) && Single(p) && FirstHit(p.before.guest, Guest, "/").Some? && b in p.before.guest
    requires OldRoot(p) in p.before.guest && OldRoot(p).guest == "/"
    ensures Below(p.newRoot, b.guest) ==>
      |p.newRoot| <= |b.guest| && b.guest == p.newRoot + b.guest[|p.newRoot|..]
      && Target(p, b) == Some(b.guest[|p.newRoot|..])
    ensures Aliased(p.newRoot, p.put, b.guest) ==> p.put.Some? && Target(p, b) == Some(p.put.value + b.guest)
    ensures !Below(p.newRoot, b.guest) && !Aliased(p.newRoot, p.put, b.guest) ==> Target(p, b) == None
    ensures b == OldRoot(p) <==> b.guest == "/"
  {
    hide WellFormed, Covers, StrictlyCovers, Tidy, Usable, Below, FirstHit, SitsUnder;
    UsableAt(p, b);
    MovesIffBelow(b, p.newRoot);
    if p.put.Some? {
      SitsIffCovered(b, p.put.value);
    }
    OldRootIs(p, b);
  }

  lemma OldRootIs(p: Pivoting, b: Binding)
    requires Usable(p) && FirstHit(p.before.guest, Guest, "/").Some? && b in p.before.guest
    requires OldRoot(p) in p.before.guest && OldRoot(p).guest == "/"
    ensures (b == OldRoot(p) <==> b.guest == "/") && (b.id == OldRoot(p).id <==> b == OldRoot(p))
    ensures OldRoot(p).host == HostOfRoot(p.before)
  {
    if b.guest == "/" || b.id == OldRoot(p).id {
      GuestIsKey(p.before.guest, b, OldRoot(p));
    }
    RootAlwaysHit(p.before, "/");
  }

  lemma RootIsThere(p: Pivoting)
    requires Usable(p)
    ensures FirstHit(p.before.guest, Guest, "/").Some? && HasRoot(p.before)
  {
    RootAlwaysHit(p.before, "/");
  }

  lemma PivotFinds(p: Pivoting)
    requires Usable(p) && Single(p)
    ensures FirstHit(p.before.guest, Guest, "/").Some? && HasRoot(p.before)
    ensures Found(p.before, p.newRootHost, p.newRoot, p.put, PivotUpTo(p, |p.before.guest|))
  {
    hide PivotUpTo, Target, WellFormed, MapsTo, Below, Aliased, FirstHit, Progress, Tidy, Covers;
    RootIsThere(p);
    PivotExposes(p);
    BaseProgress(p);
    OldRootIs(p, OldRoot(p));
    forall b | b in p.before.guest
      ensures Below(p.newRoot, b.guest) ==> |p.newRoot| <= |b.guest| && Target(p, b) == Some(b.guest[|p.newRoot|..])
      ensures Aliased(p.newRoot, p.put, b.guest) ==> p.put.Some? && Target(p, b) == Some(p.put.value + b.guest)
    {
      TargetIs(p, b);
    }
  }

  lemma WantedComesFrom(p: Pivoting, c: Binding)
    requires Usable(p) && Single(p) && FirstHit(p.before.guest, Guest, "/").Some?
    requires OldRoot(p) in p.before.guest && OldRoot(p).guest == "/"
    requires Wanted(p, |p.before.guest|, c.guest, c.host)
    ensures ComesFrom(p.before, p.newRootHost, p.newRoot, p.put, c)
  {
    hide Target, WellFormed, Below, Aliased, Tidy;
    OldRootIs(p, OldRoot(p));
    if !(c.guest == "/" && c.host == p.newRootHost) && !(p.put == Some(c.guest) && c.host == OldRoot(p).host) {
      var j :| 0 <= j < |p.before.guest| && Target(p, p.before.guest[j]) == Some(c.guest) && p.before.guest[j].host == c.host;
      TargetIs(p, p.before.guest[j]);
      assert p.before.guest[j] in p.before.guest;
    }
  }

  lemma PivotAddsOnly(p: Pivoting, c: Binding)
    requires Usable(p) && Single(p) && FirstHit(p.before.guest, Guest, "/").Some? && c in PivotUpTo(p, |p.before.guest|).guest
    ensures HasRoot(p.before) && ComesFrom(p.before, p.newRootHost, p.newRoot, p.put, c)
  {
    hide PivotUpTo, Target, Wanted, Below, Aliased;
    PivotAddsNothingElse(p);
    BaseProgress(p);
    if Wanted(p, |p.before.guest|, c.guest, c.host) {
      WantedComesFrom(p, c);
    } else {
      MovesIffBelow(c, p.newRoot);
      OldRootIs(p, c);
    }
  }

  /**
   emulate_pivot_root on canonical paths: the new root, the old root at put_old, each binding under the new
   root at its rest, each other one also below put_old, and nothing that does not come from these.
   */
  lemma PivotRootView(t: Table, newRootHost: string, root: seq<string>, putOld: seq<string>)
    requires WellFormed(t) && Canonical(root) && Canonical(putOld)
    requires var put := if root < putOld then Some(Render(putOld[|root|..])) else None;
      Usable(Pivoting(t, newRootHost, Render(root), put)) && Single(Pivoting(t, newRootHost, Render(root), put))
    ensures var put := if root < putOld then Some(Render(putOld[|root|..])) else None;
      var r := PivotRoot(t, newRootHost, Render(root), Render(putOld));
      && Found(t, newRootHost, Render(root), put, r)
      && forall c :: c in r.guest ==> ComesFrom(t, newRootHost, Render(root), put, c)
  {
    hide WellFormed, Canonical, Usable, Render, PivotUpTo, Found, ComesFrom, PutOldAfter;
    PutOldIsRelative(root, putOld, FinalNormal);
    var put := if root < putOld then Some(Render(putOld[|root|..])) else None;
    assert PutOldAfter(Render(root), Render(putOld)) == put;
    var p := Pivoting(t, newRootHost, Render(root), put);
    PivotFinds(p);
    RootIsThere(p);
    forall c | c in PivotUpTo(p, |t.guest|).guest
      ensures ComesFrom(t, newRootHost, Render(root), put, c)
    {
      PivotAddsOnly(p, c);
    }
  }

  // ----- initialize_bindings -----

  /** A pending binding at its canonical guest path; the one for "/" as it is, one without such a path not at all. */
  function ResolvedAt(pending: seq<Binding>, resolved: seq<Option<string>>, j: nat): Option<Binding>
    requires j < |pending| == |resolved|
  {
    if SameLocation(pending[j].guest, "/") then Some(pending[j])
    else if resolved[j].Some? then Some(pending[j].(guest := resolved[j].value))
    else None
  }

  ghost predicate Shadowed(pending: seq<Binding>, resolved: seq<Option<string>>, i: nat, guest: string)
    requires i < |pending| == |resolved|
  {
    ResolvedAt(pending, resolved, i).Some? && SameLocation(ResolvedAt(pending, resolved, i).value.guest, guest)
  }

  /** The pending binding `j` is in use: no earlier one from `k` on is for the same location. */
  ghost predicate InUse(pending: seq<Binding>, resolved: seq<Option<string>>, k: nat, j: nat, c: Binding)
    requires |pending| == |resolved|
  {
    && k <= j < |pending| && ResolvedAt(pending, resolved, j) == Some(c)
    && forall i {:trigger Shadowed(pending, resolved, i, c.guest)} :: k <= i < j ==> !Shadowed(pending, resolved, i, c.guest)
  }

  ghost predicate Used(pending: seq<Binding>, resolved: seq<Option<string>>, k: nat, c: Binding)
    requires |pending| == |resolved|
  {
    exists j: nat :: InUse(pending, resolved, k, j, c)
  }

  lemma InUseFromNext(pending: seq<Binding>, resolved: seq<Option<string>>, k: nat, j: nat, c: Binding)
    requires |pending| == |resolved| && k < j < |pending|
    ensures InUse(pending, resolved, k, j, c) <==>
      InUse(pending, resolved, k + 1, j, c) && !Shadowed(pending, resolved, k, c.guest)
  {
  }

  /** One more pending binding in front of those in use. */
  lemma OneMoreInUse(t: Table, pending: seq<Binding>, resolved: seq<Option<string>>, k: nat, u: Table)
    requires |pending| == |resolved| && k < |pending|
    requires forall c :: c in t.guest <==> Used(pending, resolved, k + 1, c)
    requires match ResolvedAt(pending, resolved, k)
             case Some(b) => forall c :: c in u.guest <==> c == b || (c in t.guest && !SameLocation(c.guest, b.guest))
             case None => u == t
    ensures forall c :: c in u.guest <==> Used(pending, resolved, k, c)
  {
    hide ResolvedAt, SameLocation;
    forall c: Binding
      ensures c in u.guest <==> Used(pending, resolved, k, c)
    {
      if c in u.guest {
        if ResolvedAt(pending, resolved, k) == Some(c) {
          assert InUse(pending, resolved, k, k, c);
        } else {
          var j: nat :| InUse(pending, resolved, k + 1, j, c);
          Symmetric(pending, resolved, k, c.guest);
          InUseFromNext(pending, resolved, k, j, c);
        }
      }
      if Used(pending, resolved, k, c) {
        var j: nat :| InUse(pending, resolved, k, j, c);
        if j > k {
          InUseFromNext(pending, resolved, k, j, c);
          Symmetric(pending, resolved, k, c.guest);
          assert Used(pending, resolved, k + 1, c);
        }
      }
    }
  }

  lemma Symmetric(pending: seq<Binding>, resolved: seq<Option<string>>, k: nat, guest: string)
    requires k < |pending| == |resolved|
    ensures Shadowed(pending, resolved, k, guest) <==>
      ResolvedAt(pending, resolved, k).Some? && SameLocation(guest, ResolvedAt(pending, resolved, k).value.guest)
  {
  }

  /**
   After initialize_bindings each location has the first pending binding for it, and there are no other
   bindings: the list is walked backwards, and what is inserted later replaces what was there.
   */
  lemma {:induction false} FirstPendingWins(pending: seq<Binding>, resolved: seq<Option<string>>, k: nat, nextId: nat)
    requires Pending(pending, resolved, nextId) && k <= |pending|
    ensures forall c :: c in Initialized(pending, resolved, k, nextId).guest <==>
              Used(pending, resolved, k, c)
    decreases |pending| - k
  {
    hide InUse, Insort2, Consistent;
    if k < |pending| {
      FirstPendingWins(pending, resolved, k + 1, nextId);
      InitializedIsConsistent(pending, resolved, k + 1, nextId);
      var t, u := Initialized(pending, resolved, k + 1, nextId), Initialized(pending, resolved, k, nextId);
      PendingAt(pending, resolved, nextId, k, t);
      if ResolvedAt(pending, resolved, k).Some? {
        Insort2Keeps(t, ResolvedAt(pending, resolved, k).value);
      }
      OneMoreInUse(t, pending, resolved, k, u);
    } else {
      NoneInUse(pending, resolved, k);
    }
  }

  lemma NoneInUse(pending: seq<Binding>, resolved: seq<Option<string>>, k: nat)
    requires k == |pending| == |resolved|
    ensures forall j, c :: !InUse(pending, resolved, k, j, c)
  {
  }

  lemma PendingAt(pending: seq<Binding>, resolved: seq<Option<string>>, nextId: nat, k: nat, t: Table)
    requires Pending(pending, resolved, nextId) && k < |pending|
    requires forall c :: c in t.guest ==> exists j :: k + 1 <= j < |pending| && pending[j].id == c.id
    ensures ResolvedAt(pending, resolved, k).Some? ==>
      var b := ResolvedAt(pending, resolved, k).value;
      AbsText(b.host) && AbsText(b.guest) && b.id < nextId && forall c :: c in t.guest ==> c.id != b.id
  {
    forall c | c in t.guest
      ensures c.id != pending[k].id
    {
      var j :| k + 1 <= j < |pending| && pending[j].id == c.id;
    }
  }
}
