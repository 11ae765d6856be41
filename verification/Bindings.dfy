/**
 The two ordered lists of bindings (path/binding.c): sorted insertion, first-hit lookup,
 and the emulation of mount, umount and pivot_root on them (syscall/enter.c).
 */
module Bindings {
  import opened Wrappers
  import opened Paths

  /** One "host:guest" binding; `id` stands for its address. */
  datatype Binding = Binding(id: nat, host: string, guest: string)

  datatype Side = Guest | Host

  function On(b: Binding, side: Side): string {
    if side == Guest then b.guest else b.host
  }

  /** An absolute C string. */
  predicate AbsText(p: string) {
    p != "" && p[0] == '/' && '\0' !in p
  }

  predicate Texts(list: seq<Binding>) {
    forall i :: 0 <= i < |list| ==> AbsText(list[i].host) && AbsText(list[i].guest)
  }

  ghost predicate Pairwise(list: seq<Binding>, before: (Binding, Binding) -> bool) {
    forall i, j :: 0 <= i < j < |list| ==> before(list[i], list[j])
  }

  /** In the guest list no binding precedes one at or below its location. */
  predicate GuestBefore(b: Binding, c: Binding) {
    b.id != c.id && !Covers(b.guest, c.guest)
  }

  /** In the host list no binding precedes one strictly below its location. */
  predicate HostBefore(b: Binding, c: Binding) {
    b.id != c.id && !StrictlyCovers(b.host, c.host)
  }

  // ---------------------------------------------------------------------
  // The state of both lists, and the operations as functions on it
  // ---------------------------------------------------------------------

  datatype Table = Table(guest: seq<Binding>, host: seq<Binding>, nextId: nat)

  /** Everything that holds between two operations, but for the root. */
  ghost predicate Consistent(t: Table) {
    && Texts(t.guest) && Texts(t.host)
    && Pairwise(t.guest, GuestBefore)
    && Pairwise(t.host, HostBefore)
    && (forall b :: b in t.guest <==> b in t.host)
    && (forall b :: b in t.guest ==> b.id < t.nextId)
  }

  predicate HasRoot(t: Table) {
    t.guest != [] && t.guest[|t.guest| - 1].guest == "/"
  }

  ghost predicate WellFormed(t: Table) {
    Consistent(t) && HasRoot(t)
  }

  function InsertAt(list: seq<Binding>, k: nat, b: Binding): seq<Binding>
    requires k <= |list|
  {
    list[..k] + [b] + list[k..]
  }

  /** One more than the index of the last binding that `path` covers, or 0. */
  function AfterLastCovered(list: seq<Binding>, side: Side, path: string): (k: nat)
    ensures k <= |list|
    ensures k > 0 ==> Covers(path, On(list[k - 1], side))
    ensures forall i :: k <= i < |list| ==> !Covers(path, On(list[i], side))
  {
    if list == [] then 0
    else if Covers(path, On(list[|list| - 1], side)) then |list|
    else AfterLastCovered(list[..|list| - 1], side, path)
  }

  /** The index of the first binding to the guest location `path`, or the length. */
  function FirstSame(list: seq<Binding>, path: string): (k: nat)
    ensures k <= |list|
    ensures k < |list| ==> SameLocation(path, list[k].guest)
    ensures forall i :: 0 <= i < k ==> !SameLocation(path, list[i].guest)
  {
    if list == [] then 0
    else
      var k := FirstSame(list[..|list| - 1], path);
      if k < |list| - 1 then k
      else if SameLocation(path, list[|list| - 1].guest) then |list| - 1
      else |list|
  }

  function WithoutId(list: seq<Binding>, id: nat): (r: seq<Binding>)
    ensures forall b :: b in r <==> b in list && b.id != id
    ensures |r| <= |list|
  {
    if list == [] then []
    else
      var last := list[|list| - 1];
      assert list == list[..|list| - 1] + [last];
      WithoutId(list[..|list| - 1], id) + (if last.id == id then [] else [last])
  }

  function RemoveFromAll(t: Table, id: nat): Table {
    t.(guest := WithoutId(t.guest, id), host := WithoutId(t.host, id))
  }

  function InsortOn(t: Table, side: Side, b: Binding): Table {
    match side
    case Host => t.(host := InsertAt(t.host, AfterLastCovered(t.host, Host, b.host), b))
    case Guest =>
      var k := FirstSame(t.guest, b.guest);
      if k < |t.guest| then RemoveFromAll(t.(guest := InsertAt(t.guest, k + 1, b)), t.guest[k].id)
      else t.(guest := InsertAt(t.guest, AfterLastCovered(t.guest, Guest, b.guest), b))
  }

  function Insort2(t: Table, b: Binding): Table {
    InsortOn(InsortOn(t, Guest, b), Host, b)
  }

  function Insort3(t: Table, host: string, guest: string): Table {
    Insort2(t.(nextId := t.nextId + 1), Binding(t.nextId, host, guest))
  }

  function FirstHit(list: seq<Binding>, side: Side, path: string): (r: Option<Binding>)
    ensures r.Some? ==> r.value in list && Covers(On(r.value, side), path)
    ensures r.None? ==> forall i :: 0 <= i < |list| ==> !Covers(On(list[i], side), path)
  {
    if list == [] then None
    else if Covers(On(list[0], side), path) then Some(list[0])
    else FirstHit(list[1..], side, path)
  }

  // ---------------------------------------------------------------------
  // Insertion and removal keep the lists consistent
  // ---------------------------------------------------------------------

  lemma {:induction false} WithoutKeeps(list: seq<Binding>, id: nat, before: (Binding, Binding) -> bool)
    ensures Pairwise(list, before) ==> Pairwise(WithoutId(list, id), before)
    ensures Texts(list) ==> Texts(WithoutId(list, id))
  {
    if list != [] {
      var front, last := list[..|list| - 1], list[|list| - 1];
      WithoutKeeps(front, id, before);
      var r := WithoutId(front, id);
      if Pairwise(list, before) {
        assert Pairwise(front, before);
        forall i | 0 <= i < |r| ensures before(r[i], last) {
          assert r[i] in front;
        }
      }
      if Texts(list) { assert Texts(front); }
    }
  }

  lemma InsertAtMembers(list: seq<Binding>, k: nat, b: Binding)
    requires k <= |list|
    ensures forall c :: c in InsertAt(list, k, b) <==> c == b || c in list
  {
    assert list == list[..k] + list[k..];
  }

  lemma InsertKeeps(list: seq<Binding>, k: nat, b: Binding, before: (Binding, Binding) -> bool)
    requires k <= |list| && Pairwise(list, before)
    requires forall i :: 0 <= i < k ==> before(list[i], b)
    requires forall i :: k <= i < |list| ==> before(b, list[i])
    ensures Pairwise(InsertAt(list, k, b), before)
    ensures Texts(list) && AbsText(b.host) && AbsText(b.guest) ==> Texts(InsertAt(list, k, b))
  {
    var r := InsertAt(list, k, b);
    assert forall i :: 0 <= i < |r| ==> r[i] == (if i < k then list[i] else if i == k then b else list[i - 1]);
  }

  lemma SwapKeeps(list: seq<Binding>, k: nat, b: Binding, before: (Binding, Binding) -> bool)
    requires k < |list| && Pairwise(list, before)
    requires forall i :: 0 <= i < k ==> before(list[i], b)
    requires forall i :: k < i < |list| ==> before(b, list[i])
    ensures Pairwise(list[k := b], before)
    ensures Texts(list) && AbsText(b.host) && AbsText(b.guest) ==> Texts(list[k := b])
  {
  }

  lemma {:induction false} WithoutAppend(a: seq<Binding>, b: seq<Binding>, id: nat)
    ensures WithoutId(a + b, id) == WithoutId(a, id) + WithoutId(b, id)
  {
    if b == [] {
      assert a + b == a;
    } else {
      assert (a + b)[..|a + b| - 1] == a + b[..|b| - 1];
      WithoutAppend(a, b[..|b| - 1], id);
    }
  }

  lemma {:induction false} WithoutAbsent(list: seq<Binding>, id: nat)
    requires forall i :: 0 <= i < |list| ==> list[i].id != id
    ensures WithoutId(list, id) == list
  {
    if list != [] {
      WithoutAbsent(list[..|list| - 1], id);
      assert list == list[..|list| - 1] + [list[|list| - 1]];
    }
  }

  lemma WithoutPair(x: Binding, b: Binding)
    requires x.id != b.id
    ensures WithoutId([x, b], x.id) == [b]
  {
    assert [x, b][..1] == [x] && WithoutId([x], x.id) == [];
  }

  lemma AroundIndex(list: seq<Binding>, k: nat, b: Binding)
    requires k < |list|
    ensures InsertAt(list, k + 1, b) == (list[..k] + [list[k], b]) + list[k + 1..]
    ensures list[k := b] == (list[..k] + [b]) + list[k + 1..]
  {
  }

  /** Inserting after the old binding of a location and removing it is a replacement in place. */
  lemma ReplaceInPlace(list: seq<Binding>, k: nat, b: Binding)
    requires k < |list| && b.id != list[k].id
    requires forall i :: 0 <= i < |list| && i != k ==> list[i].id != list[k].id
    ensures WithoutId(InsertAt(list, k + 1, b), list[k].id) == list[k := b]
  {
    var front, rear, pair, id := list[..k], list[k + 1..], [list[k], b], list[k].id;
    calc {
      WithoutId(InsertAt(list, k + 1, b), id);
      { AroundIndex(list, k, b); }
      WithoutId((front + pair) + rear, id);
      { WithoutAppend(front + pair, rear, id); }
      WithoutId(front + pair, id) + WithoutId(rear, id);
      { WithoutAppend(front, pair, id); }
      (WithoutId(front, id) + WithoutId(pair, id)) + WithoutId(rear, id);
      { WithoutAbsent(front, id); WithoutAbsent(rear, id); WithoutPair(list[k], b); }
      (front + [b]) + rear;
      { AroundIndex(list, k, b); }
      list[k := b];
    }
  }

  lemma UniqueIds(list: seq<Binding>, k: nat)
    requires k < |list| && Pairwise(list, GuestBefore)
    ensures forall i :: 0 <= i < |list| && i != k ==> list[i].id != list[k].id
  {
    assert forall i, j :: 0 <= i < j < |list| ==> GuestBefore(list[i], list[j]);
  }

  /** Inserting right after `list[k - 1]` keeps an order in which whatever precedes that one precedes `b`. */
  lemma PositionKeeps(list: seq<Binding>, k: nat, b: Binding, before: (Binding, Binding) -> bool)
    requires k <= |list| && Pairwise(list, before)
    requires forall i :: 0 <= i < |list| ==> list[i].id != b.id
    requires k > 0 ==> before(list[k - 1], b)
    requires k > 0 ==> forall x :: before(x, list[k - 1]) && x.id != b.id ==> before(x, b)
    requires forall i :: k <= i < |list| ==> before(b, list[i])
    ensures Pairwise(InsertAt(list, k, b), before)
    ensures Texts(list) && AbsText(b.host) && AbsText(b.guest) ==> Texts(InsertAt(list, k, b))
  {
    forall i | 0 <= i < k ensures before(list[i], b) {
      assert i < k - 1 ==> before(list[i], list[k - 1]);
    }
    InsertKeeps(list, k, b, before);
  }

  lemma GuestPosition(list: seq<Binding>, b: Binding)
    requires Pairwise(list, GuestBefore) && FirstSame(list, b.guest) == |list|
    requires forall i :: 0 <= i < |list| ==> list[i].id != b.id
    ensures Pairwise(InsertAt(list, AfterLastCovered(list, Guest, b.guest), b), GuestBefore)
    ensures Texts(list) && AbsText(b.host) && AbsText(b.guest)
        ==> Texts(InsertAt(list, AfterLastCovered(list, Guest, b.guest), b))
  {
    var k := AfterLastCovered(list, Guest, b.guest);
    if k > 0 {
      var last := list[k - 1];
      assert Covers(b.guest, On(last, Guest)) && !SameLocation(b.guest, last.guest);
      CoveredIsNotStrict(last.guest, b.guest);
      forall x | GuestBefore(x, last) && x.id != b.id ensures GuestBefore(x, b) {
        NotCoversBack(x.guest, b.guest, last.guest);
      }
    }
    assert forall i :: k <= i < |list| ==> !Covers(b.guest, On(list[i], Guest));
    PositionKeeps(list, k, b, GuestBefore);
  }

  lemma HostPosition(list: seq<Binding>, b: Binding)
    requires Pairwise(list, HostBefore)
    requires forall i :: 0 <= i < |list| ==> list[i].id != b.id
    ensures Pairwise(InsertAt(list, AfterLastCovered(list, Host, b.host), b), HostBefore)
    ensures Texts(list) && AbsText(b.host) && AbsText(b.guest)
        ==> Texts(InsertAt(list, AfterLastCovered(list, Host, b.host), b))
  {
    var k := AfterLastCovered(list, Host, b.host);
    if k > 0 {
      var last := list[k - 1];
      assert Covers(b.host, On(last, Host));
      CoveredIsNotStrict(last.host, b.host);
      forall x | HostBefore(x, last) && x.id != b.id ensures HostBefore(x, b) {
        NotStrictlyCoversBack(x.host, b.host, last.host);
      }
    }
    assert forall i :: k <= i < |list| ==> !Covers(b.host, On(list[i], Host));
    PositionKeeps(list, k, b, HostBefore);
  }

  lemma ReplacePosition(list: seq<Binding>, k: nat, b: Binding)
    requires k < |list| && Pairwise(list, GuestBefore) && SameLocation(b.guest, list[k].guest)
    requires forall i :: 0 <= i < |list| ==> list[i].id != b.id
    ensures Pairwise(list[k := b], GuestBefore)
    ensures Texts(list) && AbsText(b.host) && AbsText(b.guest) ==> Texts(list[k := b])
  {
    forall i | 0 <= i < k ensures GuestBefore(list[i], b) { assert GuestBefore(list[i], list[k]); }
    forall i | k < i < |list| ensures GuestBefore(b, list[i]) { assert GuestBefore(list[k], list[i]); }
    SwapKeeps(list, k, b, GuestBefore);
  }

  /** In the guest list a location determines the binding, as does the address. */
  lemma GuestIsKey(list: seq<Binding>, c: Binding, d: Binding)
    requires Pairwise(list, GuestBefore) && c in list && d in list
    requires SameLocation(c.guest, d.guest) || c.id == d.id
    ensures c == d
  {
    var i :| 0 <= i < |list| && list[i] == c;
    var j :| 0 <= j < |list| && list[j] == d;
    assert forall i, j :: 0 <= i < j < |list| ==> GuestBefore(list[i], list[j]);
  }

  lemma InsortGuestKeeps(t: Table, b: Binding)
    requires Consistent(t) && AbsText(b.host) && AbsText(b.guest)
    requires forall c :: c in t.guest ==> c.id != b.id
    ensures var r := InsortOn(t, Guest, b);
      && Texts(r.guest) && Texts(r.host)
      && Pairwise(r.guest, GuestBefore) && Pairwise(r.host, HostBefore)
      && (forall c :: c in r.guest <==> c == b || c in r.host)
      && (forall c :: c in r.host <==> c in t.guest && !SameLocation(c.guest, b.guest))
      && r.nextId == t.nextId
  {
    var k := FirstSame(t.guest, b.guest);
    assert forall i :: 0 <= i < |t.guest| ==> t.guest[i] in t.guest;
    if k < |t.guest| {
      var prior := t.guest[k];
      UniqueIds(t.guest, k);
      ReplaceInPlace(t.guest, k, b);
      ReplacePosition(t.guest, k, b);
      WithoutKeeps(t.host, prior.id, HostBefore);
      InsertAtMembers(t.guest, k + 1, b);
      forall c | c in t.guest ensures SameLocation(c.guest, b.guest) <==> c.id == prior.id {
        if SameLocation(c.guest, b.guest) || c.id == prior.id { GuestIsKey(t.guest, c, prior); }
      }
    } else {
      GuestPosition(t.guest, b);
      InsertAtMembers(t.guest, AfterLastCovered(t.guest, Guest, b.guest), b);
    }
  }

  lemma InsortHostKeeps(u: Table, b: Binding)
    requires Texts(u.guest) && Texts(u.host) && AbsText(b.host) && AbsText(b.guest)
    requires Pairwise(u.guest, GuestBefore) && Pairwise(u.host, HostBefore)
    requires forall c :: c in u.guest <==> c == b || c in u.host
    requires forall c :: c in u.host ==> c.id != b.id && c.id < u.nextId
    requires b.id < u.nextId
    ensures Consistent(InsortOn(u, Host, b)) && InsortOn(u, Host, b).guest == u.guest
  {
    assert forall i :: 0 <= i < |u.host| ==> u.host[i] in u.host;
    HostPosition(u.host, b);
    InsertAtMembers(u.host, AfterLastCovered(u.host, Host, b.host), b);
  }

  /** insort_binding2 keeps both lists consistent and replaces the binding of the same guest location. */
  lemma Insort2Keeps(t: Table, b: Binding)
    requires Consistent(t) && AbsText(b.host) && AbsText(b.guest) && b.id < t.nextId
    requires forall c :: c in t.guest ==> c.id != b.id
    ensures Consistent(Insort2(t, b))
    ensures forall c :: c in Insort2(t, b).guest <==> c == b || (c in t.guest && !SameLocation(c.guest, b.guest))
    ensures HasRoot(t) || b.guest == "/" ==> HasRoot(Insort2(t, b))
  {
    var u := InsortOn(t, Guest, b);
    InsortGuestKeeps(t, b);
    InsortHostKeeps(u, b);
    assert Insort2(t, b).guest == u.guest;
    if HasRoot(t) || b.guest == "/" { InsortKeepsRoot(t, b); }
  }

  lemma RootCoversAll(p: string)
    requires AbsText(p)
    ensures Covers("/", p)
    ensures Covers(p, "/") ==> p == "/"
    ensures SameLocation(p, "/") ==> p == "/"
  {
  }

  lemma ReplacedRootIsLast(list: seq<Binding>, k: nat, b: Binding)
    requires k < |list| && Texts(list) && Pairwise(list, GuestBefore)
    requires AbsText(b.guest) && SameLocation(b.guest, list[k].guest)
    requires list[|list| - 1].guest == "/" || b.guest == "/"
    ensures list[k := b][|list| - 1].guest == "/"
  {
    var last := |list| - 1;
    RootCoversAll(b.guest);
    RootCoversAll(list[k].guest);
    RootCoversAll(list[last].guest);
    assert k < last ==> GuestBefore(list[k], list[last]);
  }

  lemma InsertedRootIsLast(list: seq<Binding>, b: Binding)
    requires AbsText(b.guest) && Texts(list)
    requires (list != [] && list[|list| - 1].guest == "/") || b.guest == "/"
    ensures var r := InsertAt(list, AfterLastCovered(list, Guest, b.guest), b); r != [] && r[|r| - 1].guest == "/"
  {
    hide Covers, SameLocation;
    RootCoversAll(b.guest);
    var n, k := |list|, AfterLastCovered(list, Guest, b.guest);
    if n > 0 {
      RootCoversAll(list[n - 1].guest);
      assert On(list[n - 1], Guest) == list[n - 1].guest;
    }
  }

  lemma InsortKeepsRoot(t: Table, b: Binding)
    requires Consistent(t) && AbsText(b.guest) && (HasRoot(t) || b.guest == "/")
    requires forall c :: c in t.guest ==> c.id != b.id
    ensures HasRoot(InsortOn(t, Guest, b))
  {
    hide Covers, SameLocation, Pairwise, WithoutId, InsertAt, FirstSame, AfterLastCovered, Texts;
    var k := FirstSame(t.guest, b.guest);
    if k < |t.guest| {
      assert t.guest[k] in t.guest;
      UniqueIds(t.guest, k);
      ReplaceInPlace(t.guest, k, b);
      ReplacedRootIsLast(t.guest, k, b);
    } else {
      InsertedRootIsLast(t.guest, b);
    }
  }

  lemma RemoveKeeps(t: Table, id: nat)
    requires Consistent(t)
    ensures Consistent(RemoveFromAll(t, id))
    ensures forall c :: c in RemoveFromAll(t, id).guest <==> c in t.guest && c.id != id
    ensures HasRoot(t) && t.guest[|t.guest| - 1].id != id ==> HasRoot(RemoveFromAll(t, id))
  {
    WithoutKeeps(t.guest, id, GuestBefore);
    WithoutKeeps(t.host, id, HostBefore);
  }

  lemma ConsistentOf(t: Table)
    requires WellFormed(t)
    ensures Consistent(t) && HasRoot(t)
  {
  }

  // ---------------------------------------------------------------------
  // Lookup
  // ---------------------------------------------------------------------

  /** The first hit on the guest side is the one binding whose location is the deepest that holds `path`. */
  lemma {:induction false} FirstHitIsDeepest(list: seq<Binding>, path: string)
    requires Pairwise(list, GuestBefore)
    ensures FirstHit(list, Guest, path).Some? ==>
      var b := FirstHit(list, Guest, path).value;
      && b in list && Covers(b.guest, path)
      && forall c :: c in list && Covers(c.guest, path) ==> c == b || StrictlyCovers(c.guest, b.guest)
    ensures FirstHit(list, Guest, path).None? ==> forall c :: c in list ==> !Covers(c.guest, path)
  {
    if list != [] {
      var h, tail := list[0], list[1..];
      assert list == [h] + tail;
      if Covers(On(h, Guest), path) {
        forall c | c in tail && Covers(c.guest, path) ensures StrictlyCovers(c.guest, h.guest) {
          var i :| 0 <= i < |tail| && tail[i] == c;
          assert GuestBefore(list[0], list[i + 1]);
          CoversChain(h.guest, c.guest, path);
        }
      } else {
        FirstHitIsDeepest(tail, path);
      }
    }
  }

  /** A well-formed table answers every absolute path, and its last guest binding is the one for "/". */
  lemma RootAlwaysHit(t: Table, path: string)
    requires WellFormed(t) && AbsText(path)
    ensures FirstHit(t.guest, Guest, path).Some?
    ensures FirstHit(t.guest, Guest, "/") == Some(t.guest[|t.guest| - 1])
  {
    var root := t.guest[|t.guest| - 1];
    RootCoversAll(path);
    FirstHitIsDeepest(t.guest, path);
    FirstHitIsDeepest(t.guest, "/");
    assert root in t.guest && Covers(root.guest, "/");
    var b := FirstHit(t.guest, Guest, "/").value;
    assert exists i :: 0 <= i < |t.guest| && t.guest[i] == b;
    RootCoversAll(b.guest);
  }

  /** A lookup of exactly the location of a binding finds that binding. */
  lemma ExactLookup(list: seq<Binding>, b: Binding)
    requires Pairwise(list, GuestBefore) && b in list
    ensures FirstHit(list, Guest, b.guest) == Some(b)
  {
    FirstHitIsDeepest(list, b.guest);
    var hit := FirstHit(list, Guest, b.guest);
    if hit.Some? && hit.value != b {
      CoveredIsNotStrict(b.guest, hit.value.guest);
    }
  }

  // ---------------------------------------------------------------------
  // mount and umount
  // ---------------------------------------------------------------------

  /** emulate_mount once the source and the target are resolved. */
  function Mount(t: Table, host: string, guest: string): Table {
    Insort3(t, host, guest)
  }

  /** emulate_umount once the target is resolved. */
  function Umount(t: Table, guest: string): Table {
    if guest == "/" then t
    else match FirstHit(t.guest, Guest, guest)
      case Some(b) => if b.guest != guest then t else RemoveFromAll(t, b.id)
      case None => t
  }

  lemma Insort3Keeps(t: Table, host: string, guest: string)
    requires Consistent(t) && AbsText(host) && AbsText(guest)
    ensures Consistent(Insort3(t, host, guest)) && Insort3(t, host, guest).nextId == t.nextId + 1
    ensures forall c :: c in Insort3(t, host, guest).guest
              <==> c == Binding(t.nextId, host, guest) || (c in t.guest && !SameLocation(c.guest, guest))
    ensures HasRoot(t) || guest == "/" ==> HasRoot(Insort3(t, host, guest))
  {
    hide Insort2, Consistent;
    var u, b := t.(nextId := t.nextId + 1), Binding(t.nextId, host, guest);
    NextId(t);
    Insort2Keeps(u, b);
    Insort2Id(u, b);
  }

  lemma NextId(t: Table)
    requires Consistent(t)
    ensures Consistent(t.(nextId := t.nextId + 1)) && forall c :: c in t.guest ==> c.id != t.nextId
  {
  }

  lemma Insort2Id(t: Table, b: Binding)
    ensures Insort2(t, b).nextId == t.nextId
  {
  }

  lemma UmountKeeps(t: Table, guest: string)
    requires WellFormed(t)
    ensures WellFormed(Umount(t, guest))
    ensures forall c :: c in Umount(t, guest).guest <==> c in t.guest && (c.guest != guest || guest == "/")
  {
    var hit := FirstHit(t.guest, Guest, guest);
    FirstHitIsDeepest(t.guest, guest);
    if guest != "/" && hit.Some? && hit.value.guest == guest {
      var root := t.guest[|t.guest| - 1];
      RemoveKeeps(t, hit.value.id);
      assert root in t.guest && root != hit.value;
      forall c | c in t.guest ensures c.id == hit.value.id <==> c.guest == guest {
        if c.id == hit.value.id || c.guest == guest { GuestIsKey(t.guest, c, hit.value); }
      }
    } else if guest != "/" {
      forall c | c in t.guest ensures c.guest != guest {
        if c.guest == guest { ExactLookup(t.guest, c); }
      }
    }
  }

  lemma InsertThenWithout(list: seq<Binding>, k: nat, b: Binding)
    requires k <= |list| && forall i :: 0 <= i < |list| ==> list[i].id != b.id
    ensures WithoutId(InsertAt(list, k, b), b.id) == list
  {
    hide WithoutId;
    var front, rear := list[..k], list[k..];
    WithoutAppend(front + [b], rear, b.id);
    WithoutAppend(front, [b], b.id);
    WithoutAbsent(front, b.id);
    WithoutAbsent(rear, b.id);
    WithoutItself(b);
    assert front + [] == front && front + rear == list;
  }

  lemma WithoutItself(b: Binding)
    ensures WithoutId([b], b.id) == []
  {
  }

  lemma UmountRemovesTheMount(t: Table, host: string, guest: string)
    requires Consistent(t) && AbsText(host) && AbsText(guest) && guest != "/"
    ensures Umount(Mount(t, host, guest), guest) == RemoveFromAll(Mount(t, host, guest), t.nextId)
  {
    var b := Binding(t.nextId, host, guest);
    Insort3Keeps(t, host, guest);
    assert b in Mount(t, host, guest).guest;
    ExactLookup(Mount(t, host, guest).guest, b);
  }

  lemma NewLocation(t: Table, host: string, guest: string)
    requires Consistent(t) && FirstSame(t.guest, guest) == |t.guest|
    ensures RemoveFromAll(Mount(t, host, guest), t.nextId) == t.(nextId := t.nextId + 1)
  {
    hide WithoutId, AfterLastCovered;
    var b := Binding(t.nextId, host, guest);
    assert forall i :: 0 <= i < |t.guest| ==> t.guest[i] in t.guest;
    assert forall i :: 0 <= i < |t.host| ==> t.host[i] in t.host;
    InsertThenWithout(t.guest, AfterLastCovered(t.guest, Guest, guest), b);
    InsertThenWithout(t.host, AfterLastCovered(t.host, Host, host), b);
  }

  lemma ReplacedIsLost(t: Table, host: string, guest: string)
    requires Consistent(t) && AbsText(host) && AbsText(guest)
    requires FirstSame(t.guest, guest) < |t.guest|
    ensures RemoveFromAll(Mount(t, host, guest), t.nextId).guest != t.guest
  {
    Insort3Keeps(t, host, guest);
    var prior := t.guest[FirstSame(t.guest, guest)];
    assert prior in t.guest && prior !in Mount(t, host, guest).guest;
  }

  lemma IsBound(list: seq<Binding>, guest: string)
    ensures FirstSame(list, guest) == |list| <==> forall c :: c in list ==> !SameLocation(c.guest, guest)
  {
    if FirstSame(list, guest) < |list| { assert list[FirstSame(list, guest)] in list; }
  }

  /**
   umount undoes mount, list for list, exactly when nothing was bound to that location before: a
   binding that the mount replaced does not come back.
   */
  lemma UmountUndoesMount(t: Table, host: string, guest: string)
    requires WellFormed(t) && AbsText(host) && AbsText(guest) && guest != "/"
    ensures var u := Umount(Mount(t, host, guest), guest);
      (u.guest == t.guest && u.host == t.host) <==> forall c :: c in t.guest ==> !SameLocation(c.guest, guest)
  {
    UmountRemovesTheMount(t, host, guest);
    IsBound(t.guest, guest);
    if FirstSame(t.guest, guest) < |t.guest| {
      ReplacedIsLost(t, host, guest);
    } else {
      NewLocation(t, host, guest);
    }
  }
}
