/**
 The binding lists as the tracee holds them, updated in place (path/binding.c,
 syscall/enter.c:169-383).  The circular list heads are sequences; each method is proved equal
 to the function of the same operation in Bindings and Pivot.
 */
module BindingTable {
  import opened Wrappers
  import opened Paths
  import opened Bindings
  import opened Pivot

  /** belongs_to_guestfs for a tracee whose rootfs is `root`. */
  function BelongsToGuestfs(root: string, path: string): (r: bool)
    requires root != "" && path != "" && '\0' !in root && '\0' !in path
    ensures r <==> Covers(root, path)
  {
    var comparison := ComparePaths(root, path);
    comparison == PathsAreEqual || comparison == Path1IsPrefix
  }

  /** Inside of a rootfs other than "/" no host binding counts. */
  predicate Hidden(root: string, path: string) {
    !SameLocation(root, "/") && Covers(root, path)
  }

  lemma {:induction false} FirstSameExtends(list: seq<Binding>, i: nat, path: string)
    requires i < |list| && SameLocation(path, list[i].guest)
    requires forall j :: 0 <= j < i ==> !SameLocation(path, list[j].guest)
    ensures FirstSame(list, path) == i
  {
  }

  predicate CoversOn(b: Binding, c: Binding, side: Side) {
    Covers(On(b, side), On(c, side))
  }

  lemma LastCoveredIs(list: seq<Binding>, side: Side, b: Binding, k: nat)
    requires k <= |list| && (k > 0 ==> CoversOn(b, list[k - 1], side))
    requires forall j :: k <= j < |list| ==> !CoversOn(b, list[j], side)
    ensures AfterLastCovered(list, side, On(b, side)) == k
  {
    var m := AfterLastCovered(list, side, On(b, side));
    assert m > 0 ==> CoversOn(b, list[m - 1], side);
    assert forall j :: m <= j < |list| ==> !Covers(On(b, side), On(list[j], side));
  }

  /** get_binding on the host side: nothing is found for a path inside a guest rootfs other than "/". */
  function HostHit(t: Table, path: string): Option<Binding>
    requires HasRoot(t)
  {
    var root := t.guest[|t.guest| - 1].host;
    if Hidden(root, path) then None else FirstHit(t.host, Host, path)
  }

  method CompareOn(side: Side, b: Binding, iterator_: Binding) returns (r: Comparison)
    requires AbsText(b.host) && AbsText(b.guest) && AbsText(iterator_.host) && AbsText(iterator_.guest)
    ensures r in {PathsAreEqual, Path1IsPrefix} <==> CoversOn(b, iterator_, side)
    ensures r == PathsAreEqual <==> SameLocation(On(b, side), On(iterator_, side))
  {
    ComparisonCovers(On(b, side), On(iterator_, side));
    r := ComparePaths(On(b, side), On(iterator_, side));
  }

  /** The loop of insort_binding: which binding `b` replaces, or where it goes. */
  method FindPlace(list: seq<Binding>, side: Side, b: Binding) returns (replace: bool, position: nat)
    requires Texts(list) && AbsText(b.host) && AbsText(b.guest)
    ensures position <= |list|
    ensures replace ==> side == Guest && position == FirstSame(list, b.guest) < |list|
    ensures !replace ==> position == AfterLastCovered(list, side, On(b, side))
    ensures !replace && side == Guest ==> FirstSame(list, b.guest) == |list|
  {
    var previous := -1;
    var next := 0;
    var i := 0;
    while i < |list|
      invariant 0 <= i <= |list| && -1 <= previous < i && next == 0
      invariant previous >= 0 ==> CoversOn(b, list[previous], side)
      invariant forall j :: previous < j < i ==> !CoversOn(b, list[j], side)
      invariant side == Guest ==> forall j :: 0 <= j < i ==> !SameLocation(b.guest, list[j].guest)
    {
      var comparison := CompareOn(side, b, list[i]);
      match comparison {
        case PathsAreEqual =>
          if side == Guest {
            FirstSameExtends(list, i, b.guest);
            return true, i;
          }
          previous := i;
        case Path1IsPrefix =>
          previous := i;
        case Path2IsPrefix =>
          // `next` starts at the first binding, so this never moves it
          if next == |list| {
            next := i;
          }
        case PathsAreNotComparable =>
      }
      i := i + 1;
    }
    LastCoveredIs(list, side, b, previous + 1);
    position := if previous >= 0 then previous + 1 else if next != |list| then next else 0;
    return false, position;
  }

  lemma InsortOnCases(t: Table, side: Side, b: Binding, replace: bool, position: nat)
    requires position <= |if side == Guest then t.guest else t.host|
    requires replace ==> side == Guest && position == FirstSame(t.guest, b.guest) < |t.guest|
    requires !replace && side == Guest ==>
      FirstSame(t.guest, b.guest) == |t.guest| && position == AfterLastCovered(t.guest, Guest, b.guest)
    requires side == Host ==> position == AfterLastCovered(t.host, Host, b.host)
    ensures replace ==>
      InsortOn(t, side, b) == RemoveFromAll(t.(guest := InsertAt(t.guest, position + 1, b)), t.guest[position].id)
    ensures !replace && side == Guest ==> InsortOn(t, side, b) == t.(guest := InsertAt(t.guest, position, b))
    ensures side == Host ==> InsortOn(t, side, b) == t.(host := InsertAt(t.host, position, b))
  {
    hide WithoutId, InsertAt, FirstSame, AfterLastCovered, Covers, SameLocation;
  }

  lemma SnapshotTexts(p: Pivoting, k: nat)
    requires WellFormed(p.before) && k < |p.before.guest|
    ensures AbsText(p.before.guest[k].host) && AbsText(p.before.guest[k].guest)
  {
  }

  /** One turn of the lookup. */
  lemma FirstHitFrom(list: seq<Binding>, side: Side, path: string, i: nat)
    requires i < |list|
    ensures FirstHit(list[i..], side, path) ==
      if Covers(On(list[i], side), path) then Some(list[i]) else FirstHit(list[i + 1..], side, path)
  {
    assert list[i..][1..] == list[i + 1..];
  }

  lemma FirstHitOfNone(side: Side, path: string)
    ensures FirstHit([], side, path) == None
  {
  }

  lemma RootText(t: Table)
    requires WellFormed(t)
    ensures AbsText(t.guest[|t.guest| - 1].host)
  {
    assert t.guest[|t.guest| - 1] in t.guest;
  }

  lemma TextOn(t: Table, side: Side, i: nat)
    requires Consistent(t) && i < |if side == Guest then t.guest else t.host|
    ensures AbsText(On((if side == Guest then t.guest else t.host)[i], side))
  {
  }

  lemma SuffixIsAbsolute(g: string, n: nat)
    requires AbsText(g) && n < |g| && g[n] == '/'
    ensures AbsText(g[n..])
  {
  }

  class BindingLists {
    var guest: seq<Binding>
    var host: seq<Binding>
    var nextId: nat

    function View(): Table
      reads this
    {
      Table(guest, host, nextId)
    }

    constructor ()
      ensures View() == Table([], [], 0)
    {
      guest, host, nextId := [], [], 0;
    }

    /** The path of the guest rootfs on the host. */
    function GetRoot(): string
      requires HasRoot(View())
      reads this
    {
      guest[|guest| - 1].host
    }

    method GetBinding(side: Side, path: string) returns (r: Option<Binding>)
      requires WellFormed(View()) && AbsText(path)
      ensures r == if side == Guest then FirstHit(guest, Guest, path) else HostHit(View(), path)
    {
      hide FirstHit, Consistent, StrictlyCovers, Covers, SameLocation, ComparePaths, On;
      ConsistentOf(View());
      var list := if side == Guest then guest else host;
      var root := GetRoot();
      TextOn(View(), Guest, |guest| - 1);
      RootText(View());
      assert list[0..] == list;
      var i := 0;
      while i < |list|
        invariant 0 <= i <= |list|
        invariant (side == Host && Hidden(root, path)) || FirstHit(list, side, path) == FirstHit(list[i..], side, path)
      {
        FirstHitFrom(list, side, path, i);
        TextOn(View(), side, i);
        ComparisonCovers(On(list[i], side), path);
        var comparison := ComparePaths(On(list[i], side), path);
        if comparison != PathsAreEqual && comparison != Path1IsPrefix {
          i := i + 1;
          continue;
        }
        if side == Host && ComparePaths(root, "/") != PathsAreEqual && BelongsToGuestfs(root, path) {
          i := i + 1;
          continue;
        }
        return Some(list[i]);
      }
      FirstHitOfNone(side, path);
      return None;
    }

    /** Insert `b` on one side, replacing the binding of the same guest location. */
    method InsortBinding(side: Side, b: Binding)
      requires Texts(guest) && Texts(host) && AbsText(b.host) && AbsText(b.guest)
      modifies this
      ensures View() == InsortOn(old(View()), side, b)
    {
      var list := if side == Guest then guest else host;
      var replace, position := FindPlace(list, side, b);
      InsortOnCases(View(), side, b, replace, position);
      if replace {
        guest := InsertAt(guest, position + 1, b);
        RemoveBindingFromAllLists(list[position].id);
      } else if side == Guest {
        guest := InsertAt(guest, position, b);
      } else {
        host := InsertAt(host, position, b);
      }
    }

    method RemoveBindingFromAllLists(id: nat)
      modifies this
      ensures View() == RemoveFromAll(old(View()), id)
    {
      guest, host := WithoutId(guest, id), WithoutId(host, id);
    }

    method InsortBinding2(b: Binding)
      requires Consistent(View()) && AbsText(b.host) && AbsText(b.guest) && b.id < nextId
      requires forall c :: c in guest ==> c.id != b.id
      modifies this
      ensures View() == Insort2(old(View()), b) && Consistent(View())
      ensures old(HasRoot(View())) || b.guest == "/" ==> HasRoot(View())
    {
      Insort2Keeps(View(), b);
      InsortGuestKeeps(View(), b);
      InsortBinding(Guest, b);
      InsortBinding(Host, b);
    }

    method InsortBinding3(hostPath: string, guestPath: string) returns (b: Binding)
      requires Consistent(View()) && AbsText(hostPath) && AbsText(guestPath)
      modifies this
      ensures View() == Insort3(old(View()), hostPath, guestPath) && Consistent(View())
      ensures old(HasRoot(View())) || guestPath == "/" ==> HasRoot(View())
      ensures b == Binding(old(nextId), hostPath, guestPath) && b in guest
    {
      hide Consistent, Insort2, InsortOn;
      Insort3Keeps(View(), hostPath, guestPath);
      NextId(View());
      b := Binding(nextId, hostPath, guestPath);
      ghost var t := View();
      nextId := nextId + 1;
      assert View() == t.(nextId := t.nextId + 1);
      InsortBinding2(b);
    }

    /** emulate_mount, after the resolution of the source and of the target. */
    method EmulateMount(hostPath: string, guestPath: string)
      requires WellFormed(View()) && AbsText(hostPath) && AbsText(guestPath)
      modifies this
      ensures View() == Mount(old(View()), hostPath, guestPath) && WellFormed(View())
    {
      var _ := InsortBinding3(hostPath, guestPath);
    }

    /** emulate_umount, after the resolution of the target. */
    method EmulateUmount(guestPath: string)
      requires WellFormed(View()) && AbsText(guestPath)
      modifies this
      ensures View() == Umount(old(View()), guestPath) && WellFormed(View())
    {
      UmountKeeps(View(), guestPath);
      if guestPath == "/" {
        return;
      }
      var binding := GetBinding(Guest, guestPath);
      if binding.None? || binding.value.guest != guestPath {
        return;
      }
      RemoveBindingFromAllLists(binding.value.id);
    }

    /** emulate_pivot_root, after the resolution of its paths. */
    method EmulatePivotRoot(newRootHost: string, newRoot: string, putOld: string)
      requires WellFormed(View()) && AbsText(newRootHost) && AbsText(newRoot) && AbsText(putOld)
      modifies this
      ensures View() == PivotRoot(old(View()), newRootHost, newRoot, putOld) && WellFormed(View())
    {
      hide Insort3, RemoveFromAll, Insort2, InsortOn, PivotOne, Covers, StrictlyCovers, FirstHit, Pairwise;
      var rootBinding := GetBinding(Guest, "/");
      if rootBinding.None? {
        return;
      }
      var root := rootBinding.value;
      var putOldAfter := PutOldAfter(newRoot, putOld);
      ghost var p := Pivoting(View(), newRootHost, newRoot, putOldAfter);
      PutOldIsAbsolute(newRoot, putOld);
      PivotBaseKeeps(p);
      RemoveKeeps(View(), root.id);

      var snapshot := guest;
      RemoveBindingFromAllLists(root.id);
      var _ := InsortBinding3(newRootHost, "/");
      if putOldAfter.Some? {
        var _ := InsortBinding3(root.host, putOldAfter.value);
      }
      PivotLoopKeeps(p, 0);

      var i := 0;
      while i < |snapshot|
        invariant 0 <= i <= |snapshot| && View() == PivotUpTo(p, i)
      {
        PivotOneBinding(snapshot[i], root, newRoot, putOldAfter, p, i);
        i := i + 1;
      }
      PivotLoopKeeps(p, i);
    }

    /** One turn of the loop over the snapshot. */
    method PivotOneBinding(b: Binding, root: Binding, newRoot: string, putOldAfter: Option<string>, ghost p: Pivoting,
                           ghost k: nat)
      requires WellFormed(p.before) && AbsText(p.newRootHost) && (putOldAfter.Some? ==> AbsText(putOldAfter.value))
      requires FirstHit(p.before.guest, Guest, "/") == Some(root) && p.newRoot == newRoot && p.put == putOldAfter
      requires k < |p.before.guest| && p.before.guest[k] == b && View() == PivotUpTo(p, k)
      modifies this
      ensures View() == PivotUpTo(p, k + 1)
    {
      hide Insort3, RemoveFromAll, Consistent, PivotBase;
      PivotLoopKeeps(p, k);
      SnapshotTexts(p, k);
      ConsistentOf(View());
      if b.id == root.id || b.guest == "/" {
        return;
      }
      if Moves(b, newRoot) {
        SuffixIsAbsolute(b.guest, |newRoot|);
        var _ := InsortBinding3(b.host, b.guest[|newRoot|..]);
        RemoveBindingFromAllLists(b.id);
        return;
      }
      if putOldAfter.Some? {
        var aliased := putOldAfter.value + b.guest;
        if !SitsUnder(b, putOldAfter.value) && |aliased| < PATH_MAX {
          var _ := InsortBinding3(b.host, aliased);
        }
      }
    }

    /** initialize_bindings: every pending binding in reverse order, "/" first. */
    method InitializeBindings(pending: seq<Binding>, resolved: seq<Option<string>>)
      requires View() == Table([], [], nextId) && Pending(pending, resolved, nextId)
      modifies this
      ensures View() == Initialized(pending, resolved, 0, old(nextId)) && WellFormed(View())
    {
      hide Insort2, InsortOn, Covers, FirstHit;
      var k := |pending|;
      while k > 0
        invariant 0 <= k <= |pending| && nextId == old(nextId)
        invariant View() == Initialized(pending, resolved, k, nextId)
      {
        InitializedIsConsistent(pending, resolved, k, nextId);
        k := k - 1;
        InitializedIsConsistent(pending, resolved, k, nextId);
        var b := pending[k];
        forall c | c in guest ensures c.id != b.id {
          var j :| k + 1 <= j < |pending| && pending[j].id == c.id;
        }
        if ComparePaths(b.guest, "/") == PathsAreEqual {
          InsortBinding2(b);
        } else if resolved[k].Some? {
          InsortBinding2(b.(guest := resolved[k].value));
        }
      }
      InitializedIsConsistent(pending, resolved, 0, nextId);
    }
  }
}
