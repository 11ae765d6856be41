/**
 What the receiver of a netlink reply can rely on: it reads from the messages what the host said, and gets
 the link, the addresses and the routes that it asked for.
 */
module NetlinkLaws {
  import opened Wrappers
  import opened Words
  import opened NetlinkMessages
  import opened NetlinkReply

  // ----- Fields of the messages -----

  function FlagsOf(m: seq<nat>): nat
    requires |m| >= HEADER
  {
    Value(m[6..8])
  }

  lemma FlagsAreRead(kind: nat, flags: nat, stamp: Stamp, body: seq<nat>)
    requires flags < Power(2)
    ensures FlagsOf(Message(kind, flags, stamp, body)) == flags
  {
    var length := HEADER + |body|;
    var front, rest := Bytes(length, 4) + Bytes(kind, 2), Bytes(stamp.seqno, 4) + Bytes(stamp.pid, 4) + body;
    assert Message(kind, flags, stamp, body) == front + Bytes(flags, 2) + rest;
    Field(front, flags, 2, rest);
  }

  /** The data of the first attribute of a kind. */
  function DataOf(attributes: seq<Attribute>, kind: nat): Option<seq<nat>> {
    if attributes == [] then None
    else if attributes[0].kind == kind then Some(attributes[0].data)
    else DataOf(attributes[1..], kind)
  }

  /** The numbers of a link fit their fields. */
  ghost predicate Fitting(l: Link) {
    && SaneLink(l) && 0 !in l.name && l.kind < Power(2) && l.index < Power(4)
    && l.flags + IFF_LOWER_UP < Power(4) && l.mtu < Power(4)
  }

  lemma InfoIsRead(l: Link)
    requires Fitting(l)
    ensures Value(LinkInfo(l)[2..4]) == l.kind && Value(LinkInfo(l)[4..8]) == l.index
    ensures Value(LinkInfo(l)[8..12]) ==
      if Has(l.flags, IFF_RUNNING) && !Has(l.flags, IFF_LOWER_UP) then l.flags + IFF_LOWER_UP else l.flags
  {
    hide Bytes, Value, Power;
    var flags := if Has(l.flags, IFF_RUNNING) && !Has(l.flags, IFF_LOWER_UP) then l.flags + IFF_LOWER_UP else l.flags;
    var a, b, c, d := Bytes(l.kind, 2), Bytes(l.index, 4), Bytes(flags, 4), Zeros(4);
    assert LinkInfo(l) == Zeros(2) + a + (b + c + d) == (Zeros(2) + a) + b + (c + d) == (Zeros(2) + a + b) + c + d;
    Field(Zeros(2), l.kind, 2, b + c + d);
    Field(Zeros(2) + a, l.index, 4, c + d);
    Field(Zeros(2) + a + b, flags, 4, d);
  }

  lemma {:induction false} CStringOf(name: seq<nat>, rest: seq<nat>)
    requires 0 !in name
    ensures CString(name + [0] + rest) == name && CString(name) == name
    decreases |name|
  {
    if name != [] {
      assert name == [name[0]] + name[1..];
      CStringOf(name[1..], rest);
      assert (name + [0] + rest)[1..] == name[1..] + [0] + rest;
    }
  }

  lemma {:induction false} LastNameOf(attributes: seq<Attribute>, k: nat)
    requires k < |attributes| && attributes[k].kind == IFLA_IFNAME
    requires forall i :: k < i < |attributes| ==> attributes[i].kind != IFLA_IFNAME
    ensures LastName(attributes) == Some(NameIn(attributes[k].data))
    decreases |attributes|
  {
    var n := |attributes|;
    if k < n - 1 {
      assert attributes[n - 1].kind != IFLA_IFNAME;
      LastNameOf(attributes[..n - 1], k);
    }
  }

  lemma {:induction false} DataOfAt(attributes: seq<Attribute>, kind: nat, k: nat)
    requires k < |attributes| && attributes[k].kind == kind
    requires forall i :: 0 <= i < k ==> attributes[i].kind != kind
    ensures DataOf(attributes, kind) == Some(attributes[k].data)
    decreases k
  {
    if k > 0 {
      DataOfAt(attributes[1..], kind, k - 1);
    }
  }

  lemma {:induction false} NoDataOf(attributes: seq<Attribute>, kind: nat)
    requires forall i :: 0 <= i < |attributes| ==> attributes[i].kind != kind
    ensures DataOf(attributes, kind) == None
    decreases |attributes|
  {
    if attributes != [] {
      NoDataOf(attributes[1..], kind);
    }
  }

  /** What a receiver reads of a link in its attributes. */
  ghost predicate ReadsLink(got: seq<Attribute>, l: Link) {
    && LastName(got) == Some(l.name)
    && DataOf(got, IFLA_MTU).Some? && Value(DataOf(got, IFLA_MTU).value) == l.mtu
    && DataOf(got, IFLA_OPERSTATE) == Some([if Has(l.flags, IFF_UP) then 6 else 2])
    && DataOf(got, IFLA_ADDRESS) == (if l.address == [] then None else Some(l.address))
    && (DataOf(got, IFLA_BROADCAST).Some? <==> l.address != [])
    && (l.address != [] ==>
          && |DataOf(got, IFLA_BROADCAST).value| == |l.address|
          && forall b :: b in DataOf(got, IFLA_BROADCAST).value ==> b == if l.kind == ARPHRD_LOOPBACK then 0 else 255)
  }

  lemma AttributesAreRead(l: Link)
    requires Fitting(l)
    ensures ReadsLink(LinkAttributes(l), l)
  {
    hide Bytes, Value, Power, DataOf, LastName, CString;
    var got := LinkAttributes(l);
    LastNameOf(got, 0);
    assert l.name + [0] + [] == l.name + [0];
    CStringOf(l.name, []);
    assert (l.name + [0])[..|l.name|] == l.name;
    DataOfAt(got, IFLA_MTU, 1);
    ValueOfBytes(l.mtu, 4);
    DataOfAt(got, IFLA_OPERSTATE, 3);
    if l.address == [] {
      NoDataOf(got, IFLA_ADDRESS);
      NoDataOf(got, IFLA_BROADCAST);
    } else {
      DataOfAt(got, IFLA_ADDRESS, 4);
      DataOfAt(got, IFLA_BROADCAST, 5);
      assert got[4] == Attribute(IFLA_ADDRESS, l.address) && got[5] == Attribute(IFLA_BROADCAST, Broadcast(l));
      assert forall b :: b in Broadcast(l) ==> b == if l.kind == ARPHRD_LOOPBACK then 0 else 255;
    }
  }

  /**
   A receiver reads from the message of a link everything that it was built from: also as a request it
   asks for that link.
   */
  lemma LinkIsRead(flags: nat, stamp: Stamp, l: Link)
    requires Fitting(l) && Fits32(stamp) && flags < Power(2)
    ensures var m := NewLink(flags, stamp, l, 256);
      && |m| >= HEADER + 16 && Stamped(m, stamp) && TypeOf(m) == RTM_NEWLINK && FlagsOf(m) == flags
      && Value(m[18..20]) == l.kind && Value(m[20..24]) == l.index
      && Value(m[24..28]) ==
         (if Has(l.flags, IFF_RUNNING) && !Has(l.flags, IFF_LOWER_UP) then l.flags + IFF_LOWER_UP else l.flags)
      && ReadsLink(Attributes(m[HEADER + 16..]), l)
      && TargetOf(m) == Target(Signed(l.index), Some(l.name))
  {
    hide Power, Value, Message, LinkInfo, LinkAttributes, Attributes, ReadsLink, ExtendedAll, Fits32, Stamped, SaneLink;
    var m := NewLink(flags, stamp, l, 256);
    assert SaneLink(l) by { FittingIsSane(l); }
    LinkIsWhole(flags, stamp, l, 256);
    InfoIsRead(l);
    FlagsAreRead(RTM_NEWLINK, flags, stamp, ExtendedAll(LinkInfo(l), 256 - HEADER, LinkAttributes(l)));
    var info := m[HEADER..HEADER + 16];
    Within(m, HEADER, 2, 4);
    Within(m, HEADER, 4, 8);
    Within(m, HEADER, 8, 12);
    AttributesAreRead(l);
    assert LastName(Attributes(m[HEADER + 16..])) == Some(l.name) by { NameIsRead(Attributes(m[HEADER + 16..]), l); }
  }

  lemma Within(m: seq<nat>, at: nat, from: nat, to: nat)
    requires from <= to <= 16 && at + 16 <= |m|
    ensures m[at..at + 16][from..to] == m[at + from..at + to]
  {
    var part := m[at..at + 16];
    assert forall i :: 0 <= i < to - from ==> part[from..to][i] == part[from + i] == m[at + from + i];
  }

  lemma FittingIsSane(l: Link)
    requires Fitting(l)
    ensures SaneLink(l)
  {
  }

  lemma NameIsRead(got: seq<Attribute>, l: Link)
    requires ReadsLink(got, l)
    ensures LastName(got) == Some(l.name)
  {
  }

  /** What a receiver reads of an address in its attributes. */
  ghost predicate ReadsAddress(got: seq<Attribute>, a: Address) {
    && DataOf(got, IFA_ADDRESS) == Some(a.bytes) && DataOf(got, IFA_LOCAL) == Some(a.bytes)
    && DataOf(got, IFA_LABEL) == (if a.family == AF_INET && a.tag.Some? then Some(a.tag.value + [0]) else None)
  }

  lemma AddressAttributesAreRead(a: Address)
    ensures ReadsAddress(AddressAttributes(a), a)
  {
    hide DataOf;
    var got := AddressAttributes(a);
    DataOfAt(got, IFA_ADDRESS, 0);
    DataOfAt(got, IFA_LOCAL, 1);
    if a.family == AF_INET && a.tag.Some? {
      DataOfAt(got, IFA_LABEL, 2);
    } else {
      NoDataOf(got, IFA_LABEL);
    }
  }

  /** A receiver reads from the message of an address everything that it was built from. */
  lemma AddressIsRead(flags: nat, stamp: Stamp, a: Address)
    requires SaneAddress(a) && a.index < Power(4) && Fits32(stamp) && flags < Power(2)
    ensures var m := NewAddress(flags, stamp, a, 256);
      && |m| >= HEADER + 8 && Stamped(m, stamp) && TypeOf(m) == RTM_NEWADDR && FlagsOf(m) == flags
      && m[16] == a.family && m[17] == a.prefix && m[18] == IFA_F_PERMANENT && m[19] == a.scope
      && Value(m[20..24]) == a.index && ReadsAddress(Attributes(m[HEADER + 8..]), a)
  {
    hide Power, Value, Message, AddressAttributes, Attributes, ReadsAddress, ExtendedAll, Fits32, Stamped, SaneAddress, Bytes;
    var m := NewAddress(flags, stamp, a, 256);
    AddressIsWhole(flags, stamp, a, 256);
    FlagsAreRead(RTM_NEWADDR, flags, stamp, ExtendedAll(AddressInfo(a), 256 - HEADER, AddressAttributes(a)));
    var fixed := [a.family, a.prefix, IFA_F_PERMANENT, a.scope];
    Field(fixed, a.index, 4, []);
    assert AddressInfo(a) == fixed + Bytes(a.index, 4) + [];
    var info := m[HEADER..HEADER + 8];
    assert info[0] == m[16] && info[1] == m[17] && info[2] == m[18] && info[3] == m[19];
    assert info[4..8] == m[20..24] by {
      assert forall i :: 0 <= i < 4 ==> info[4..8][i] == info[4 + i] == m[20 + i];
    }
    AddressAttributesAreRead(a);
  }

  /** The receiver of an error message reads the negative errno, and that of an acknowledgement reads 0. */
  lemma ErrorCode(stamp: Stamp, error: nat)
    requires Fits32(stamp) && error < 0x8000_0000
    ensures var m := ErrorMessage(stamp, error);
      Stamped(m, stamp) && TypeOf(m) == NLMSG_ERROR && Signed(Value(m[16..20])) + error == 0
  {
    hide Value, Bytes, Fits32, Stamped, Header;
    var m, code := ErrorMessage(stamp, error), Negated(error);
    ErrorIsRead(stamp, error);
    PowerFour();
    var header := Header(HEADER + 20, NLMSG_ERROR, 0, stamp);
    assert m == header + Bytes(code, 4) + Zeros(HEADER);
    Field(header, code, 4, Zeros(HEADER));
  }

  lemma PowerFour()
    ensures Power(4) == 0x1_0000_0000 && Power(2) == 0x1_0000
  {
    assert Power(1) == 256 && Power(2) == 0x1_0000 && Power(3) == 0x100_0000;
  }

  // ----- Where the description of a link comes from -----

  /** An entry with a link-layer address speaks for itself. */
  lemma LinkLayerSpeaks(host: Host, name: Name, flags: nat, index: nat, kind: nat, hardware: seq<nat>, mtu: nat)
    requires index != 0 && 0 < |hardware| <= 8 && host.mtu(name) == Some(mtu)
    ensures Described(host, name, Interface(Some(name), flags, LinkLayer(index, kind, hardware)))
         == Link(index, kind, flags, mtu, name, hardware)
  {
  }

  /** For another entry the host is asked; what it does not answer is guessed from the loopback flag. */
  lemma HostIsAsked(host: Host, name: Name, i: Interface)
    requires !i.address.LinkLayer?
    ensures var d, loop := Described(host, name, i), i.flags / 8 % 2 == 1;
      && d.name == name && d.flags == i.flags && d.index == host.index(name)
      && (if host.mtu(name).Some? then host.mtu(name) == Some(d.mtu) else d.mtu == if loop then 65536 else 1500)
      && (if host.hardware(name).Some? then host.hardware(name) == Some((d.kind, d.address))
          else d.address == [] && d.kind == if loop then 772 else 1)
  {
  }

  // ----- The link that was asked for -----

  /** The link is the one that the request names, or has the index it gives, or any. */
  predicate Answers(t: Target, l: Link) {
    if t.name.Some? && t.name.value != [] then l.name == t.name.value
    else t.index > 0 ==> l.index == t.index
  }

  /** Nothing, if nothing is wanted, or the first that is. */
  ghost predicate IsFirst(q: Query, all: seq<Link>, ls: seq<Link>) {
    if ls == [] then forall i :: 0 <= i < |all| ==> !Wanted(q, all[i])
    else exists i :: FirstAt(q, all, i) && ls == [all[i]]
  }

  ghost predicate FirstAt(q: Query, all: seq<Link>, i: int) {
    0 <= i < |all| && Wanted(q, all[i]) && forall j :: 0 <= j < i ==> !Wanted(q, all[j])
  }

  /** A single link: the first one of the host that is wanted. */
  lemma {:induction false} ChosenIsFirst(host: Host, q: Query, stamp: Stamp, list: seq<Interface>, seen: seq<Name>,
                                         room: int)
    requires !q.Dump? && room >= 256
    ensures IsFirst(q, Listing(host, list, seen), Chosen(host, q, stamp, list, seen, room))
    decreases |list|
  {
    hide Described, NewLink, Wanted;
    if list != [] {
      var next, all := list[1..], Listing(host, list, seen);
      if list[0].name.None? || list[0].name.value in seen {
        ChosenIsFirst(host, q, stamp, next, seen, room);
      } else {
        var name := list[0].name.value;
        var l := Described(host, name, list[0]);
        var known := Remember(seen, name);
        assert all == [l] + Listing(host, next, known);
        if Wanted(q, l) {
          assert all[0] == l && FirstAt(q, all, 0);
        } else {
          ChosenIsFirst(host, q, stamp, next, known, room);
          ChosenStep(host, q, stamp, list, seen, room);
          assert Taken(host, q, stamp, name, list, known, room) == Chosen(host, q, stamp, next, known, room);
          LaterFirst(q, l, Listing(host, next, known), Chosen(host, q, stamp, list, seen, room));
        }
      }
    }
  }

  lemma LaterFirst(q: Query, l: Link, rest: seq<Link>, ls: seq<Link>)
    requires !Wanted(q, l)
    requires IsFirst(q, rest, ls)
    ensures IsFirst(q, [l] + rest, ls)
  {
    hide Wanted;
    var all := [l] + rest;
    if ls != [] {
      var i :| FirstAt(q, rest, i) && ls == [rest[i]];
      assert all[i + 1] == rest[i];
      forall j | 0 <= j < i + 1
        ensures !Wanted(q, all[j])
      {
        assert j > 0 ==> all[j] == rest[j - 1];
      }
      assert FirstAt(q, all, i + 1);
    }
  }

  /** No link of the host answers the request. */
  ghost predicate NoneAnswers(host: Host, t: Target) {
    var all := Listing(host, Interfaces(host), []);
    forall i :: 0 <= i < |all| ==> !Answers(t, all[i])
  }

  /** The first link of the host that answers the request. */
  ghost predicate FirstAnswers(host: Host, t: Target, l: Link) {
    var all := Listing(host, Interfaces(host), []);
    exists i :: 0 <= i < |all| && l == all[i] && Answers(t, l) && forall j :: 0 <= j < i ==> !Answers(t, all[j])
  }

  /**
   A request for one link gets the first link of the host with the name or the index it asks for.  When the
   host has none, the loopback interface stands in if it is meant, and else the answer is ENODEV.
   */
  lemma SingleLink(host: Host, stamp: Stamp, t: Target)
    ensures (exists l :: FirstAnswers(host, t, l)) <==> !NoneAnswers(host, t)
    ensures NoneAnswers(host, t) ==>
      Links(host, false, stamp, t) ==
        (if t.name == Some([108, 111]) || (t.name.None? && (t.index == 0 || t.index == 1))
         then [NewLink(0, stamp, Loopback(), 256)] else [ErrorMessage(stamp, ENODEV)])
    ensures forall l :: FirstAnswers(host, t, l) ==> Links(host, false, stamp, t) == [NewLink(0, stamp, l, 256)]
  {
    hide Listing, Chosen, NewLink, ErrorMessage, Loopback;
    var q, all := QueryOf(false, t), Listing(host, Interfaces(host), []);
    forall l: Link
      ensures Wanted(q, l) <==> Answers(t, l)
    {
    }
    var ls := Chosen(host, q, stamp, Interfaces(host), [], MAX_REPLY);
    ChosenIsFirst(host, q, stamp, Interfaces(host), [], MAX_REPLY);
    if ls != [] {
      var i :| FirstAt(q, all, i) && ls == [all[i]];
      assert FirstAnswers(host, t, all[i]);
      assert LinkMessages(q, stamp, ls) == [NewLink(0, stamp, all[i], 256)];
    }
  }

  /** A name is known exactly if the host has an interface of that name. */
  lemma NamedLink(host: Host, t: Target, name: Name)
    requires SaneHost(host) && t.name == Some(name) && name != []
    ensures NoneAnswers(host, t) <==> name !in InterfaceNames(Interfaces(host))
  {
    hide Listing, Distinct, RepeatsRemembered;
    var all, none: seq<Name> := Listing(host, Interfaces(host), []), [];
    ListingNames(host, Interfaces(host), none);
    assert LinkNames(all) == InterfaceNames(Interfaces(host));
    if name in LinkNames(all) {
      var l :| l in all && l.name == name;
      var i :| 0 <= i < |all| && all[i] == l;
    } else {
      forall i | 0 <= i < |all|
        ensures !Answers(t, all[i])
      {
        assert all[i].name in LinkNames(all);
      }
    }
  }

  // ----- The addresses that were asked for -----

  /** The addresses of the host in a family, or in both for 0. */
  function Matching(host: Host, family: nat, list: seq<Interface>): seq<Address>
    decreases |list|
  {
    if list == [] then []
    else if IsListed(family, list[0]) then [Situated(host, list[0])] + Matching(host, family, list[1..])
    else Matching(host, family, list[1..])
  }

  /** An interface address of one of the two families, in the asked one unless that is 0. */
  ghost predicate IsAddressOf(host: Host, family: nat, i: Interface, a: Address) {
    && i.name.Some? && i.address.Inet? && i.address.family in {AF_INET, AF_INET6}
    && (family != 0 ==> i.address.family == family)
    && a == Address(i.address.family, host.index(i.name.value), i.address.bytes, i.address.prefix, i.address.scope, i.name)
  }

  /** These are the addresses, all of them. */
  lemma {:induction false} MatchingAreAll(host: Host, family: nat, list: seq<Interface>)
    ensures forall a :: a in Matching(host, family, list) <==> exists i :: i in list && IsAddressOf(host, family, i, a)
    decreases |list|
  {
    if list != [] {
      var rest := Matching(host, family, list[1..]);
      MatchingAreAll(host, family, list[1..]);
      assert list == [list[0]] + list[1..];
      forall a: Address
        ensures a in Matching(host, family, list) <==> exists i :: i in list && IsAddressOf(host, family, i, a)
      {
        assert a in Matching(host, family, list) <==> IsAddressOf(host, family, list[0], a) || a in rest;
      }
    }
  }

  function AddressesSize(dump: bool, stamp: Stamp, addresses: seq<Address>): nat {
    if addresses == [] then 0
    else |NewAddress(Flags(dump), stamp, addresses[0], 256)| + AddressesSize(dump, stamp, addresses[1..])
  }

  /** The addresses of a reply are the first of them, and all exactly when 256 bytes remain for the last one. */
  lemma {:induction false} ListedAreFirst(host: Host, family: nat, dump: bool, stamp: Stamp, list: seq<Interface>,
                                          room: int)
    ensures var all, listed := Matching(host, family, list), Listed(host, family, dump, stamp, list, room);
      && listed <= all
      && (listed == all <==> all == [] || AddressesSize(dump, stamp, all[..|all| - 1]) + 256 <= room)
    decreases |list|
  {
    hide NewAddress, Situated;
    if list != [] {
      if IsListed(family, list[0]) {
        var a, rest := Situated(host, list[0]), Matching(host, family, list[1..]);
        ListedAreFirst(host, family, dump, stamp, list[1..], room - |NewAddress(Flags(dump), stamp, a, 256)|);
        if rest != [] {
          var front := ([a] + rest)[..|rest|];
          assert front[0] == a && front[1..] == rest[..|rest| - 1];
        } else {
          assert ([a] + rest)[..0] == [];
        }
      } else {
        ListedAreFirst(host, family, dump, stamp, list[1..], room);
      }
    }
  }

  // ----- The routes that were asked for -----

  /** A chunk that is walked to its end is split into the same messages. */
  lemma {:induction false} SplitIsWalk(b: seq<nat>)
    requires Walk(b).Some?
    ensures Split(b) == Walk(b).value
    decreases |b|
  {
    hide LengthOf;
    if b != [] {
      WalkStep(b, LengthOf(b), b[Align(LengthOf(b))..]);
      SplitIsWalk(b[Align(LengthOf(b))..]);
    }
  }

  function Flatten(mss: seq<seq<seq<nat>>>): seq<seq<nat>> {
    if mss == [] then [] else mss[0] + Flatten(mss[1..])
  }

  /** The answers of a kernel that cooperates: whole messages, in at most 64 chunks. */
  ghost predicate Answered(chunks: seq<seq<nat>>, mss: seq<seq<seq<nat>>>) {
    && |chunks| == |mss| <= 64
    && forall i :: 0 <= i < |chunks| ==>
         chunks[i] != [] && chunks[i] == Joined(mss[i]) && forall k :: 0 <= k < |mss[i]| ==> WellSized(mss[i][k])
  }

  lemma {:induction false} AllAreReceived(chunks: seq<seq<nat>>, mss: seq<seq<seq<nat>>>, rounds: nat)
    requires Answered(chunks, mss) && rounds <= |chunks|
    ensures Received(chunks, rounds) == Flatten(mss[rounds..])
    decreases |chunks| - rounds
  {
    hide Walk, Split, Joined, WellSized;
    if rounds < |chunks| {
      WalkJoined(mss[rounds]);
      SplitIsWalk(chunks[rounds]);
      AllAreReceived(chunks, mss, rounds + 1);
      assert mss[rounds..][1..] == mss[rounds + 1..];
    }
  }

  /** The messages up to the end of the dump. */
  function UpToDone(ms: seq<seq<nat>>): (r: seq<seq<nat>>)
    requires Sized(ms)
    ensures Sized(r) && r <= ms
    ensures forall i :: 0 <= i < |r| - 1 ==> TypeOf(r[i]) != NLMSG_DONE
    ensures r == ms || (r != [] && TypeOf(r[|r| - 1]) == NLMSG_DONE)
  {
    if ms == [] then []
    else if TypeOf(ms[0]) == NLMSG_DONE then [ms[0]]
    else [ms[0]] + UpToDone(ms[1..])
  }

  function AlignedSize(ms: seq<seq<nat>>): nat {
    if ms == [] then 0 else Align(|ms[0]|) + AlignedSize(ms[1..])
  }

  /** Messages are copied from the first one on, and up to the end of the dump exactly when 64 bytes stay free. */
  lemma {:induction false} KeptAreFirst(ms: seq<seq<nat>>, room: int)
    requires Sized(ms)
    ensures Kept(ms, room) <= UpToDone(ms)
    ensures Kept(ms, room) == UpToDone(ms) <==> ms == [] || AlignedSize(UpToDone(ms)) + 64 <= room
    decreases |ms|
  {
    hide TypeOf, LengthOf, Align;
    if ms != [] {
      SizeIsPositive(ms[0], UpToDone(ms)[1..]);
      if Align(|ms[0]|) + 64 <= room && TypeOf(ms[0]) != NLMSG_DONE {
        KeptAreFirst(ms[1..], room - Align(|ms[0]|));
      }
    }
  }

  lemma SizeIsPositive(m: seq<nat>, rest: seq<seq<nat>>)
    ensures AlignedSize([m] + rest) == Align(|m|) + AlignedSize(rest)
  {
    assert ([m] + rest)[1..] == rest;
  }

  /** Only the stamp of a relayed message changes. */
  lemma RestampedKeeps(m: seq<nat>, stamp: Stamp)
    requires |m| >= HEADER
    ensures Restamped(m, stamp)[..8] == m[..8] && Restamped(m, stamp)[HEADER..] == m[HEADER..]
  {
  }

  /** Only the stamp differs, message by message. */
  ghost predicate SameButStamp(ms: seq<seq<nat>>, rs: seq<seq<nat>>) {
    && |rs| == |ms|
    && forall i :: 0 <= i < |ms| ==>
         |rs[i]| == |ms[i]| >= HEADER && rs[i][..8] == ms[i][..8] && rs[i][HEADER..] == ms[i][HEADER..]
  }

  /** The first `n` of these messages, and the end of the dump. */
  ghost predicate Relayed(all: seq<seq<nat>>, n: nat, ms: seq<seq<nat>>, stamp: Stamp)
    requires Sized(all)
  {
    && n <= |all| && n <= |ms| && SameButStamp(all[..n], ms[..n])
    && ms[n..] == if n > 0 && TypeOf(all[n - 1]) == NLMSG_DONE then [] else [DoneMessage(stamp)]
  }

  lemma MessagesAreRelayed(all: seq<seq<nat>>, kept: seq<seq<nat>>, stamp: Stamp)
    requires Sized(all) && Sized(kept) && kept <= all
    ensures Relayed(all, |kept|, if kept == [] then [DoneMessage(stamp)] else RouteMessages(kept, stamp), stamp)
  {
    hide TypeOf, LengthOf, DoneMessage, Restamped, SameButStamp;
    var rs, n := AllRestamped(kept, stamp), |kept|;
    assert SameButStamp(kept, rs) by {
      RestampedAll(kept, stamp);
    }
    assert all[..n] == kept;
    if kept == [] {
      assert rs == [] && [DoneMessage(stamp)][..0] == [];
    } else {
      assert rs[..n] == rs && (rs + [DoneMessage(stamp)])[..n] == rs;
    }
  }

  lemma RestampedAll(ms: seq<seq<nat>>, stamp: Stamp)
    requires Sized(ms)
    ensures SameButStamp(ms, AllRestamped(ms, stamp))
  {
    hide Restamped;
    var rs := AllRestamped(ms, stamp);
    forall i | 0 <= i < |ms|
      ensures |rs[i]| == |ms[i]| >= HEADER && rs[i][..8] == ms[i][..8] && rs[i][HEADER..] == ms[i][HEADER..]
    {
      RestampedKeeps(ms[i], stamp);
    }
  }

  /**
   The tracee gets the routes of the kernel up to the end of its dump, if they leave 64 bytes free, and in
   any case from the first one on; an end is added when the kernel's is not there.
   */
  lemma RoutesAreRelayed(chunks: seq<seq<nat>>, mss: seq<seq<seq<nat>>>, stamp: Stamp)
    requires Answered(chunks, mss)
    ensures Sized(Flatten(mss))
    ensures exists n {:trigger Relayed(UpToDone(Flatten(mss)), n, Routes(chunks, stamp), stamp)} ::
      && Relayed(UpToDone(Flatten(mss)), n, Routes(chunks, stamp), stamp)
      && (AlignedSize(UpToDone(Flatten(mss))) + 64 <= MAX_REPLY ==> n == |UpToDone(Flatten(mss))|)
  {
    hide Joined, WellSized, TypeOf, LengthOf, DoneMessage, Restamped, Kept, UpToDone, AlignedSize, Relayed, RouteMessages;
    AllAreReceived(chunks, mss, 0);
    assert mss[0..] == mss;
    var received := Received(chunks, 0);
    KeptAreFirst(received, MAX_REPLY);
    MessagesAreRelayed(UpToDone(received), Kept(received, MAX_REPLY), stamp);
    var kept := Kept(received, MAX_REPLY);
    assert Relayed(UpToDone(received), |kept|, Routes(chunks, stamp), stamp);
    assert received == [] ==> kept == [] && UpToDone(received) == [];
  }

  // ----- Each request gets its own kind of answer -----

  /** The messages of the first `n` links, as parts of a dump. */
  ghost predicate DumpOfLinks(all: seq<Link>, n: nat, ms: seq<seq<nat>>, stamp: Stamp) {
    && n <= |all| && |ms| == n + 1 && ms[n] == DoneMessage(stamp)
    && forall i :: 0 <= i < n ==> ms[i] == NewLink(NLM_F_MULTI, stamp, all[i], 256)
  }

  /** The links of the host that fit; the loopback interface stands in for a host without any. */
  ghost predicate DumpsLinks(all: seq<Link>, ms: seq<seq<nat>>, stamp: Stamp) {
    if all == [] then DumpOfLinks([Loopback()], 1, ms, stamp)
    else exists n :: 0 < n && DumpOfLinks(all, n, ms, stamp)
           && (n == |all| <==> DumpSize(stamp, all[..|all| - 1]) + 256 <= MAX_REPLY)
  }

  lemma LinksAreDumped(host: Host, stamp: Stamp, t: Target)
    ensures DumpsLinks(Listing(host, Interfaces(host), []), WithEnd(true, stamp, Links(host, true, stamp, t)), stamp)
  {
    hide Listing, Chosen, NewLink, DoneMessage, Loopback, DumpSize;
    var none: seq<Name>, all := [], Listing(host, Interfaces(host), []);
    var ls := Chosen(host, Dump, stamp, Interfaces(host), none, MAX_REPLY);
    DumpTakesFirsts(host, stamp, Interfaces(host), none, MAX_REPLY);
    SomeIsDumped(host, stamp, Interfaces(host), none, MAX_REPLY);
    if all != [] {
      assert DumpOfLinks(all, |ls|, WithEnd(true, stamp, LinkMessages(Dump, stamp, ls)), stamp);
    }
  }

  lemma {:induction false} SomeIsDumped(host: Host, stamp: Stamp, list: seq<Interface>, seen: seq<Name>, room: int)
    requires room >= 256
    ensures Chosen(host, Dump, stamp, list, seen, room) == [] <==> Listing(host, list, seen) == []
    decreases |list|
  {
    hide Described, NewLink;
    if list != [] {
      ChosenStep(host, Dump, stamp, list, seen, room);
      if list[0].name.None? || list[0].name.value in seen {
        SomeIsDumped(host, stamp, list[1..], seen, room);
      }
    }
  }

  /** The messages of the first `n` addresses, with an end for a dump. */
  ghost predicate ListOfAddresses(all: seq<Address>, n: nat, ms: seq<seq<nat>>, dump: bool, stamp: Stamp) {
    && n <= |all| && |ms| == n + (if dump then 1 else 0) && (dump ==> ms[n] == DoneMessage(stamp))
    && forall i :: 0 <= i < n ==> ms[i] == NewAddress(if dump then NLM_F_MULTI else 0, stamp, all[i], 256)
  }

  /** The addresses of the loopback interface in the asked family. */
  function StandIns(family: nat): seq<Address> {
    if family == AF_INET then [LoopbackAddress(AF_INET)]
    else if family == AF_INET6 then [LoopbackAddress(AF_INET6)]
    else if family == 0 then [LoopbackAddress(AF_INET), LoopbackAddress(AF_INET6)]
    else []
  }

  /** Addresses of the asked family that fit; without any, those of the loopback interface. */
  ghost predicate ListsAddresses(all: seq<Address>, family: nat, ms: seq<seq<nat>>, dump: bool, stamp: Stamp) {
    if all == [] then ListOfAddresses(StandIns(family), |StandIns(family)|, ms, dump, stamp)
    else exists n :: 0 < n && ListOfAddresses(all, n, ms, dump, stamp)
           && (n == |all| <==> AddressesSize(dump, stamp, all[..|all| - 1]) + 256 <= MAX_REPLY)
  }

  /** The addresses of the asked family, or of both families for another number. */
  function Asked(host: Host, family: nat): seq<Address> {
    Matching(host, if family == AF_INET || family == AF_INET6 then family else 0, Interfaces(host))
  }

  lemma AddressesAreListed(host: Host, dump: bool, stamp: Stamp, family: nat)
    ensures ListsAddresses(Asked(host, family), family, WithEnd(dump, stamp, Addresses(host, dump, stamp, family)),
                           dump, stamp)
  {
    hide Matching, Listed, NewAddress, DoneMessage, LoopbackAddress, AddressesSize;
    var wanted := if family in {AF_INET, AF_INET6} then family else 0;
    var all := Matching(host, wanted, Interfaces(host));
    var listed := Listed(host, wanted, dump, stamp, Interfaces(host), MAX_REPLY);
    ListedAreFirst(host, wanted, dump, stamp, Interfaces(host), MAX_REPLY);
    SomeIsListed(host, wanted, dump, stamp, Interfaces(host), MAX_REPLY);
    if all != [] {
      assert ListOfAddresses(all, |listed|, WithEnd(dump, stamp, AddressMessages(dump, stamp, listed)), dump, stamp);
    }
  }

  lemma {:induction false} SomeIsListed(host: Host, family: nat, dump: bool, stamp: Stamp, list: seq<Interface>,
                                        room: int)
    requires room >= 256
    ensures Listed(host, family, dump, stamp, list, room) == [] <==> Matching(host, family, list) == []
    decreases |list|
  {
    hide NewAddress, Situated, IsListed;
    if list != [] && !IsListed(family, list[0]) {
      SomeIsListed(host, family, dump, stamp, list[1..], room);
    }
  }

  /** One message about the link that was asked for. */
  ghost predicate TellsLink(host: Host, t: Target, ms: seq<seq<nat>>, stamp: Stamp) {
    if NoneAnswers(host, t) then ms == [NewLink(0, stamp, Loopback(), 256)] || ms == [ErrorMessage(stamp, ENODEV)]
    else exists l :: FirstAnswers(host, t, l) && ms == [NewLink(0, stamp, l, 256)]
  }

  /**
   The answer is about what the request asks for: one link, all links, the addresses of a family, or the
   routes.  Other dumps are empty, and anything else is acknowledged.
   */
  lemma AnswerIsAsked(host: Host, chunks: seq<seq<nat>>, req: seq<nat>, pid: nat)
    requires |req| >= HEADER
    ensures IsDump(req) <==> FlagsOf(req) / 0x100 % 4 == 3
    ensures var stamp, answer := Stamp(SequenceOf(req), pid), Answer(host, chunks, req, pid);
      && (TypeOf(req) == 18 && !IsDump(req) ==> TellsLink(host, TargetOf(req), answer, stamp))
      && (TypeOf(req) == 18 && IsDump(req) ==> DumpsLinks(Listing(host, Interfaces(host), []), answer, stamp))
      && (TypeOf(req) == 22 ==>
            ListsAddresses(Asked(host, FamilyOf(req)), FamilyOf(req), answer, IsDump(req), stamp))
      && (TypeOf(req) == 26 && IsDump(req) ==> answer == Routes(chunks, stamp))
      && (TypeOf(req) !in {18, 22, 26} && IsDump(req) ==> answer == [DoneMessage(stamp)])
      && (TypeOf(req) !in {18, 22} && !IsDump(req) ==> answer == [ErrorMessage(stamp, 0)])
  {
    hide Listing, Asked, NoneAnswers, FirstAnswers, DumpsLinks, ListsAddresses, NewLink, Links, Addresses, Routes,
         TargetOf, DoneMessage, ErrorMessage, Value;
    var dump, stamp := IsDump(req), Stamp(SequenceOf(req), pid);
    SingleLink(host, stamp, TargetOf(req));
    LinksAreDumped(host, stamp, TargetOf(req));
    AddressesAreListed(host, dump, stamp, FamilyOf(req));
  }
}
